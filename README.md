# veo3-automation, modelled in Dafny

`main.py` of veo3-automation turns a Word document of prompts, a folder of
face images and a folder of per-letter frames into one video per letter A-Z.
It does this in three steps:

- It reads the prompt document (`carregar_prompts_docx`). A paragraph
  `VEO PROMPT - <L>` arms the key `<L>`, and the next paragraph with text
  becomes that key's prompt.
- It lets the user pick a face (`selecionar_rosto`). The image names of
  `FACE_SOURCE` are filtered and sorted, the program stops when there is
  none, and typed choices are read until `FACE_SOURCE/<choice>rosto.png`
  exists.
- It runs the letters A-Z (`main`). A letter with a frame `FRAME/<L>.webp`
  and a non-empty prompt goes to the face-swap step
  (`executar_seaart_swap`). If that step returns an image, the letter goes
  on to the video step (`gerar_video_veo`), which does nothing when
  `output/video_<L>.mp4` already exists.

The project models these three pieces and the string and path conventions
they rely on:

| file | module | what it holds |
|---|---|---|
| `wrappers.dfy` | `Wrappers` | `Option`, and `dict.get` as `Get` |
| `text.dfy` | `Text` | `str.strip`, `str.upper`, `startswith`, `endswith` and `split(c)[-1]` on ASCII text |
| `layout.dfy` | `Layout` | POSIX `os.path.join` and the four path conventions (frame, swapped image, video, face candidate) |
| `prompt_loader.dfy` | `PromptLoader` | the paragraph scan as a loop (`LoadPrompts`), its specification (`Load`, a fold of `Step`), and a declarative account of what the scan stores (`Capture`) |
| `face_selector.dfy` | `FaceSelector` | the listing filter, `sorted` as an insertion sort with its ordering and permutation proofs, and the input loop |
| `batch.dfy` | `Batch` | the two clients, the A-Z loop over a disk modelled as a set of paths, `main`, and what a second run does with the disk the first one left |

The file system is a `set<string>` of existing paths. The prompt document
is the sequence of its paragraph texts, or `None` when the file is missing.
The lines typed at the face prompt are a finite sequence of answers. The
two remote services are reduced to whether they raise and, for the video
service, where:

- `BeforeOpen`: the fault comes before the output file is opened.
- `WhileWriting`: the fault comes after `open(output_file, "wb")` has
  created the file.

The loop reads the disk as the earlier letters left it. `ProcessLetters`
proves that the result nonetheless equals `Plan`, which is computed on the
disk as it was before the loop. This holds because no letter writes a path
that another letter reads.

`gerar_video_veo` opens `output/video_<L>.mp4` before it reads the first
result's bytes (main.py:149-150). A fault there leaves a file behind, and
every later run skips that letter; `Batch.InterruptedWriteIsNeverRetried`
states this.

## Model

| member | source | states |
|---|---|---|
| `Text.Trim` | main.py:37 | `strip()`: drop the leading whitespace, then the trailing whitespace (its properties are the rows below) |
| `Text.LeadingSpacesSpec` | main.py:37 | the whitespace `strip()` removes in front is all whitespace, and the first character kept is not whitespace |
| `Text.TrailingStartSpec` | main.py:37 | the whitespace `strip()` removes at the end is all whitespace, and the last character kept is not whitespace |
| `Text.TrimShape` | main.py:37 | a stripped text is no longer than its input, holds only characters of the input, and neither starts nor ends with whitespace |
| `Text.TrimIdempotent` | main.py:37 | stripping twice is stripping once |
| `Text.TrimOfTrimmed` | main.py:37 | a text with no whitespace at either end is its own strip |
| `Text.TrimSpaceThen` | main.py:40 | a space in front of a trimmed text is stripped off again (the space after `-` in a header) |
| `Text.Upper` | main.py:38 | `upper()` keeps the length and maps each character on its own, upper-casing exactly `a`-`z` |
| `Text.StartsWith` | main.py:38 | `startswith(p)`: `p` is no longer than the text and is its prefix |
| `Text.EndsWith` | main.py:53 | `endswith(p)`: `p` is no longer than the text and is its suffix |
| `Text.UpperShape` | main.py:38 | `upper()` leaves no lower-case letter, keeps every `-` and keeps the text trimmed |
| `Text.UpperOfCaps` | main.py:40 | a text without lower-case letters is its own `upper()` |
| `Text.LastPieceStartSpec` | main.py:40 | the last piece of `split(c)` holds no `c`, and a `c` stands right before it unless it is the whole text |
| `Text.AfterLast` | main.py:40 | `split(c)[-1]` contains no `c` |
| `Text.AfterLastOfJoin` | main.py:40 | the last separator wins: `split(c)[-1]` of `u + c + v` is `v` when `v` holds no `c`, whatever `u` holds |
| `Layout.Join` | main.py:67 | `os.path.join(dir, name)` is `name` when `name` is absolute, otherwise `dir/name`, and it always ends with `name` |
| `Layout.FramePath` | main.py:176 | a letter's frame path ends with `<L>.webp` |
| `Layout.SwappedPath` | main.py:111 | a letter's swapped image path ends with `<L>_swapped.png` |
| `Layout.VideoPath` | main.py:125 | a letter's video path ends with `video_<L>.mp4` |
| `Layout.FaceCandidate` | main.py:65-67 | the file a choice names ends with `<choice>rosto.png` |
| `Layout.LetterPaths` | main.py:176 | for a letter the paths are `FRAME/<L>.webp` (line 176), `TEMP_FRAMES/<L>_swapped.png` (line 111) and `output/video_<L>.mp4` (line 125) |
| `Layout.PathsDistinct` | main.py:175-191 | no frame, swapped image or video path equals another of a different kind, and each kind is one-to-one in the letter |
| `Layout.FaceCandidateRelative` | main.py:65-67 | for a choice that is not an absolute path, the candidate is `FACE_SOURCE/<choice>rosto.png` (input "3" gives `FACE_SOURCE/3rosto.png`) |
| `PromptLoader.Step` | main.py:37-45 | one iteration: a header sets the pending key (possibly empty); a line with text under a non-empty pending key stores it under that key and clears the key; anything else changes nothing |
| `PromptLoader.Run` | main.py:36-45 | the state after the first `n` paragraphs, starting from the empty map and no key |
| `PromptLoader.Load` | main.py:33-47 | the map after the whole document (its properties are the rows below) |
| `PromptLoader.HeaderKey` | main.py:40 | the key a header sets is trimmed, holds no `-` and no lower-case letter |
| `PromptLoader.Classify` | main.py:37-42 | a paragraph is a header exactly when its stripped, upper-cased text starts with `VEO PROMPT - `, and then it carries `HeaderKey`; otherwise it is a line whose text is the stripped paragraph, empty exactly when the paragraph is blank |
| `PromptLoader.LoadPrompts` | main.py:26-48 | a missing document gives the empty map; otherwise the loop that updates `prompts` and `current_key` ends with the map `Load` specifies |
| `PromptLoader.RunInvariant` | main.py:36-45 | after any prefix of the document, the pending key is the key of the header still waiting (if any), every entry comes from a capture, and each key's last capture is its entry |
| `PromptLoader.StepInvariant` | main.py:37-45 | one iteration of the loop keeps that invariant |
| `PromptLoader.HeaderStep` | main.py:38-41 | a header keeps the prompts and becomes the only waiting header, even with an empty key |
| `PromptLoader.CaptureStep` | main.py:42-45 | a line with text under an armed key is stored as that key's newest prompt and leaves no header waiting |
| `PromptLoader.IgnoredStep` | main.py:42 | any other line changes nothing; only a blank one keeps a header waiting |
| `PromptLoader.InitialInvariant` | main.py:33-34 | the empty map with no pending key satisfies the invariant |
| `PromptLoader.CaptureMeaning` | main.py:36-45 | paragraph `j` is captured by header `i` exactly when header `i` has a non-empty key, every paragraph between them is blank, and paragraph `j` has text and is no header |
| `PromptLoader.HeaderKeyAfterLastDash` | main.py:40 | a header `u - v` with no `-` in `v` has the key `v`, stripped and upper-cased (`VEO PROMPT - X - Y` has key `Y`) |
| `PromptLoader.LoadEntriesFromCaptures` | main.py:42-45 | every entry of the map is the stripped text of a paragraph captured by a header with that key |
| `PromptLoader.LoadKeepsLastCapture` | main.py:44 | a key's last capture is its entry: a later prompt for a repeated letter overwrites the earlier one |
| `PromptLoader.LoadHasEveryCapturedKey` | main.py:44 | every captured key is in the map |
| `PromptLoader.LoadEntryShape` | main.py:37-45 | stored prompts are non-empty, stripped and never a header; keys are non-empty, stripped, upper-case and hold no `-` |
| `PromptLoader.AtMostOneCapture` | main.py:45 | a header captures at most one paragraph |
| `PromptLoader.HeaderThenHeaderDropped` | main.py:38-41 | a header followed directly by another header captures nothing |
| `PromptLoader.NoCapturePastHeader` | main.py:38-41 | a header ends the wait of every header before it |
| `PromptLoader.EmptyKeyDisarms` | main.py:40-42 | after a header with an empty key, no later paragraph is captured, neither for it nor for any earlier header |
| `PromptLoader.FirstLetterNotHeader` | main.py:38 | a paragraph whose stripped text does not start with `v` or `V` is a plain line |
| `PromptLoader.HeaderRoundTrip` | main.py:37-41 | for every non-empty key of the shape `HeaderKey` produces, `VEO PROMPT - <key>` is a header that sets exactly that key |
| `PromptLoader.ExampleLine` | main.py:37-42 | "Fly over mountains" is a plain line |
| `PromptLoader.RunExample` | main.py:36-45 | the tokens of `VEO PROMPT - A`, "Fly over mountains" give exactly the entry `A` -> "Fly over mountains" |
| `PromptLoader.LoadDocumentExample` | main.py:36-45 | the document of the paragraphs `VEO PROMPT - A` and "Fly over mountains" loads as exactly the entry `A` -> "Fly over mountains" |
| `FaceSelector.IsImageName` | main.py:53 | a name is an image exactly when it ends in `.png` or `.jpg`, case-sensitively |
| `FaceSelector.ImageNames` | main.py:53 | the filter keeps each name ending in `.png` or `.jpg` as often as the listing holds it, and nothing else |
| `FaceSelector.LexTotal` | main.py:53 | the string order `sorted` uses is total |
| `FaceSelector.LexTransitive` | main.py:53 | the string order is transitive |
| `FaceSelector.LexAntisymmetric` | main.py:53 | the string order is antisymmetric |
| `FaceSelector.SortedUnique` | main.py:53 | two ascending orderings of the same names are equal |
| `FaceSelector.InsertSpec` | main.py:53 | inserting into a sorted list keeps it sorted and adds exactly the new name |
| `FaceSelector.Sort` | main.py:53 | `sorted`, as insertion of each name into the sorted rest |
| `FaceSelector.SortSpec` | main.py:53 | sorting gives an ascending permutation of its input |
| `FaceSelector.SortIsTheSortedPermutation` | main.py:53 | sorting gives the one ascending permutation of its input, so it agrees with `sorted` |
| `FaceSelector.FaceListing` | main.py:53 | the listing is the sorted image names of the folder |
| `FaceSelector.FaceListingSpec` | main.py:53-57 | the listing is sorted, holds exactly the image names of the folder, and is empty exactly when the folder holds no image name |
| `FaceSelector.SelectFace` | main.py:50-74 | no faces exactly when the listing is empty; otherwise the first answer whose candidate file exists is chosen, with every earlier candidate missing; when the answers run out, none of their candidates exists |
| `Batch.AlphabetIsLiteral` | main.py:173 | the loop's alphabet is `"ABCDEFGHIJKLMNOPQRSTUVWXYZ"` |
| `Batch.AlphabetDistinct` | main.py:173 | no letter is `/`, and the letters are pairwise distinct |
| `Wrappers.Get` | main.py:177 | `dict.get`: a value exactly when the key is present, and then the stored one |
| `Batch.HasPrompt` | main.py:177-179 | a letter has a prompt exactly when its key is present with a non-empty text (`prompts.get(letter)` is truthy) |
| `Batch.SeaArtSwap` | main.py:102-119 | the swap returns a path exactly when it does not raise; the path is `TEMP_FRAMES/<L>_swapped.png` and then exists; a raise changes nothing |
| `Batch.GenerateVideo` | main.py:121-155 | it returns at once, writing nothing, exactly when `output/video_<L>.mp4` exists; otherwise the file exists afterwards unless the request failed before the file was opened |
| `Batch.LetterPlan` | main.py:175-195 | a letter is not skipped exactly when its frame exists and its prompt is non-empty; the swap gets the frame and the face; the video is requested exactly when the swap did not raise and the video is missing |
| `Batch.Plan` | main.py:173-195 | 26 runs, the `i`-th for the `i`-th letter, each letter once |
| `Batch.ProcessLetter` | main.py:175-191 | one loop body does what `LetterPlan` decides on the current disk and adds exactly that run's files |
| `Batch.ProcessLetters` | main.py:173-191 | the loop yields `Plan` of the disk before the loop, and the disk afterwards is the old disk plus the files those runs write |
| `Batch.LetterPlanLocal` | main.py:176-179 | a letter's decision depends on the disk only through its own frame and video |
| `Batch.WritesStayWithLetter` | main.py:184-189 | a letter's run writes no frame and no video that another letter reads |
| `Batch.SameInputsStep` | main.py:175-191 | one letter's writes leave the frames and videos of the later letters as they were |
| `Batch.VideoWrittenBy` | main.py:125-150 | a run writes a letter's video exactly when it is that letter's run, the video was requested and it was not lost before the file opened |
| `Batch.VideoWritten` | main.py:125-150 | over any prefix of the plan, a letter's video is written exactly when its own run requested it and the request did not fail before the file opened |
| `Batch.FrameNotWrittenBy` | main.py:111 | no run writes a frame |
| `Batch.FrameNeverWritten` | main.py:175-191 | no prefix of the plan writes a frame |
| `Batch.PlanLettered` | main.py:173-184 | the plan's `k`-th run is for the `k`-th letter, and its swapped image is at that letter's path |
| `Batch.NothingRequestedWhenAllVideosExist` | main.py:125-129 | with every video on disk, no letter requests a video (a re-run makes no generation call) |
| `Batch.RerunRequestsOnlyFailedLetters` | main.py:125-150 | a second run on the disk the first one left requests a video only for a letter whose swap raised, or whose request failed before the file opened, in the first run |
| `Batch.InterruptedWriteIsNeverRetried` | main.py:149-150 | a letter whose video write raised after the file was opened is never requested again |
| `Batch.RunAutomation` | main.py:159-195 | `main` creates `output` and `TEMP_FRAMES`, then exits exactly when the face listing is empty; it waits for input when no answer names an existing path; otherwise the face is the candidate of the first answer whose candidate exists, every earlier candidate missing, and it runs `Plan` with that face and the loaded prompts on the disk plus the two directories |
| `Batch.ScenarioPlanA` | main.py:175-189 | with `FRAME/A.webp` present and `output/video_A.mp4` absent, letter A's swap gets the frame and the face, and its video request gets the swapped image and "Fly over mountains" |
| `Batch.ScenarioLetterA` | main.py:173-191 | the document `VEO PROMPT - A`, "Fly over mountains" and the typed choice "2" (the face `FACE_SOURCE/2rosto.png`), with letter A's frame present and video absent: A's swap and request get those inputs, and after the run `output/video_A.mp4` exists |

## Left out

- Reading `.docx` with python-docx (main.py:32, 36): the document is the sequence of its paragraph texts.
- The missing-file test of the prompt document (main.py:28) is the `None` case of `LoadPrompts`'s input.
- All `print` logging.
- `load_dotenv`, the environment settings and `vertexai.init`.
- The Vertex AI calls (`ImageToVideoModel`, `Image.load_from_file`, `generate_video`) and the bytes written: only where they can raise (`Fault`) is modelled.
- The SeaArt request: it is commented out in the code. The mock's `shutil.copy` and `time.sleep` are reduced to "returns `TEMP_FRAMES/<L>_swapped.png`, which then exists" or "raises".
- `SeaArtSwap`: does not model a raise after the copy succeeded (during `time.sleep`). Such a raise would leave the copied file on disk even though the step returns `None`.
- `os.makedirs` is the addition of `output` and `TEMP_FRAMES` to the set of paths; directories and files are not distinguished.
- `os.listdir("FACE_SOURCE")` is an input sequence. The model does not tie it to the set of existing paths.
- `input()` is a finite sequence of answers. Where the program would go on asking forever, `SelectFace` ends with `StillAsking`.
- `sys.exit()` is the `Exited` outcome.
- The `except ValueError` branch (main.py:73-74), taken for instance when `input()` cannot decode a line (`UnicodeDecodeError` is a `ValueError`), only prints and asks again. The model treats such a line like an answer whose candidate does not exist.
- Python's Unicode `strip` and `upper` are modelled on ASCII only: whitespace is codes 9-13 and 28-32, and only `a`-`z` are upper-cased.
- `os.path.join` is modelled with the POSIX rules only.
- `sorted` is modelled by insertion sort; `FaceSelector.SortIsTheSortedPermutation` shows that its result is the one ascending permutation of the input, which is what `sorted` returns. The program uses the sorted list only for printing and for its emptiness.
