/**
 * The driver (`main`): for each letter A-Z with a frame and a prompt, the
 * face swap and then, if it returned an image, the video generation, which
 * does nothing when the letter's video already exists. The file system is a
 * set of existing paths; the two remote services are reduced to whether, and
 * where, they fail.
 */
module Batch {
  import opened Wrappers
  import opened Text
  import opened Layout
  import opened PromptLoader
  import opened FaceSelector

  /** `alfabeto`, the letters the loop visits: 'A' (65) to 'Z' (90). */
  function Alphabet(): (letters: string)
    ensures |letters| == 26
  {
    seq(26, i requires 0 <= i < 26 => (65 + i) as char)
  }

  /** The alphabet is the literal `"ABCDEFGHIJKLMNOPQRSTUVWXYZ"` of `main`. */
  lemma AlphabetIsLiteral()
    ensures Alphabet() == "ABCDEFGHIJKLMNOPQRSTUVWXYZ"
  {
    var a := Alphabet();
    var lit := "ABCDEFGHIJKLMNOPQRSTUVWXYZ";
    forall i | 0 <= i < 26
      ensures a[i] == lit[i]
    {
      assert a[i] as int == 65 + i;
    }
  }

  /** No letter is a path separator, and the letters are pairwise distinct. */
  lemma AlphabetDistinct(i: int, j: int)
    requires 0 <= i < 26 && 0 <= j < 26
    ensures Alphabet()[i] != '/'
    ensures i != j ==> Alphabet()[i] != Alphabet()[j]
  {
    assert Alphabet()[i] as int == 65 + i && Alphabet()[j] as int == 65 + j;
  }

  /** Where video generation raises: before the output file is opened (model
      loading, image loading, the generation request), or after `open(..., "wb")`
      has created it (reading the first result's bytes, writing them). */
  datatype Fault = BeforeOpen | WhileWriting

  /** What the video step did for a letter. */
  datatype Video = OutputExists | Requested

  /** What happened to one letter of the loop. */
  datatype LetterRun =
    | Skipped(letter: char)
    | SwapFailed(letter: char, frame: string, face: string)
    | Swapped(letter: char, frame: string, face: string, image: string, prompt: string, video: Video)

  /** `prompts_map.get(letra)` is truthy. */
  predicate HasPrompt(prompts: map<string, string>, letter: char) {
    [letter] in prompts && prompts[[letter]] != []
  }

  /** A video step that was requested leaves the output file behind unless it
      failed before opening it. */
  predicate LeavesVideo(letter: char, faults: map<char, Fault>) {
    letter !in faults || faults[letter] == WhileWriting
  }

  /** `executar_seaart_swap` as it stands: the remote call is replaced by a
      copy of the frame to `TEMP_FRAMES/<L>_swapped.png`; `raises` says
      whether that step raised, which the client reports as `None`. */
  method SeaArtSwap(frame: string, face: string, letter: char, raises: bool, disk: set<string>)
    returns (result: Option<string>, disk': set<string>)
    ensures result.Some? <==> !raises
    ensures result.Some? ==> result.value == SwappedPath(letter) && disk' == disk + {result.value}
    ensures result.None? ==> disk' == disk
  {
    if raises {
      return None, disk;
    }
    var outputPath := SwappedPath(letter);
    return Some(outputPath), disk + {outputPath};
  }

  /** `gerar_video_veo`: returns at once when `output/video_<L>.mp4` exists;
      otherwise requests the video, and the file exists afterwards unless the
      request failed before the file was opened. */
  method GenerateVideo(image: string, prompt: string, letter: char, fault: Option<Fault>, disk: set<string>)
    returns (video: Video, disk': set<string>)
    ensures video == OutputExists <==> VideoPath(letter) in disk
    ensures video == OutputExists ==> disk' == disk
    ensures video == Requested && fault != Some(BeforeOpen) ==> disk' == disk + {VideoPath(letter)}
    ensures video == Requested && fault == Some(BeforeOpen) ==> disk' == disk
  {
    var outputFile := VideoPath(letter);
    if outputFile in disk {
      return OutputExists, disk;
    }
    if fault == Some(BeforeOpen) {
      return Requested, disk;
    }
    return Requested, disk + {outputFile};
  }

  /** The decision for one letter, taken on the disk as it was before the loop. */
  function LetterPlan(letter: char, disk: set<string>, face: string, prompts: map<string, string>, swapRaises: set<char>): (r: LetterRun)
    ensures r.letter == letter
    ensures !r.Skipped? <==> FramePath(letter) in disk && HasPrompt(prompts, letter)
    ensures r.Swapped? <==> !r.Skipped? && letter !in swapRaises
    ensures !r.Skipped? ==> r.frame == FramePath(letter) && r.face == face
    ensures r.Swapped? ==> r.image == SwappedPath(letter) && r.prompt == prompts[[letter]]
    ensures r.Swapped? ==> (r.video == Requested <==> VideoPath(letter) !in disk)
  {
    if FramePath(letter) in disk && HasPrompt(prompts, letter) then
      if letter in swapRaises then SwapFailed(letter, FramePath(letter), face)
      else
        var video := if VideoPath(letter) in disk then OutputExists else Requested;
        Swapped(letter, FramePath(letter), face, SwappedPath(letter), prompts[[letter]], video)
    else
      Skipped(letter)
  }

  /** The whole loop: one run per letter, in alphabetical order. */
  function Plan(disk: set<string>, face: string, prompts: map<string, string>, swapRaises: set<char>): (r: seq<LetterRun>)
    ensures |r| == 26
    ensures forall i :: 0 <= i < 26 ==> r[i].letter == Alphabet()[i]
    ensures forall i, j :: 0 <= i < j < 26 ==> r[i].letter != r[j].letter
  {
    seq(26, i requires 0 <= i < 26 => LetterPlan(Alphabet()[i], disk, face, prompts, swapRaises))
  }

  /** The files one letter's run creates. */
  function LetterWrites(run: LetterRun, faults: map<char, Fault>): set<string> {
    match run
    case Swapped(letter, _, _, image, _, video) =>
      {image} + (if video == Requested && LeavesVideo(letter, faults) then {VideoPath(letter)} else {})
    case _ => {}
  }

  /** The files a sequence of runs creates. */
  function Writes(runs: seq<LetterRun>, faults: map<char, Fault>): set<string> {
    if runs == [] then {} else Writes(runs[..|runs| - 1], faults) + LetterWrites(runs[|runs| - 1], faults)
  }

  /** A letter's decision depends on the disk only through its own frame and
      its own video. */
  lemma LetterPlanLocal(letter: char, d1: set<string>, d2: set<string>, face: string,
                        prompts: map<string, string>, swapRaises: set<char>)
    requires FramePath(letter) in d1 <==> FramePath(letter) in d2
    requires VideoPath(letter) in d1 <==> VideoPath(letter) in d2
    ensures LetterPlan(letter, d1, face, prompts, swapRaises) == LetterPlan(letter, d2, face, prompts, swapRaises)
  {
  }

  /** One pass of the loop body of `main`, on the disk as it is now. */
  method ProcessLetter(letter: char, disk: set<string>, face: string, prompts: map<string, string>,
                       swapRaises: set<char>, faults: map<char, Fault>)
    returns (run: LetterRun, disk': set<string>)
    requires letter != '/'
    ensures run == LetterPlan(letter, disk, face, prompts, swapRaises)
    ensures disk' == disk + LetterWrites(run, faults)
  {
    var frameFile := FramePath(letter);
    var promptText := Get(prompts, [letter]);
    disk' := disk;
    if frameFile in disk && promptText.Some? && promptText.value != [] {
      var swapped;
      swapped, disk' := SeaArtSwap(frameFile, face, letter, letter in swapRaises, disk');
      if swapped.Some? {
        PathsDistinct(letter, letter);
        var video;
        video, disk' := GenerateVideo(swapped.value, promptText.value, letter, Get(faults, letter), disk');
        run := Swapped(letter, frameFile, face, swapped.value, promptText.value, video);
      } else {
        run := SwapFailed(letter, frameFile, face);
      }
    } else {
      run := Skipped(letter);
    }
  }

  /** The A-Z loop of `main`. Each letter's checks read the disk as the
      earlier letters left it; the result is nevertheless the plan taken on
      the disk before the loop, because no letter writes a path another
      letter looks at. */
  method ProcessLetters(disk: set<string>, face: string, prompts: map<string, string>,
                        swapRaises: set<char>, faults: map<char, Fault>)
    returns (runs: seq<LetterRun>, disk': set<string>)
    ensures runs == Plan(disk, face, prompts, swapRaises)
    ensures disk' == disk + Writes(runs, faults)
  {
    runs := [];
    disk' := disk;
    for i := 0 to |Alphabet()|
      invariant |runs| == i
      invariant forall k :: 0 <= k < i ==> runs[k] == LetterPlan(Alphabet()[k], disk, face, prompts, swapRaises)
      invariant disk' == disk + Writes(runs, faults)
      invariant SameInputsFrom(i, disk', disk)
    {
      var letter := Alphabet()[i];
      AlphabetDistinct(i, i);
      var run;
      ghost var before := disk';
      run, disk' := ProcessLetter(letter, disk', face, prompts, swapRaises, faults);
      LetterPlanLocal(letter, before, disk, face, prompts, swapRaises);
      assert (runs + [run])[..i] == runs;
      runs := runs + [run];
      SameInputsStep(i, before, disk, run, faults);
    }
    PlanOfRuns(runs, disk, face, prompts, swapRaises);
  }

  /** From letter `i` on, the two disks agree on every frame and every video. */
  ghost predicate SameInputsFrom(i: int, d1: set<string>, d2: set<string>) {
    forall j :: 0 <= j < 26 && i <= j ==>
      && (FramePath(Alphabet()[j]) in d1 <==> FramePath(Alphabet()[j]) in d2)
      && (VideoPath(Alphabet()[j]) in d1 <==> VideoPath(Alphabet()[j]) in d2)
  }

  /** Letter `i`'s writes leave the inputs of the later letters alone. */
  lemma SameInputsStep(i: int, d1: set<string>, d2: set<string>, run: LetterRun, faults: map<char, Fault>)
    requires 0 <= i < 26 && SameInputsFrom(i, d1, d2)
    requires run.letter == Alphabet()[i]
    requires run.Swapped? ==> run.image == SwappedPath(run.letter)
    ensures SameInputsFrom(i + 1, d1 + LetterWrites(run, faults), d2)
  {
    forall j | i + 1 <= j < 26
      ensures FramePath(Alphabet()[j]) !in LetterWrites(run, faults)
      ensures VideoPath(Alphabet()[j]) !in LetterWrites(run, faults)
    {
      WritesStayWithLetter(i, j, run, faults);
    }
  }

  /** A letter's run writes nothing that another letter's decision reads. */
  lemma WritesStayWithLetter(i: int, j: int, run: LetterRun, faults: map<char, Fault>)
    requires 0 <= i < 26 && 0 <= j < 26 && i != j
    requires run.letter == Alphabet()[i]
    requires run.Swapped? ==> run.image == SwappedPath(run.letter)
    ensures FramePath(Alphabet()[j]) !in LetterWrites(run, faults)
    ensures VideoPath(Alphabet()[j]) !in LetterWrites(run, faults)
  {
    AlphabetDistinct(i, j);
    AlphabetDistinct(j, i);
    PathsDistinct(Alphabet()[j], Alphabet()[i]);
    PathsDistinct(Alphabet()[i], Alphabet()[j]);
  }

  lemma PlanOfRuns(runs: seq<LetterRun>, disk: set<string>, face: string, prompts: map<string, string>, swapRaises: set<char>)
    requires |runs| == 26
    requires forall k :: 0 <= k < 26 ==> runs[k] == LetterPlan(Alphabet()[k], disk, face, prompts, swapRaises)
    ensures runs == Plan(disk, face, prompts, swapRaises)
  {
  }

  // ---------------------------------------------------------------------
  // What a run leaves on disk, and what a second run then does.

  /** Runs as the plan makes them: letter `k` of the alphabet at position `k`,
      swapped images at the letter's own path. */
  ghost predicate Lettered(runs: seq<LetterRun>) {
    |runs| <= 26
    && forall k :: 0 <= k < |runs| ==>
         runs[k].letter == Alphabet()[k] && (runs[k].Swapped? ==> runs[k].image == SwappedPath(Alphabet()[k]))
  }

  lemma PlanLettered(disk: set<string>, face: string, prompts: map<string, string>, swapRaises: set<char>)
    ensures Lettered(Plan(disk, face, prompts, swapRaises))
  {
  }

  /** A run writes a letter's video exactly when that letter's video was
      requested and did not fail before the file was opened. */
  lemma {:induction false} VideoWritten(runs: seq<LetterRun>, faults: map<char, Fault>, n: nat, i: int)
    requires Lettered(runs) && n <= |runs| && 0 <= i < 26
    ensures VideoPath(Alphabet()[i]) in Writes(runs[..n], faults) <==>
      i < n && runs[i].Swapped? && runs[i].video == Requested && LeavesVideo(Alphabet()[i], faults)
  {
    if n > 0 {
      assert runs[..n][..n - 1] == runs[..n - 1];
      assert Writes(runs[..n], faults) == Writes(runs[..n - 1], faults) + LetterWrites(runs[n - 1], faults);
      VideoWritten(runs, faults, n - 1, i);
      AlphabetDistinct(i, n - 1);
      VideoWrittenBy(Alphabet()[i], runs[n - 1], faults);
    }
  }

  /** A single run writes a letter's video exactly when it is that letter's
      run and its video was requested and not lost before the file opened. */
  lemma VideoWrittenBy(letter: char, run: LetterRun, faults: map<char, Fault>)
    requires letter != '/' && run.letter != '/'
    requires run.Swapped? ==> run.image == SwappedPath(run.letter)
    ensures VideoPath(letter) in LetterWrites(run, faults) <==>
      run.letter == letter && run.Swapped? && run.video == Requested && LeavesVideo(letter, faults)
  {
    PathsDistinct(run.letter, letter);
    PathsDistinct(letter, run.letter);
  }

  /** No run ever writes a frame. */
  lemma {:induction false} FrameNeverWritten(runs: seq<LetterRun>, faults: map<char, Fault>, n: nat, i: int)
    requires Lettered(runs) && n <= |runs| && 0 <= i < 26
    ensures FramePath(Alphabet()[i]) !in Writes(runs[..n], faults)
  {
    if n > 0 {
      assert runs[..n][..n - 1] == runs[..n - 1];
      FrameNeverWritten(runs, faults, n - 1, i);
      AlphabetDistinct(n - 1, i);
      AlphabetDistinct(i, n - 1);
      FrameNotWrittenBy(Alphabet()[i], runs[n - 1], faults);
    }
  }

  /** No single run writes a frame. */
  lemma FrameNotWrittenBy(letter: char, run: LetterRun, faults: map<char, Fault>)
    requires letter != '/' && run.letter != '/'
    requires run.Swapped? ==> run.image == SwappedPath(run.letter)
    ensures FramePath(letter) !in LetterWrites(run, faults)
  {
    PathsDistinct(letter, run.letter);
  }

  /** Idempotence: with every video already on disk, the loop requests none. */
  lemma NothingRequestedWhenAllVideosExist(disk: set<string>, face: string, prompts: map<string, string>, swapRaises: set<char>)
    requires forall i :: 0 <= i < 26 ==> VideoPath(Alphabet()[i]) in disk
    ensures forall i :: 0 <= i < 26 ==> Plan(disk, face, prompts, swapRaises)[i].Swapped? ==>
      Plan(disk, face, prompts, swapRaises)[i].video == OutputExists
  {
  }

  /** A second run on the disk the first one left requests a video only for a
      letter whose swap raised, or whose video request failed before its file
      was opened, in the first run. */
  lemma RerunRequestsOnlyFailedLetters(disk: set<string>, face: string, prompts: map<string, string>,
                                       swapRaises1: set<char>, faults1: map<char, Fault>,
                                       swapRaises2: set<char>, i: int)
    requires 0 <= i < 26
    ensures
      var first := Plan(disk, face, prompts, swapRaises1);
      var second := Plan(disk + Writes(first, faults1), face, prompts, swapRaises2);
      second[i].Swapped? && second[i].video == Requested ==>
        Alphabet()[i] in swapRaises1 || (Alphabet()[i] in faults1 && faults1[Alphabet()[i]] == BeforeOpen)
  {
    var first := Plan(disk, face, prompts, swapRaises1);
    var disk1 := disk + Writes(first, faults1);
    PlanLettered(disk, face, prompts, swapRaises1);
    assert first[..26] == first;
    FrameNeverWritten(first, faults1, 26, i);
    VideoWritten(first, faults1, 26, i);
  }

  /** A letter whose video write raised after the output file was opened is
      never requested again: the file left behind makes every later run skip
      the video step. */
  lemma InterruptedWriteIsNeverRetried(disk: set<string>, face: string, prompts: map<string, string>,
                                       swapRaises1: set<char>, faults1: map<char, Fault>,
                                       swapRaises2: set<char>, i: int)
    requires 0 <= i < 26
    requires Plan(disk, face, prompts, swapRaises1)[i].Swapped?
    requires Plan(disk, face, prompts, swapRaises1)[i].video == Requested
    requires Alphabet()[i] in faults1 && faults1[Alphabet()[i]] == WhileWriting
    ensures
      var second := Plan(disk + Writes(Plan(disk, face, prompts, swapRaises1), faults1), face, prompts, swapRaises2);
      second[i].Swapped? ==> second[i].video == OutputExists
  {
    RerunRequestsOnlyFailedLetters(disk, face, prompts, swapRaises1, faults1, swapRaises2, i);
  }

  // ---------------------------------------------------------------------
  // The whole program.

  /** How `main` ends: it exits because there is no face image, it is still
      waiting for an acceptable face choice, or it has run the loop. */
  datatype Outcome =
    | Exited
    | WaitingForFace
    | Finished(face: string, attempt: nat, prompts: map<string, string>, runs: seq<LetterRun>, disk: set<string>)

  /** The directories `main` creates first. */
  const WorkDirs: set<string> := {"output", "TEMP_FRAMES"}

  /** `main`: create the work directories, select the face, load the prompts
      (`None` for a missing `PROMPTS VEO.DOCX`), then run the A-Z loop. */
  method RunAutomation(disk: set<string>, faceListing: seq<string>, answers: seq<string>,
                       document: Option<seq<string>>, swapRaises: set<char>, faults: map<char, Fault>)
    returns (r: Outcome)
    ensures r == Exited <==> FaceListing(faceListing) == []
    ensures r == WaitingForFace ==>
      forall k :: 0 <= k < |answers| ==> FaceCandidate(answers[k]) !in disk + WorkDirs
    ensures r.Finished? ==>
      && r.attempt < |answers|
      && r.face == FaceCandidate(answers[r.attempt])
      && r.face in disk + WorkDirs
      && (forall k :: 0 <= k < r.attempt ==> FaceCandidate(answers[k]) !in disk + WorkDirs)
      && r.prompts == (if document.None? then map[] else Load(document.value))
      && r.runs == Plan(disk + WorkDirs, r.face, r.prompts, swapRaises)
      && r.disk == disk + WorkDirs + Writes(r.runs, faults)
  {
    var dirs := disk + WorkDirs;
    var selection := SelectFace(faceListing, dirs, answers);
    if selection == NoFaces {
      return Exited;
    }
    if selection == StillAsking {
      return WaitingForFace;
    }
    var facePath := selection.path;
    var promptsMap := LoadPrompts(document);
    var runs, disk' := ProcessLetters(dirs, facePath, promptsMap, swapRaises, faults);
    return Finished(facePath, selection.attempt, promptsMap, runs, disk');
  }

  /** Letter A with its frame and prompt present and its video absent: the
      swap gets the frame and the face, the video request gets the swapped
      image and the prompt. */
  lemma ScenarioPlanA(disk: set<string>, face: string)
    requires FramePath('A') in disk && VideoPath('A') !in disk
    ensures Plan(disk, face, map["A" := "Fly over mountains"], {})[0] ==
      Swapped('A', FramePath('A'), face, SwappedPath('A'), "Fly over mountains", Requested)
  {
    var prompts := map["A" := "Fly over mountains"];
    assert Alphabet()[0] == 'A';
    assert Plan(disk, face, prompts, {})[0] == LetterPlan('A', disk, face, prompts, {});
    assert ['A'] == "A";
    assert HasPrompt(prompts, 'A') && prompts[['A']] == "Fly over mountains";
  }

  /** One letter end to end: the document of the paragraphs `VEO PROMPT - A`
      and "Fly over mountains", the typed choice "2" (the face
      `FACE_SOURCE/2rosto.png`), the frame `FRAME/A.webp` present and the
      video `output/video_A.mp4` absent. After the run the video exists. */
  lemma ScenarioLetterA(disk: set<string>, doc: seq<string>)
    requires FramePath('A') in disk && VideoPath('A') !in disk
    requires doc == [HeaderPrefix + "A", "Fly over mountains"]
    ensures
      var face := FaceCandidate("2");
      var runs := Plan(disk, face, Load(doc), {});
      && face == "FACE_SOURCE/2rosto.png"
      && runs[0] == Swapped('A', FramePath('A'), face, SwappedPath('A'), "Fly over mountains", Requested)
      && VideoPath('A') in disk + Writes(runs, map[])
  {
    var face := FaceCandidate("2");
    FaceCandidateRelative("2");
    assert face == "FACE_SOURCE/2rosto.png";
    LoadDocumentExample(doc);
    var prompts := Load(doc);
    var runs := Plan(disk, face, prompts, {});
    ScenarioPlanA(disk, face);
    PlanLettered(disk, face, prompts, {});
    assert runs[..26] == runs;
    assert Alphabet()[0] == 'A';
    VideoWritten(runs, map[], 26, 0);
  }
}
