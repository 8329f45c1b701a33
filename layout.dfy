/**
 * The file-system conventions of the automation: `os.path.join` and the four
 * per-letter or per-choice paths built from it.
 */
module Layout {
  import opened Text

  /** A POSIX absolute path: it starts with '/'. */
  predicate IsAbsolute(name: string) {
    |name| > 0 && name[0] == '/'
  }

  /** `os.path.join(dir, name)` on POSIX: an absolute `name` replaces `dir`;
      otherwise a '/' is inserted unless `dir` is empty or already ends in one. */
  function Join(dir: string, name: string): (r: string)
    ensures IsAbsolute(name) ==> r == name
    ensures !IsAbsolute(name) && dir != [] && dir[|dir| - 1] != '/' ==> r == dir + "/" + name
    ensures EndsWith(r, name)
  {
    if IsAbsolute(name) then name
    else if dir == [] || dir[|dir| - 1] == '/' then dir + name
    else dir + "/" + name
  }

  /** `FRAME/<L>.webp`, the source frame of one letter. */
  function FramePath(letter: char): (p: string)
    ensures EndsWith(p, [letter] + ".webp")
  {
    Join("FRAME", [letter] + ".webp")
  }

  /** `TEMP_FRAMES/<L>_swapped.png`, where the swap step leaves its image. */
  function SwappedPath(letter: char): (p: string)
    ensures EndsWith(p, [letter] + "_swapped.png")
  {
    Join("TEMP_FRAMES", [letter] + "_swapped.png")
  }

  /** `output/video_<L>.mp4`, the finished video of one letter. */
  function VideoPath(letter: char): (p: string)
    ensures EndsWith(p, "video_" + [letter] + ".mp4")
  {
    Join("output", "video_" + [letter] + ".mp4")
  }

  /** `os.path.join("FACE_SOURCE", f"{choice}rosto.png")`. */
  function FaceCandidate(choice: string): (p: string)
    ensures EndsWith(p, choice + "rosto.png")
  {
    Join("FACE_SOURCE", choice + "rosto.png")
  }

  /** A letter other than '/' gives the plain relative paths of the layout. */
  lemma LetterPaths(letter: char)
    requires letter != '/'
    ensures FramePath(letter) == "FRAME/" + [letter] + ".webp"
    ensures SwappedPath(letter) == "TEMP_FRAMES/" + [letter] + "_swapped.png"
    ensures VideoPath(letter) == "output/video_" + [letter] + ".mp4"
  {
  }

  /** Each letter has artifacts of its own: no two letters share a path, and
      frames, swapped images and videos never share a path either. This is
      what lets the A-Z loop run without any coordination between letters. */
  lemma {:induction false} PathsDistinct(a: char, b: char)
    requires a != '/' && b != '/'
    ensures FramePath(a) != SwappedPath(b)
    ensures FramePath(a) != VideoPath(b)
    ensures SwappedPath(a) != VideoPath(b)
    ensures a != b ==> FramePath(a) != FramePath(b)
    ensures a != b ==> SwappedPath(a) != SwappedPath(b)
    ensures a != b ==> VideoPath(a) != VideoPath(b)
  {
    LetterPaths(a);
    LetterPaths(b);
    assert FramePath(a)[0] == 'F' && SwappedPath(b)[0] == 'T' && VideoPath(b)[0] == 'o';
    assert SwappedPath(a)[0] == 'T';
    if a != b {
      assert FramePath(a)[6] == a && FramePath(b)[6] == b;
      assert SwappedPath(a)[12] == a && SwappedPath(b)[12] == b;
      assert VideoPath(a)[13] == a && VideoPath(b)[13] == b;
    }
  }

  /** The typed choice is the name's prefix: input "3" with "3rosto.png"
      resolves to `FACE_SOURCE/3rosto.png`. */
  lemma FaceCandidateRelative(choice: string)
    requires !IsAbsolute(choice)
    ensures FaceCandidate(choice) == "FACE_SOURCE/" + choice + "rosto.png"
  {
    var name := choice + "rosto.png";
    assert name[0] == if |choice| > 0 then choice[0] else 'r';
    assert !IsAbsolute(name);
  }
}
