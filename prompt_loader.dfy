/**
 * The prompt-document scanner (`carregar_prompts_docx`): a two-state scan over
 * the paragraphs of the document. A header paragraph `VEO PROMPT - <L>` arms a
 * pending key; the next paragraph with text becomes that key's prompt.
 */
module PromptLoader {
  import opened Wrappers
  import opened Text

  const HeaderPrefix: string := "VEO PROMPT - "

  /** A header: the stripped, upper-cased paragraph starts with the prefix. */
  predicate IsHeader(para: string) {
    StartsWith(Upper(Trim(para)), HeaderPrefix)
  }

  /** The key a header sets: the text after its last '-', stripped and
      upper-cased. It is trimmed, holds no '-' and no lower-case letter, and may
      be empty (a header ending in '-'). */
  function HeaderKey(para: string): (k: string)
    ensures IsTrimmed(k)
    ensures '-' !in k
    ensures forall c :: c in k ==> !('a' <= c <= 'z')
  {
    var tail := AfterLast(Trim(para), '-');
    TrimShape(tail);
    UpperShape(Trim(tail));
    Upper(Trim(tail))
  }

  /** A paragraph whose stripped text is empty. */
  predicate Blank(para: string) {
    Trim(para) == []
  }

  /** A paragraph as the scan sees it: a header with the key it sets, or a
      line with its stripped text (empty for a blank paragraph). */
  datatype Token = Header(key: string) | Line(text: string)

  /** The tests the loop body makes on one paragraph. */
  function Classify(para: string): (t: Token)
    ensures t.Header? <==> IsHeader(para)
    ensures t.Header? ==> t.key == HeaderKey(para)
    ensures t.Line? ==> t.text == Trim(para) && (t.text == [] <==> Blank(para))
  {
    var text := Trim(para);
    if StartsWith(Upper(text), HeaderPrefix) then Header(HeaderKey(para)) else Line(text)
  }

  function Tokens(paras: seq<string>): (toks: seq<Token>)
    ensures |toks| == |paras|
    ensures forall i :: 0 <= i < |paras| ==> toks[i] == Classify(paras[i])
  {
    seq(|paras|, i requires 0 <= i < |paras| => Classify(paras[i]))
  }

  /** The scanner's state: the prompts found so far and `current_key`, which
      is `None` or the key of the last header (possibly the empty string). */
  datatype ScanState = ScanState(prompts: map<string, string>, currentKey: Option<string>)

  /** `current_key` is truthy: present and non-empty. */
  predicate Armed(key: Option<string>) {
    key.Some? && key.value != []
  }

  /** One iteration of the scan: a header replaces the pending key, even by an
      empty one; a line with text is stored under an armed key, which is then
      cleared; anything else changes nothing. */
  function Step(s: ScanState, tok: Token): ScanState {
    match tok
    case Header(key) => s.(currentKey := Some(key))
    case Line(text) =>
      if Armed(s.currentKey) && text != [] then ScanState(s.prompts[s.currentKey.value := text], None)
      else s
  }

  /** The state after the first `n` tokens. */
  function Run(toks: seq<Token>, n: nat): ScanState
    requires n <= |toks|
  {
    if n == 0 then ScanState(map[], None) else Step(Run(toks, n - 1), toks[n - 1])
  }

  /** The prompt map of a whole document. */
  function Load(paras: seq<string>): map<string, string> {
    Run(Tokens(paras), |paras|).prompts
  }

  /** `carregar_prompts_docx`: `None` stands for a missing document file, which
      yields an empty map; otherwise the paragraphs are scanned in order. */
  method LoadPrompts(document: Option<seq<string>>) returns (prompts: map<string, string>)
    ensures document.None? ==> prompts == map[]
    ensures document.Some? ==> prompts == Load(document.value)
  {
    if document.None? {
      return map[];
    }
    var paragraphs := document.value;
    ghost var toks := Tokens(paragraphs);
    prompts := map[];
    var currentKey: Option<string> := None;
    for i := 0 to |paragraphs|
      invariant ScanState(prompts, currentKey) == Run(toks, i)
    {
      var text := Trim(paragraphs[i]);
      if StartsWith(Upper(text), HeaderPrefix) {
        var letter := Upper(Trim(AfterLast(text, '-')));
        currentKey := Some(letter);
      } else if currentKey.Some? && currentKey.value != [] && text != [] {
        prompts := prompts[currentKey.value := text];
        currentKey := None;
      }
    }
  }

  // ---------------------------------------------------------------------
  // A declarative account of the scan, independent of its state machine.

  /** Header `i` is still waiting at position `n`: it has a non-empty key and
      every token strictly between it and `n` is a blank line. */
  ghost predicate Pending(toks: seq<Token>, i: int, n: int) {
    0 <= i < n <= |toks| && toks[i].Header? && toks[i].key != []
    && forall m :: i < m < n ==> toks[m] == Line([])
  }

  /** Token `j` is captured as the prompt of header `i`: the header is
      pending at `j` and `j` is a line with text. */
  ghost predicate Capture(toks: seq<Token>, i: int, j: int) {
    j < |toks| && Pending(toks, i, j) && toks[j].Line? && toks[j].text != []
  }

  /** Capture `(i, j)` is the last one before `n` for its key. */
  ghost predicate LastCapture(toks: seq<Token>, i: int, j: int, n: int) {
    Capture(toks, i, j) && j < n
    && forall i', j' :: Capture(toks, i', j') && j < j' < n ==> toks[i'].key != toks[i].key
  }

  /** The pending key is that of the header pending at `n`, if any. */
  ghost predicate PendingInv(toks: seq<Token>, n: nat, s: ScanState) {
    && (forall i :: Pending(toks, i, n) ==> s.currentKey == Some(toks[i].key))
    && (Armed(s.currentKey) ==> exists i :: Pending(toks, i, n))
  }

  /** Every entry was captured before `n`. */
  ghost predicate EntriesCaptured(toks: seq<Token>, n: nat, s: ScanState) {
    forall k :: k in s.prompts ==>
      exists i, j :: Capture(toks, i, j) && j < n && toks[i].key == k && s.prompts[k] == toks[j].text
  }

  /** Every capture before `n` left an entry, and the last capture of each key
      is the entry's value. */
  ghost predicate CapturesRecorded(toks: seq<Token>, n: nat, s: ScanState) {
    && (forall i, j :: Capture(toks, i, j) && j < n ==> toks[i].key in s.prompts)
    && (forall i, j :: LastCapture(toks, i, j, n) ==>
          toks[i].key in s.prompts && s.prompts[toks[i].key] == toks[j].text)
  }

  /** What the state after `n` tokens says in declarative terms. */
  ghost predicate RunInv(toks: seq<Token>, n: nat, s: ScanState) {
    PendingInv(toks, n, s) && EntriesCaptured(toks, n, s) && CapturesRecorded(toks, n, s)
  }

  lemma {:induction false} RunInvariant(toks: seq<Token>, n: nat)
    requires n <= |toks|
    ensures RunInv(toks, n, Run(toks, n))
  {
    if n > 0 {
      var m := n - 1;
      RunInvariant(toks, m);
      var s := Run(toks, m);
      StepInvariant(toks, m, s);
      assert m + 1 == n;
      assert Run(toks, n) == Step(s, toks[m]);
    } else {
      InitialInvariant(toks);
    }
  }

  /** Before the first token nothing is pending, captured or stored. */
  lemma InitialInvariant(toks: seq<Token>)
    ensures RunInv(toks, 0, ScanState(map[], None))
  {
    forall i | Pending(toks, i, 0)
      ensures false
    {
    }
  }

  lemma StepInvariant(toks: seq<Token>, n: nat, s: ScanState)
    requires n < |toks|
    requires RunInv(toks, n, s)
    ensures RunInv(toks, n + 1, Step(s, toks[n]))
  {
    if toks[n].Header? {
      HeaderStep(toks, n, s);
    } else if Armed(s.currentKey) && toks[n].text != [] {
      CaptureStep(toks, n, s);
    } else {
      IgnoredStep(toks, n, s);
    }
  }

  /** Entries captured before `n` were captured before any later bound. */
  lemma EntriesCapturedLater(toks: seq<Token>, n: nat, s: ScanState)
    requires EntriesCaptured(toks, n, s)
    ensures EntriesCaptured(toks, n + 1, s)
  {
    forall k | k in s.prompts
      ensures exists i, j :: Capture(toks, i, j) && j < n + 1 && toks[i].key == k && s.prompts[k] == toks[j].text
    {
      var i, j :| Capture(toks, i, j) && j < n && toks[i].key == k && s.prompts[k] == toks[j].text;
    }
  }

  /** When nothing is captured at `n`, the captures before `n + 1` are those
      before `n`. */
  lemma NoCaptureAt(toks: seq<Token>, n: nat, s: ScanState)
    requires forall i :: !Capture(toks, i, n)
    requires CapturesRecorded(toks, n, s)
    ensures CapturesRecorded(toks, n + 1, s)
  {
    forall i, j | Capture(toks, i, j) && j < n + 1
      ensures toks[i].key in s.prompts
    {
      assert j != n;
    }
    forall i, j | LastCapture(toks, i, j, n + 1)
      ensures toks[i].key in s.prompts && s.prompts[toks[i].key] == toks[j].text
    {
      assert j != n;
      assert LastCapture(toks, i, j, n);
    }
  }

  /** A header keeps the prompts and becomes the only pending header. */
  lemma HeaderStep(toks: seq<Token>, n: nat, s: ScanState)
    requires n < |toks| && toks[n].Header?
    requires RunInv(toks, n, s)
    ensures RunInv(toks, n + 1, Step(s, toks[n]))
  {
    var s' := Step(s, toks[n]);
    assert s'.prompts == s.prompts;
    var next := n + 1;
    forall i | 0 <= i < n
      ensures !Pending(toks, i, next)
    {
      assert toks[n] != Line([]);
    }
    if Armed(s'.currentKey) {
      assert Pending(toks, n, n + 1);
    }
    EntriesCapturedLater(toks, n, s);
    NoCaptureAt(toks, n, s);
  }

  /** A line with text under an armed key is that key's newest capture. */
  lemma CaptureStep(toks: seq<Token>, n: nat, s: ScanState)
    requires n < |toks| && toks[n].Line? && toks[n].text != []
    requires Armed(s.currentKey)
    requires RunInv(toks, n, s)
    ensures RunInv(toks, n + 1, Step(s, toks[n]))
  {
    var i0 :| Pending(toks, i0, n);
    assert Capture(toks, i0, n);
    var s' := ScanState(s.prompts[toks[i0].key := toks[n].text], None);
    assert Step(s, toks[n]) == s';
    NothingPendingAfterText(toks, n, s'.prompts);
    CaptureEntries(toks, n, i0, s);
    CaptureRecords(toks, n, i0, s);
  }

  /** A line with text ends every pending header. */
  lemma NothingPendingAfterText(toks: seq<Token>, n: nat, prompts: map<string, string>)
    requires n < |toks| && toks[n].Line? && toks[n].text != []
    ensures PendingInv(toks, n + 1, ScanState(prompts, None))
  {
    var next := n + 1;
    forall i | 0 <= i < next
      ensures !Pending(toks, i, next)
    {
      if i < n {
        assert toks[n] != Line([]);
      }
    }
  }

  lemma CaptureEntries(toks: seq<Token>, n: nat, i0: nat, s: ScanState)
    requires Capture(toks, i0, n)
    requires EntriesCaptured(toks, n, s)
    ensures EntriesCaptured(toks, n + 1, ScanState(s.prompts[toks[i0].key := toks[n].text], None))
  {
    var key := toks[i0].key;
    var s' := ScanState(s.prompts[key := toks[n].text], None);
    forall k | k in s'.prompts
      ensures exists i, j :: Capture(toks, i, j) && j < n + 1 && toks[i].key == k && s'.prompts[k] == toks[j].text
    {
      if k == key {
        assert Capture(toks, i0, n) && toks[i0].key == k && s'.prompts[k] == toks[n].text;
      } else {
        var i, j :| Capture(toks, i, j) && j < n && toks[i].key == k && s.prompts[k] == toks[j].text;
        assert s'.prompts[k] == s.prompts[k];
      }
    }
  }

  lemma CaptureRecords(toks: seq<Token>, n: nat, i0: nat, s: ScanState)
    requires Capture(toks, i0, n)
    requires PendingInv(toks, n, s)
    requires CapturesRecorded(toks, n, s)
    ensures CapturesRecorded(toks, n + 1, ScanState(s.prompts[toks[i0].key := toks[n].text], None))
  {
    var key := toks[i0].key;
    var p' := s.prompts[key := toks[n].text];
    forall i, j | Capture(toks, i, j) && j < n + 1
      ensures toks[i].key in p'
    {
      if j < n {
        assert toks[i].key in s.prompts;
      }
    }
    forall i, j | LastCapture(toks, i, j, n + 1)
      ensures toks[i].key in p' && p'[toks[i].key] == toks[j].text
    {
      if j == n {
        assert Pending(toks, i, n);
        assert s.currentKey == Some(toks[i].key) == Some(key);
      } else {
        assert LastCapture(toks, i, j, n);
        assert toks[i0].key != toks[i].key;
      }
    }
  }

  /** Any other line leaves the state as it is; only a blank one keeps a
      header pending. */
  lemma IgnoredStep(toks: seq<Token>, n: nat, s: ScanState)
    requires n < |toks| && toks[n].Line?
    requires !(Armed(s.currentKey) && toks[n].text != [])
    requires RunInv(toks, n, s)
    ensures RunInv(toks, n + 1, Step(s, toks[n]))
  {
    assert Step(s, toks[n]) == s;
    forall i | 0 <= i < n
      ensures !Capture(toks, i, n)
    {
      if Pending(toks, i, n) {
        assert Armed(s.currentKey);
      }
    }
    forall i | Pending(toks, i, n + 1)
      ensures s.currentKey == Some(toks[i].key)
    {
      assert Pending(toks, i, n);
    }
    if Armed(s.currentKey) {
      var i0 :| Pending(toks, i0, n);
      assert toks[n] == Line([]);
      assert Pending(toks, i0, n + 1);
    }
    EntriesCapturedLater(toks, n, s);
    NoCaptureAt(toks, n, s);
  }

  // ---------------------------------------------------------------------
  // The scan in terms of the document's paragraphs.

  /** A capture, read on the paragraphs: header `i` has a non-empty key, the
      paragraphs between are blank, and paragraph `j` has text and is no
      header. */
  lemma CaptureMeaning(paras: seq<string>, i: int, j: int)
    ensures Capture(Tokens(paras), i, j) <==>
      && 0 <= i < j < |paras|
      && IsHeader(paras[i]) && HeaderKey(paras[i]) != []
      && (forall m :: i < m < j ==> Blank(paras[m]))
      && !Blank(paras[j]) && !IsHeader(paras[j])
  {
    var toks := Tokens(paras);
    if 0 <= i < j < |paras| {
      forall m | i < m < j
        ensures toks[m] == Line([]) <==> Blank(paras[m])
      {
        if Blank(paras[m]) {
          assert !IsHeader(paras[m]);
        }
      }
    }
  }

  /** A header's key is read after its last '-': whatever comes before it,
      `VEO PROMPT - X - Y` has key `Y`. */
  lemma HeaderKeyAfterLastDash(para: string, u: string, v: string)
    requires Trim(para) == u + "-" + v && '-' !in v
    ensures HeaderKey(para) == Upper(Trim(v))
  {
    AfterLastOfJoin(u, '-', v);
  }

  /** Every entry of the map is the stripped text of a paragraph captured by a
      header with that key. */
  lemma {:induction false} LoadEntriesFromCaptures(paras: seq<string>, k: string)
    requires k in Load(paras)
    ensures exists i, j :: Capture(Tokens(paras), i, j) && HeaderKey(paras[i]) == k && Load(paras)[k] == Trim(paras[j])
  {
    var toks := Tokens(paras);
    RunInvariant(toks, |paras|);
    var i, j :| Capture(toks, i, j) && j < |paras| && toks[i].key == k && Load(paras)[k] == toks[j].text;
    assert HeaderKey(paras[i]) == k && Load(paras)[k] == Trim(paras[j]);
  }

  /** The last capture of a key is that key's entry: a later header with the
      same key overwrites an earlier prompt. */
  lemma {:induction false} LoadKeepsLastCapture(paras: seq<string>, i: int, j: int)
    requires Capture(Tokens(paras), i, j)
    requires forall i', j' :: Capture(Tokens(paras), i', j') && j < j' ==> HeaderKey(paras[i']) != HeaderKey(paras[i])
    ensures HeaderKey(paras[i]) in Load(paras)
    ensures Load(paras)[HeaderKey(paras[i])] == Trim(paras[j])
  {
    var toks := Tokens(paras);
    RunInvariant(toks, |paras|);
    forall i', j' | Capture(toks, i', j') && j < j' < |paras|
      ensures toks[i'].key != toks[i].key
    {
      assert HeaderKey(paras[i']) != HeaderKey(paras[i]);
    }
    assert LastCapture(toks, i, j, |paras|);
  }

  /** Every captured key is in the map. */
  lemma {:induction false} LoadHasEveryCapturedKey(paras: seq<string>, i: int, j: int)
    requires Capture(Tokens(paras), i, j)
    ensures HeaderKey(paras[i]) in Load(paras)
  {
    RunInvariant(Tokens(paras), |paras|);
  }

  /** Stored prompts are non-empty stripped text and never a header; keys are
      non-empty, stripped, upper-case and hold no '-'. */
  lemma {:induction false} LoadEntryShape(paras: seq<string>, k: string)
    requires k in Load(paras)
    ensures Load(paras)[k] != [] && IsTrimmed(Load(paras)[k]) && !IsHeader(Load(paras)[k])
    ensures k != [] && IsTrimmed(k) && '-' !in k && forall c :: c in k ==> !('a' <= c <= 'z')
  {
    LoadEntriesFromCaptures(paras, k);
    var i, j :| Capture(Tokens(paras), i, j) && HeaderKey(paras[i]) == k && Load(paras)[k] == Trim(paras[j]);
    CaptureMeaning(paras, i, j);
    TrimShape(paras[j]);
    TrimIdempotent(paras[j]);
  }

  /** A header can capture at most one paragraph. */
  lemma AtMostOneCapture(toks: seq<Token>, i: int, j: int, j': int)
    requires Capture(toks, i, j) && j < j'
    ensures !Capture(toks, i, j')
  {
    assert toks[j] != Line([]);
  }

  /** A header directly followed by another header captures nothing. */
  lemma HeaderThenHeaderDropped(paras: seq<string>, i: int, j: int)
    requires 0 <= i && i + 1 < |paras| && IsHeader(paras[i]) && IsHeader(paras[i + 1])
    ensures !Capture(Tokens(paras), i, j)
  {
    var toks := Tokens(paras);
    assert toks[i + 1] == Classify(paras[i + 1]);
    if j > i {
      NoCapturePastHeader(toks, i, i + 1, j);
    }
  }

  /** A header at `m` ends the wait of every header before it. */
  lemma NoCapturePastHeader(toks: seq<Token>, i: int, m: int, j: int)
    requires 0 <= i < m < |toks| && toks[m].Header? && m <= j
    ensures !Capture(toks, i, j)
  {
    if j > m {
      assert toks[m] != Line([]);
    }
  }

  /** A header whose key is empty disarms the scan: no later paragraph is
      captured, neither for it nor for any header before it. */
  lemma EmptyKeyDisarms(paras: seq<string>, h: int, i: int, j: int)
    requires 0 <= i < |paras| && IsHeader(paras[i]) && HeaderKey(paras[i]) == []
    requires h <= i < j
    ensures !Capture(Tokens(paras), h, j)
  {
    var toks := Tokens(paras);
    assert toks[i] == Classify(paras[i]);
    if 0 <= h < i {
      NoCapturePastHeader(toks, h, i, j);
    }
  }

  /** Text whose first character is not a 'v' or 'V' is no header. */
  lemma FirstLetterNotHeader(para: string)
    requires Trim(para) != [] && UpperChar(Trim(para)[0]) != 'V'
    ensures Classify(para) == Line(Trim(para))
  {
    var u := Upper(Trim(para));
    if |HeaderPrefix| <= |u| {
      assert u[..|HeaderPrefix|][0] == u[0] != HeaderPrefix[0];
    }
  }

  /** Writing a key after the header prefix gives it back: for every key of
      the shape `HeaderKey` produces, other than the empty one, the paragraph
      `VEO PROMPT - <key>` is a header that sets exactly that key. */
  lemma HeaderRoundTrip(v: string)
    requires v != [] && IsTrimmed(v) && '-' !in v
    requires forall c :: c in v ==> !('a' <= c <= 'z')
    ensures Classify(HeaderPrefix + v) == Header(v)
  {
    PrefixedIsHeader(v);
    PrefixedKey(v);
  }

  lemma PrefixedIsHeader(v: string)
    requires v != [] && IsTrimmed(v)
    ensures Trim(HeaderPrefix + v) == HeaderPrefix + v
    ensures IsHeader(HeaderPrefix + v)
  {
    var para := HeaderPrefix + v;
    assert para[0] == 'V' && para[|para| - 1] == v[|v| - 1];
    TrimOfTrimmed(para);
    var u := Upper(para);
    forall k | 0 <= k < |HeaderPrefix|
      ensures u[k] == HeaderPrefix[k]
    {
      assert para[k] == HeaderPrefix[k];
    }
    assert u[..|HeaderPrefix|] == HeaderPrefix;
  }

  lemma PrefixedKey(v: string)
    requires v != [] && IsTrimmed(v) && '-' !in v
    requires forall c :: c in v ==> !('a' <= c <= 'z')
    requires Trim(HeaderPrefix + v) == HeaderPrefix + v
    ensures HeaderKey(HeaderPrefix + v) == v
  {
    assert HeaderPrefix + v == "VEO PROMPT " + ['-'] + ([' '] + v);
    AfterLastOfJoin("VEO PROMPT ", '-', [' '] + v);
    TrimSpaceThen(v);
    UpperOfCaps(v);
  }

  /** The paragraph "Fly over mountains" is a plain line. */
  lemma ExampleLine()
    ensures Classify("Fly over mountains") == Line("Fly over mountains")
  {
    var t := "Fly over mountains";
    assert Trim(t) == t by {
      TrimOfTrimmed(t);
    }
    FirstLetterNotHeader(t);
  }

  /** The scan of the two-paragraph document `VEO PROMPT - A`, "Fly over
      mountains", whose tokens `HeaderRoundTrip("A")` and `ExampleLine` give:
      exactly the entry "A". */
  lemma RunExample(toks: seq<Token>)
    requires toks == [Header("A"), Line("Fly over mountains")]
    ensures Run(toks, 2).prompts == map["A" := "Fly over mountains"]
  {
    var s1 := Run(toks, 1);
    assert s1 == Step(Run(toks, 0), toks[0]);
    assert s1 == ScanState(map[], Some("A"));
    assert Run(toks, 2) == Step(s1, toks[1]);
  }

  /** The two-paragraph document itself: `Load` finds exactly the entry "A". */
  lemma LoadDocumentExample(doc: seq<string>)
    requires doc == [HeaderPrefix + "A", "Fly over mountains"]
    ensures Load(doc) == map["A" := "Fly over mountains"]
  {
    HeaderRoundTrip("A");
    ExampleLine();
    var toks := Tokens(doc);
    assert toks[0] == Classify(doc[0]) == Header("A");
    assert toks[1] == Classify(doc[1]) == Line("Fly over mountains");
    RunExample(toks);
  }
}
