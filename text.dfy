/**
 * The few Python string operations the scanner and the path logic use:
 * `str.strip()`, `str.upper()`, `str.startswith`, `str.endswith` and
 * `str.split("-")[-1]`, restricted to ASCII text.
 */
module Text {

  /** Python's `str.isspace` on ASCII: tab, line feed, vertical tab, form feed,
      carriage return (9-13), the four separators 28-31 and the space (32). */
  predicate IsSpace(c: char) {
    var n := c as int;
    (9 <= n <= 13) || (28 <= n <= 32)
  }

  /** The number of whitespace characters `s` starts with. */
  function LeadingSpaces(s: string): (n: nat)
    ensures n <= |s|
  {
    if s != [] && IsSpace(s[0]) then 1 + LeadingSpaces(s[1..]) else 0
  }

  /** The leading run is all whitespace and stops at the first other
      character. */
  lemma {:induction false} LeadingSpacesSpec(s: string)
    ensures forall k :: 0 <= k < LeadingSpaces(s) ==> IsSpace(s[k])
    ensures LeadingSpaces(s) < |s| ==> !IsSpace(s[LeadingSpaces(s)])
  {
    if s != [] && IsSpace(s[0]) {
      var t := s[1..];
      LeadingSpacesSpec(t);
      var n := LeadingSpaces(s);
      forall k | 0 < k < n
        ensures IsSpace(s[k])
      {
        assert IsSpace(t[k - 1]);
      }
      if n < |s| {
        assert s[n] == t[n - 1];
      }
    }
  }

  /** Removes leading whitespace. */
  function TrimStart(s: string): string {
    s[LeadingSpaces(s)..]
  }

  /** Where the trailing whitespace of `s` begins. */
  function TrailingStart(s: string): (n: nat)
    ensures n <= |s|
  {
    if s != [] && IsSpace(s[|s| - 1]) then TrailingStart(s[..|s| - 1]) else |s|
  }

  /** The trailing run is all whitespace and is preceded by another
      character. */
  lemma {:induction false} TrailingStartSpec(s: string)
    ensures forall k :: TrailingStart(s) <= k < |s| ==> IsSpace(s[k])
    ensures TrailingStart(s) > 0 ==> !IsSpace(s[TrailingStart(s) - 1])
  {
    if s != [] && IsSpace(s[|s| - 1]) {
      var t := s[..|s| - 1];
      TrailingStartSpec(t);
      var n := TrailingStart(s);
      forall k | n <= k < |s| - 1
        ensures IsSpace(s[k])
      {
        assert IsSpace(t[k]);
      }
      if n > 0 {
        assert s[n - 1] == t[n - 1];
      }
    }
  }

  /** Removes trailing whitespace. */
  function TrimEnd(s: string): string {
    s[..TrailingStart(s)]
  }

  /** `s.strip()`: the longest middle part of `s` that neither starts nor ends
      with whitespace; everything cut off on either side is whitespace. */
  function Trim(s: string): (r: string)
  {
    TrimEnd(TrimStart(s))
  }

  /** A trimmed string has no whitespace at either end. */
  predicate IsTrimmed(s: string) {
    s == [] || (!IsSpace(s[0]) && !IsSpace(s[|s| - 1]))
  }

  /** Stripping leaves no whitespace at either end and keeps only characters
      of the original string. */
  lemma TrimShape(s: string)
    ensures IsTrimmed(Trim(s))
    ensures |Trim(s)| <= |s|
    ensures forall c :: c in Trim(s) ==> c in s
  {
    var t := TrimStart(s);
    LeadingSpacesSpec(s);
    TrailingStartSpec(t);
    var r := TrimEnd(t);
    if r != [] {
      assert r[0] == t[0] == s[LeadingSpaces(s)];
    }
    forall c | c in r ensures c in s {
      var k :| 0 <= k < |r| && r[k] == c;
      assert s[LeadingSpaces(s) + k] == c;
    }
  }

  /** Stripping twice is stripping once. */
  lemma TrimIdempotent(s: string)
    ensures Trim(Trim(s)) == Trim(s)
  {
    TrimShape(s);
    TrimOfTrimmed(Trim(s));
  }

  /** A string with no whitespace at either end is its own strip. */
  lemma TrimOfTrimmed(s: string)
    requires IsTrimmed(s)
    ensures Trim(s) == s
  {
    assert LeadingSpaces(s) == 0;
    assert TrailingStart(s) == |s|;
  }

  /** One space before trimmed text is stripped off again. */
  lemma TrimSpaceThen(v: string)
    requires IsTrimmed(v)
    ensures Trim([' '] + v) == v
  {
    var s := [' '] + v;
    assert s[1..] == v;
    assert LeadingSpaces(v) == 0;
    assert LeadingSpaces(s) == 1;
    assert TrailingStart(v) == |v|;
  }

  /** `c.upper()` for ASCII: a-z become A-Z, every other character is kept. */
  function UpperChar(c: char): (r: char)
    ensures 'a' <= c <= 'z' ==> r as int == c as int - 32
    ensures !('a' <= c <= 'z') ==> r == c
  {
    if 'a' <= c <= 'z' then (c as int - 32) as char else c
  }

  /** `s.upper()` for ASCII text, character by character. */
  function Upper(s: string): (r: string)
    ensures |r| == |s|
    ensures forall k :: 0 <= k < |s| ==> r[k] == UpperChar(s[k])
  {
    seq(|s|, k requires 0 <= k < |s| => UpperChar(s[k]))
  }

  /** An upper-cased string has no lower-case letter, and upper-casing keeps
      whitespace and every '-' exactly where they were. */
  lemma UpperShape(s: string)
    ensures forall c :: c in Upper(s) ==> !('a' <= c <= 'z')
    ensures '-' in Upper(s) <==> '-' in s
    ensures IsTrimmed(s) ==> IsTrimmed(Upper(s))
  {
    var u := Upper(s);
    forall c | c in u
      ensures !('a' <= c <= 'z')
    {
      var k :| 0 <= k < |u| && u[k] == c;
    }
    if '-' in u {
      var k :| 0 <= k < |u| && u[k] == '-';
      assert s[k] == '-';
    }
    if '-' in s {
      var k :| 0 <= k < |s| && s[k] == '-';
      assert u[k] == '-';
    }
  }

  /** Text without lower-case letters is its own upper-casing. */
  lemma UpperOfCaps(s: string)
    requires forall c :: c in s ==> !('a' <= c <= 'z')
    ensures Upper(s) == s
  {
    forall k | 0 <= k < |s|
      ensures Upper(s)[k] == s[k]
    {
      assert s[k] in s;
    }
  }

  /** `s.startswith(p)`. */
  predicate StartsWith(s: string, p: string) {
    |p| <= |s| && s[..|p|] == p
  }

  /** `s.endswith(p)`. */
  predicate EndsWith(s: string, p: string) {
    |p| <= |s| && s[|s| - |p|..] == p
  }

  /** Where the last `c`-separated piece of `s` begins: just after the last
      `c`, or at 0 when there is none. */
  function LastPieceStart(s: string, c: char): (n: nat)
    ensures n <= |s|
  {
    if s == [] then 0
    else if s[|s| - 1] == c then |s|
    else LastPieceStart(s[..|s| - 1], c)
  }

  /** The last piece holds no `c`, and a `c` stands right before it unless it
      is all of `s`. */
  lemma {:induction false} LastPieceStartSpec(s: string, c: char)
    ensures forall k :: LastPieceStart(s, c) <= k < |s| ==> s[k] != c
    ensures LastPieceStart(s, c) > 0 ==> s[LastPieceStart(s, c) - 1] == c
  {
    if s != [] && s[|s| - 1] != c {
      var t := s[..|s| - 1];
      LastPieceStartSpec(t, c);
      var n := LastPieceStart(s, c);
      forall k | n <= k < |s| - 1
        ensures s[k] != c
      {
        assert t[k] != c;
      }
      if n > 0 {
        assert s[n - 1] == t[n - 1];
      }
    }
  }

  /** `s.split(c)[-1]`: the part of `s` after the last `c`, or all of `s` when
      `c` does not occur. */
  function AfterLast(s: string, c: char): (r: string)
    ensures c !in r
  {
    LastPieceStartSpec(s, c);
    s[LastPieceStart(s, c)..]
  }

  /** The last separator wins: whatever precedes the last `c` is irrelevant. */
  lemma AfterLastOfJoin(u: string, c: char, v: string)
    requires c !in v
    ensures AfterLast(u + [c] + v, c) == v
  {
    LastPieceOfJoin(u, c, v);
  }

  lemma {:induction false} LastPieceOfJoin(u: string, c: char, v: string)
    requires c !in v
    ensures LastPieceStart(u + [c] + v, c) == |u| + 1
  {
    if v != [] {
      var w := u + [c] + v;
      assert w[..|w| - 1] == u + [c] + v[..|v| - 1];
      LastPieceOfJoin(u, c, v[..|v| - 1]);
    }
  }
}
