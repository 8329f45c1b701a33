/**
 * Face selection (`selecionar_rosto`): list the image files of `FACE_SOURCE`
 * in sorted order, stop at once when there are none, and otherwise read
 * choices until `FACE_SOURCE/<choice>rosto.png` exists.
 */
module FaceSelector {
  import opened Text
  import opened Layout

  /** `f.endswith(('.png', '.jpg'))`: case-sensitive. */
  predicate IsImageName(name: string) {
    EndsWith(name, ".png") || EndsWith(name, ".jpg")
  }

  /** The listing filter: keeps, in order, the names that end in `.png` or `.jpg`. */
  function ImageNames(names: seq<string>): (r: seq<string>)
    ensures forall x :: multiset(r)[x] == if IsImageName(x) then multiset(names)[x] else 0
    ensures forall x :: x in r ==> IsImageName(x)
  {
    if names == [] then []
    else
      assert names == [names[0]] + names[1..];
      (if IsImageName(names[0]) then [names[0]] else []) + ImageNames(names[1..])
  }

  /** Python's `a <= b` on strings: lexicographic by code point, a prefix
      before any longer string. */
  predicate LexLeq(a: string, b: string) {
    a == [] || (b != [] && (a[0] < b[0] || (a[0] == b[0] && LexLeq(a[1..], b[1..]))))
  }

  lemma {:induction false} LexTotal(a: string, b: string)
    ensures LexLeq(a, b) || LexLeq(b, a)
  {
    if a != [] && b != [] && a[0] == b[0] {
      LexTotal(a[1..], b[1..]);
    }
  }

  lemma {:induction false} LexTransitive(a: string, b: string, c: string)
    requires LexLeq(a, b) && LexLeq(b, c)
    ensures LexLeq(a, c)
  {
    if a != [] && a[0] == b[0] && b[0] == c[0] {
      LexTransitive(a[1..], b[1..], c[1..]);
    }
  }

  /** `a <= b` and `b <= a` only for equal strings. */
  lemma {:induction false} LexAntisymmetric(a: string, b: string)
    requires LexLeq(a, b) && LexLeq(b, a)
    ensures a == b
  {
    if a != [] {
      LexAntisymmetric(a[1..], b[1..]);
      assert a == [a[0]] + a[1..] && b == [b[0]] + b[1..];
    }
  }

  predicate Sorted(s: seq<string>) {
    forall i, j :: 0 <= i < j < |s| ==> LexLeq(s[i], s[j])
  }

  /** Inserts `x` before the first element it does not exceed. */
  function Insert(x: string, s: seq<string>): seq<string> {
    if s == [] then [x]
    else if LexLeq(x, s[0]) then [x] + s
    else [s[0]] + Insert(x, s[1..])
  }

  lemma {:induction false} InsertPermutes(x: string, s: seq<string>)
    ensures multiset(Insert(x, s)) == multiset(s) + multiset{x}
  {
    if s != [] && !LexLeq(x, s[0]) {
      InsertPermutes(x, s[1..]);
      assert s == [s[0]] + s[1..];
    }
  }

  /** A string no greater than the head of a sorted sequence may go first. */
  lemma PrependSorted(x: string, s: seq<string>)
    requires Sorted(s) && (s != [] ==> LexLeq(x, s[0]))
    ensures Sorted([x] + s)
  {
    var r := [x] + s;
    forall i, j | 0 <= i < j < |r|
      ensures LexLeq(r[i], r[j])
    {
      if i == 0 && j > 1 {
        LexTransitive(x, s[0], s[j - 1]);
      }
    }
  }

  lemma {:induction false} InsertSpec(x: string, s: seq<string>)
    requires Sorted(s)
    ensures Sorted(Insert(x, s))
    ensures multiset(Insert(x, s)) == multiset(s) + multiset{x}
  {
    InsertPermutes(x, s);
    if s == [] {
    } else if LexLeq(x, s[0]) {
      PrependSorted(x, s);
    } else {
      var t := Insert(x, s[1..]);
      InsertSpec(x, s[1..]);
      LexTotal(x, s[0]);
      forall k | 0 <= k < |t|
        ensures LexLeq(s[0], t[k])
      {
        assert t[k] in multiset(t);
        if t[k] != x {
          assert t[k] in multiset(s[1..]);
          var m :| 0 <= m < |s[1..]| && s[1..][m] == t[k];
          assert s[m + 1] == t[k];
        }
      }
      PrependSorted(s[0], t);
    }
  }

  /** `sorted(names)`, by insertion. */
  function Sort(s: seq<string>): seq<string> {
    if s == [] then [] else Insert(s[0], Sort(s[1..]))
  }

  /** Sorting yields an ordered permutation of its input. */
  lemma {:induction false} SortSpec(s: seq<string>)
    ensures Sorted(Sort(s))
    ensures multiset(Sort(s)) == multiset(s)
  {
    if s != [] {
      SortSpec(s[1..]);
      InsertSpec(s[0], Sort(s[1..]));
      assert s == [s[0]] + s[1..];
    }
  }

  /** The head of an ascending sequence is no greater than any of its elements. */
  lemma SortedHeadIsLeast(a: seq<string>, x: string)
    requires Sorted(a) && x in multiset(a)
    ensures LexLeq(a[0], x)
  {
    var m :| 0 <= m < |a| && a[m] == x;
    if m == 0 {
      LexTotal(x, x);
    }
  }

  lemma TailMultiset(a: seq<string>)
    requires a != []
    ensures multiset(a[1..]) == multiset(a) - multiset{a[0]}
  {
    assert a == [a[0]] + a[1..];
  }

  /** Two ascending orderings of the same names are the same sequence. */
  lemma {:induction false} SortedUnique(a: seq<string>, b: seq<string>)
    requires Sorted(a) && Sorted(b) && multiset(a) == multiset(b)
    ensures a == b
  {
    if a == [] {
      assert |b| == |multiset(b)| == 0;
    } else {
      assert a[0] in multiset(b);
      assert b != [];
      SortedHeadIsLeast(a, b[0]);
      SortedHeadIsLeast(b, a[0]);
      LexAntisymmetric(a[0], b[0]);
      TailMultiset(a);
      TailMultiset(b);
      SortedUnique(a[1..], b[1..]);
      assert a == [a[0]] + a[1..] && b == [b[0]] + b[1..];
    }
  }

  /** `Sort` agrees with Python's `sorted`: it is the one ascending
      permutation of its input. */
  lemma SortIsTheSortedPermutation(s: seq<string>, r: seq<string>)
    requires Sorted(r) && multiset(r) == multiset(s)
    ensures Sort(s) == r
  {
    SortSpec(s);
    SortedUnique(Sort(s), r);
  }

  /** The face listing: the image names of the directory, sorted. */
  function FaceListing(names: seq<string>): seq<string> {
    Sort(ImageNames(names))
  }

  /** The listing holds every image name of the directory as often as the
      directory does, nothing else, in ascending order; it is empty exactly
      when the directory holds no image name. */
  lemma FaceListingSpec(names: seq<string>)
    ensures Sorted(FaceListing(names))
    ensures forall x :: multiset(FaceListing(names))[x] == if IsImageName(x) then multiset(names)[x] else 0
    ensures FaceListing(names) == [] <==> forall x :: x in names ==> !IsImageName(x)
  {
    SortSpec(ImageNames(names));
    var l := FaceListing(names);
    if l == [] {
      forall x | x in names
        ensures !IsImageName(x)
      {
        assert multiset(l)[x] == 0;
      }
    } else {
      assert l[0] in multiset(l);
    }
  }

  /** How face selection ends: the directory holds no image and the program
      exits, a typed choice names an existing file, or the typed choices ran
      out with none accepted (the program would go on asking). */
  datatype Selection = NoFaces | Chosen(path: string, attempt: nat) | StillAsking

  /** `selecionar_rosto`, with the directory listing, the set of existing
      paths and the successive lines typed at the prompt as inputs. */
  method SelectFace(listing: seq<string>, existing: set<string>, answers: seq<string>) returns (r: Selection)
    ensures r == NoFaces <==> FaceListing(listing) == []
    ensures r.Chosen? ==>
      && r.attempt < |answers|
      && r.path == FaceCandidate(answers[r.attempt])
      && r.path in existing
      && forall k :: 0 <= k < r.attempt ==> FaceCandidate(answers[k]) !in existing
    ensures r == StillAsking ==> forall k :: 0 <= k < |answers| ==> FaceCandidate(answers[k]) !in existing
  {
    var files := FaceListing(listing);
    if files == [] {
      return NoFaces;
    }
    var k := 0;
    while k < |answers|
      invariant 0 <= k <= |answers|
      invariant forall m :: 0 <= m < k ==> FaceCandidate(answers[m]) !in existing
    {
      var fullPath := FaceCandidate(answers[k]);
      if fullPath in existing {
        return Chosen(fullPath, k);
      }
      k := k + 1;
    }
    return StillAsking;
  }
}
