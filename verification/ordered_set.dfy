/** Insertion-ordered sets, the model of a JavaScript `Set` and of the
    property order of a JavaScript object: a sequence without repetitions in
    which a new element goes to the end and a present one keeps its place.
    Property names are strings in JavaScript, so the elements are strings. */
module OrderedSet {

  /** No element occurs twice. */
  predicate Distinct(s: seq<string>) {
    forall i, j :: 0 <= i < j < |s| ==> s[i] != s[j]
  }

  /** `Set.prototype.add`: appends `x` unless it is already present. */
  function Add(s: seq<string>, x: string): (r: seq<string>)
    ensures forall y :: y in r <==> y in s || y == x
    ensures Distinct(s) ==> Distinct(r)
    ensures |s| <= |r| && r[..|s|] == s
  {
    if x in s then s else s + [x]
  }

  /** Adding an element twice is adding it once. */
  lemma AddTwice(s: seq<string>, x: string)
    ensures Add(Add(s, x), x) == Add(s, x)
  {
    assert x in Add(s, x);
  }

  /** Dropping the last element of a sequence without repetitions leaves one
      without repetitions that does not contain that element. */
  lemma DistinctLast(s: seq<string>)
    requires |s| > 0
    ensures Distinct(s) ==> Distinct(s[..|s| - 1]) && s[|s| - 1] !in s[..|s| - 1]
  {
    var p := s[..|s| - 1];
    if Distinct(s) {
      forall i | 0 <= i < |p| ensures p[i] != s[|s| - 1] {
        assert p[i] == s[i];
      }
    }
  }

  /** Adds the elements of `xs` one after the other, in order. */
  function AddAll(s: seq<string>, xs: seq<string>): (r: seq<string>)
    ensures forall y :: y in r <==> y in s || y in xs
    ensures Distinct(s) ==> Distinct(r)
    ensures |s| <= |r| && r[..|s|] == s
    decreases |xs|
  {
    if |xs| == 0 then s else Add(AddAll(s, xs[..|xs| - 1]), xs[|xs| - 1])
  }

  /** The elements of `xs` in first-occurrence order, each once. */
  function Dedup(xs: seq<string>): (r: seq<string>)
    ensures Distinct(r)
    ensures forall y :: y in r <==> y in xs
  {
    AddAll([], xs)
  }

  /** Adding `xs` and then `ys` is adding their concatenation. */
  lemma {:induction false} AddAllConcat(s: seq<string>, xs: seq<string>, ys: seq<string>)
    ensures AddAll(s, xs + ys) == AddAll(AddAll(s, xs), ys)
    decreases |ys|
  {
    if |ys| == 0 {
      assert xs + ys == xs;
    } else {
      assert (xs + ys)[..|xs + ys| - 1] == xs + ys[..|ys| - 1];
      AddAllConcat(s, xs, ys[..|ys| - 1]);
    }
  }

  /** Fresh, pairwise different elements are appended as they come. */
  lemma {:induction false} AddAllFresh(s: seq<string>, xs: seq<string>)
    requires Distinct(s + xs)
    ensures AddAll(s, xs) == s + xs
    decreases |xs|
  {
    if |xs| != 0 {
      var p := xs[..|xs| - 1];
      assert s + xs == (s + p) + [xs[|xs| - 1]];
      assert Distinct(s + p) by {
        forall i, j | 0 <= i < j < |s + p| ensures (s + p)[i] != (s + p)[j] {
          assert (s + p)[i] == (s + xs)[i] && (s + p)[j] == (s + xs)[j];
        }
      }
      AddAllFresh(s, p);
      var x := xs[|xs| - 1];
      assert x !in s + p by {
        assert (s + xs)[|s + xs| - 1] == x;
        forall i | 0 <= i < |s + p| ensures (s + p)[i] != x {
          assert (s + p)[i] == (s + xs)[i];
        }
      }
    }
  }

  /** Elements that are all present already change nothing. */
  lemma {:induction false} AddAllPresent(s: seq<string>, xs: seq<string>)
    requires forall x :: x in xs ==> x in s
    ensures AddAll(s, xs) == s
    decreases |xs|
  {
    if |xs| != 0 {
      assert xs[|xs| - 1] in xs;
      forall x | x in xs[..|xs| - 1] ensures x in s {
        assert x in xs;
      }
      AddAllPresent(s, xs[..|xs| - 1]);
    }
  }

  /** A sequence without repetitions is its own deduplication. */
  lemma DedupDistinct(xs: seq<string>)
    requires Distinct(xs)
    ensures Dedup(xs) == xs
  {
    assert [] + xs == xs;
    AddAllFresh([], xs);
  }
}
