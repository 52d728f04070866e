/** Sequence vocabulary the comparison pipeline is written in: optional slots,
    insertion-ordered de-duplication (what `Array.from(new Set(xs))` yields),
    order-preserving filtering, and the lemmas that relate them. */
module Seqs {

  /** A slot that may be empty: `None` stands for the `undefined`/`false`
      placeholders the JavaScript leaves in its arrays. */
  datatype Option<T> = None | Some(value: T)

  /** No element occurs twice. */
  predicate NoDup<T(==,!new)>(s: seq<T>) {
    forall i, j :: 0 <= i < j < |s| ==> s[i] != s[j]
  }

  /** The elements of a sequence as a set: `new Set(xs)` used only for `has`.
      The ensures spells out membership so that callers see it without
      unfolding the comprehension. */
  function SetOf<T(==,!new)>(s: seq<T>): (r: set<T>)
    ensures forall x :: x in r <==> x in s
  {
    set x | x in s
  }

  /** Position of the first occurrence of x in s, or |s| when x is absent. */
  function FirstIndex<T(==,!new)>(s: seq<T>, x: T): (i: nat)
    ensures i <= |s| && (i < |s| <==> x in s)
    ensures i < |s| ==> s[i] == x && x !in s[..i]
  {
    if s == [] then 0
    else if s[0] == x then 0
    else
      var j := FirstIndex(s[1..], x);
      assert j < |s| - 1 ==> s[..j + 1] == [s[0]] + s[1..][..j];
      assert s == [s[0]] + s[1..];
      j + 1
  }

  /** Any position holding x with no x before it is the first index. */
  lemma FirstIndexUnique<T(!new)>(s: seq<T>, x: T, i: nat)
    requires i < |s| && s[i] == x && x !in s[..i]
    ensures FirstIndex(s, x) == i
  {
    var k := FirstIndex(s, x);
  }

  /** Appending elements does not move a first occurrence that is already there. */
  lemma FirstIndexPrefix<T(!new)>(s: seq<T>, t: seq<T>, x: T)
    requires x in s
    ensures FirstIndex(s + t, x) == FirstIndex(s, x)
  {
    var k := FirstIndex(s, x);
    assert (s + t)[..k] == s[..k];
    FirstIndexUnique(s + t, x, k);
  }

  /** r lists elements of s in the order of their first appearance in s. */
  predicate FirstAppearanceOrder<T(==,!new)>(r: seq<T>, s: seq<T>) {
    forall i, j :: 0 <= i < j < |r| ==> FirstIndex(s, r[i]) < FirstIndex(s, r[j]) < |s|
  }

  /** a is a subsequence of b: b with some elements deleted and the rest in order. */
  predicate IsSubseq<T(==,!new)>(a: seq<T>, b: seq<T>)
    decreases |b|
  {
    if a == [] then true
    else if b == [] then false
    else (a[|a| - 1] == b[|b| - 1] && IsSubseq(a[..|a| - 1], b[..|b| - 1]))
         || IsSubseq(a, b[..|b| - 1])
  }

  // ---------------------------------------------------------------------
  // Present: the values of the non-empty slots, in order.

  /** What `xs.filter((item) => !!item)` keeps of a list of optional entries. */
  function Present<T(==,!new)>(xs: seq<Option<T>>): (r: seq<T>)
    ensures |r| <= |xs|
    ensures forall x :: x in r <==> Some(x) in xs
  {
    if xs == [] then []
    else
      assert xs == [xs[0]] + xs[1..];
      (if xs[0].Some? then [xs[0].value] else []) + Present(xs[1..])
  }

  /** Filtering distributes over concatenation: each part keeps its own order. */
  lemma {:induction false} PresentAppend<T(!new)>(xs: seq<Option<T>>, ys: seq<Option<T>>)
    ensures Present(xs + ys) == Present(xs) + Present(ys)
  {
    if xs == [] {
      assert xs + ys == ys;
    } else {
      assert (xs + ys)[1..] == xs[1..] + ys;
      PresentAppend(xs[1..], ys);
    }
  }

  /** When no slot is empty, filtering only unwraps: slot i yields element i. */
  lemma {:induction false} PresentAllSome<T(!new)>(xs: seq<Option<T>>)
    requires forall i :: 0 <= i < |xs| ==> xs[i].Some?
    ensures |Present(xs)| == |xs|
    ensures forall i :: 0 <= i < |xs| ==> xs[i] == Some(Present(xs)[i])
  {
    if xs != [] {
      PresentAllSome(xs[1..]);
      assert Present(xs) == [xs[0].value] + Present(xs[1..]);
    }
  }

  // ---------------------------------------------------------------------
  // Dedup: insertion-ordered set of a sequence.

  /** `Array.from(new Set(s))`: each element once, at the place of its first
      occurrence, since a Set appends a value only when it is not yet present. */
  function Dedup<T(==,!new)>(s: seq<T>): (r: seq<T>)
    ensures NoDup(r)
    ensures forall x :: x in r <==> x in s
  {
    if s == [] then []
    else
      assert s == s[..|s| - 1] + [s[|s| - 1]];
      var init := Dedup(s[..|s| - 1]);
      if s[|s| - 1] in init then init else init + [s[|s| - 1]]
  }

  /** A sequence without repetitions is its own de-duplication. */
  lemma {:induction false} DedupOfNoDup<T(!new)>(s: seq<T>)
    requires NoDup(s)
    ensures Dedup(s) == s
  {
    if s != [] {
      var init := s[..|s| - 1];
      DedupOfNoDup(init);
      assert s == init + [s[|s| - 1]];
    }
  }

  /** De-duplicating a prefix first changes nothing:
      `new Set(Array.from(new Set(a)).concat(b))` equals `new Set(a.concat(b))`. */
  lemma {:induction false} DedupAppend<T(!new)>(a: seq<T>, b: seq<T>)
    ensures Dedup(Dedup(a) + b) == Dedup(a + b)
    decreases |b|
  {
    if b == [] {
      assert Dedup(a) + b == Dedup(a);
      assert a + b == a;
      DedupOfNoDup(Dedup(a));
    } else {
      var b', x := b[..|b| - 1], b[|b| - 1];
      DedupAppend(a, b');
      assert (Dedup(a) + b)[..|Dedup(a) + b| - 1] == Dedup(a) + b';
      assert (a + b)[..|a + b| - 1] == a + b';
    }
  }

  /** Appending elements that are already present changes nothing. */
  lemma {:induction false} DedupAbsorb<T(!new)>(a: seq<T>, b: seq<T>)
    requires forall x :: x in b ==> x in a
    ensures Dedup(a + b) == Dedup(a)
    decreases |b|
  {
    if b == [] {
      assert a + b == a;
    } else {
      var b' := b[..|b| - 1];
      DedupAbsorb(a, b');
      assert (a + b)[..|a + b| - 1] == a + b';
      assert b[|b| - 1] in a;
    }
  }

  /** The de-duplicated sequence lists names in the order of first appearance. */
  lemma {:induction false} DedupFirstAppearance<T(!new)>(s: seq<T>)
    ensures FirstAppearanceOrder(Dedup(s), s)
    decreases |s|
  {
    if s != [] {
      var init, x := s[..|s| - 1], s[|s| - 1];
      assert s == init + [x];
      DedupFirstAppearance(init);
      var d := Dedup(init);
      var r := Dedup(s);
      forall i, j | 0 <= i < j < |r|
        ensures FirstIndex(s, r[i]) < FirstIndex(s, r[j]) < |s|
      {
        FirstIndexPrefix(init, [x], r[i]);
        if j < |d| {
          FirstIndexPrefix(init, [x], r[j]);
        } else {
          assert r[j] == x && x !in init;
          FirstIndexUnique(s, x, |init|);
        }
      }
    }
  }

  // ---------------------------------------------------------------------
  // Without: ordered asymmetric difference.

  /** The elements of s that are not in excluded, in their order in s. */
  function Without<T(==,!new)>(s: seq<T>, excluded: set<T>): (r: seq<T>)
    ensures forall x :: x in r <==> x in s && x !in excluded
  {
    if s == [] then []
    else
      assert s == s[..|s| - 1] + [s[|s| - 1]];
      Without(s[..|s| - 1], excluded) + (if s[|s| - 1] in excluded then [] else [s[|s| - 1]])
  }

  /** Nothing is left when every element is excluded. */
  lemma {:induction false} WithoutCovered<T(!new)>(s: seq<T>, excluded: set<T>)
    requires forall x :: x in s ==> x in excluded
    ensures Without(s, excluded) == []
    decreases |s|
  {
    if s != [] {
      WithoutCovered(s[..|s| - 1], excluded);
      assert s[|s| - 1] in s;
    }
  }

  /** The difference keeps the surviving elements in their original order. */
  lemma {:induction false} WithoutIsSubseq<T(!new)>(s: seq<T>, excluded: set<T>)
    ensures IsSubseq(Without(s, excluded), s)
    decreases |s|
  {
    if s != [] {
      var init := s[..|s| - 1];
      WithoutIsSubseq(init, excluded);
      var w := Without(init, excluded);
      if s[|s| - 1] !in excluded {
        var r := w + [s[|s| - 1]];
        assert r[..|r| - 1] == w;
      } else {
        assert Without(s, excluded) == w;
      }
    }
  }

  /** No occurrence of a kept element is dropped, and excluded ones vanish. */
  lemma {:induction false} WithoutCount<T(!new)>(s: seq<T>, excluded: set<T>, x: T)
    ensures multiset(Without(s, excluded))[x] == if x in excluded then 0 else multiset(s)[x]
    decreases |s|
  {
    if s != [] {
      var init := s[..|s| - 1];
      var last := s[|s| - 1];
      WithoutCount(init, excluded, x);
      assert s == init + [last];
      if last in excluded {
        assert Without(s, excluded) == Without(init, excluded);
      } else {
        assert Without(s, excluded) == Without(init, excluded) + [last];
      }
    }
  }

  /** Removing elements keeps a sequence free of repetitions. */
  lemma {:induction false} WithoutNoDup<T(!new)>(s: seq<T>, excluded: set<T>)
    requires NoDup(s)
    ensures NoDup(Without(s, excluded))
    decreases |s|
  {
    if s != [] {
      var init := s[..|s| - 1];
      WithoutNoDup(init, excluded);
    }
  }

  /** Removing elements keeps the order of first appearance in src. */
  lemma {:induction false} WithoutFirstAppearance<T(!new)>(s: seq<T>, excluded: set<T>, src: seq<T>)
    requires FirstAppearanceOrder(s, src)
    ensures FirstAppearanceOrder(Without(s, excluded), src)
    decreases |s|
  {
    if s != [] {
      var init, x := s[..|s| - 1], s[|s| - 1];
      PrefixFirstAppearance(s, |s| - 1, src);
      WithoutFirstAppearance(init, excluded, src);
      var w := Without(init, excluded);
      if x in excluded {
        assert Without(s, excluded) == w;
      } else {
        assert Without(s, excluded) == w + [x];
        forall y | y in w ensures FirstIndex(src, y) < FirstIndex(src, x) < |src| {
          var k :| 0 <= k < |init| && init[k] == y;
          assert s[k] == y && s[|s| - 1] == x;
        }
        AppendFirstAppearance(w, x, src);
      }
    }
  }

  /** A prefix of an ordered sequence is ordered. */
  lemma PrefixFirstAppearance<T(!new)>(s: seq<T>, n: nat, src: seq<T>)
    requires n <= |s| && FirstAppearanceOrder(s, src)
    ensures FirstAppearanceOrder(s[..n], src)
  {
    var p := s[..n];
    forall i, j | 0 <= i < j < |p|
      ensures FirstIndex(src, p[i]) < FirstIndex(src, p[j]) < |src|
    {
      assert p[i] == s[i] && p[j] == s[j];
    }
  }

  /** An element that first appears after all of w may follow w. */
  lemma AppendFirstAppearance<T(!new)>(w: seq<T>, x: T, src: seq<T>)
    requires FirstAppearanceOrder(w, src)
    requires forall y :: y in w ==> FirstIndex(src, y) < FirstIndex(src, x) < |src|
    ensures FirstAppearanceOrder(w + [x], src)
  {
    var r := w + [x];
    forall i, j | 0 <= i < j < |r|
      ensures FirstIndex(src, r[i]) < FirstIndex(src, r[j]) < |src|
    {
      assert r[i] == w[i] && r[i] in w;
      if j < |w| {
        assert r[j] == w[j];
      }
    }
  }
}
