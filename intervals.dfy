/** Silence intervals: the `(start, end)` millisecond pairs that silence
    detection reports for a chunk and that the scan accumulates. */
module Intervals {

  /** A silence from `start` to `end`, in milliseconds. Before translation the
      timestamps are local to a chunk; afterwards they are global to the
      recording. */
  datatype Interval = Interval(start: int, end: int)

  function Length(iv: Interval): int
  {
    iv.end - iv.start
  }

  /** Every interval is non-empty: its start lies strictly before its end. */
  predicate WellFormed(s: seq<Interval>)
  {
    forall i :: 0 <= i < |s| ==> s[i].start < s[i].end
  }

  /** The intervals appear in ascending order of their start. */
  predicate SortedByStart(s: seq<Interval>)
  {
    forall i, j :: 0 <= i < j < |s| ==> s[i].start <= s[j].start
  }

  /** Every interval ends no later than any later interval starts. */
  predicate Disjoint(s: seq<Interval>)
  {
    forall i, j :: 0 <= i < j < |s| ==> s[i].end <= s[j].start
  }

  /** Both endpoints of every interval lie inside `[lo, hi]`. */
  predicate Within(s: seq<Interval>, lo: int, hi: int)
  {
    forall i :: 0 <= i < |s| ==> lo <= s[i].start <= hi && lo <= s[i].end <= hi
  }

  /** One interval moved by `offset` milliseconds. */
  function Shift(iv: Interval, offset: int): (r: Interval)
    ensures Length(r) == Length(iv)
    ensures (r.start < r.end) == (iv.start < iv.end)
  {
    Interval(iv.start + offset, iv.end + offset)
  }

  /** The per-chunk list comprehension: every chunk-local interval moved to
      global time by the chunk's offset. */
  function Translate(local: seq<Interval>, offset: int): (r: seq<Interval>)
    ensures |r| == |local|
  {
    seq(|local|, i requires 0 <= i < |local| => Shift(local[i], offset))
  }

  lemma TranslateAt(local: seq<Interval>, offset: int, i: nat)
    requires i < |local|
    ensures Translate(local, offset)[i] == Shift(local[i], offset)
  {
  }

  /** Translation keeps every interval's length, and the list is well formed
      (`start < end` throughout) after translation exactly when it was
      before. */
  lemma TranslateKeepsLengths(local: seq<Interval>, offset: int)
    ensures forall i :: 0 <= i < |local| ==> Length(Translate(local, offset)[i]) == Length(local[i])
    ensures WellFormed(Translate(local, offset)) <==> WellFormed(local)
  {
    var r := Translate(local, offset);
    assert forall i :: 0 <= i < |r| ==> r[i] == Shift(local[i], offset);
  }

  /** Translating back by the opposite offset restores the local intervals:
      translation loses nothing. */
  lemma TranslateInverse(local: seq<Interval>, offset: int)
    ensures Translate(Translate(local, offset), -offset) == local
  {
    var back := Translate(Translate(local, offset), -offset);
    forall i | 0 <= i < |local| ensures back[i] == local[i] {
      assert Translate(local, offset)[i] == Shift(local[i], offset);
    }
  }

  /** Translation keeps the order of the intervals, in both directions. */
  lemma TranslateSorted(local: seq<Interval>, offset: int)
    ensures SortedByStart(Translate(local, offset)) <==> SortedByStart(local)
    ensures Disjoint(Translate(local, offset)) <==> Disjoint(local)
  {
    var r := Translate(local, offset);
    assert forall i :: 0 <= i < |r| ==> r[i] == Shift(local[i], offset);
  }

  /** Translation moves the bounds of a chunk by the same offset. */
  lemma TranslateWithin(local: seq<Interval>, offset: int, lo: int, hi: int)
    requires Within(local, lo, hi)
    ensures Within(Translate(local, offset), lo + offset, hi + offset)
  {
    var r := Translate(local, offset);
    assert forall i :: 0 <= i < |r| ==> r[i] == Shift(local[i], offset);
  }

  /** Indexing into a concatenation. */
  lemma IndexAppend<T>(a: seq<T>, b: seq<T>, p: nat)
    requires p < |a| + |b|
    ensures (a + b)[p] == if p < |a| then a[p] else b[p - |a|]
  {
  }

  lemma AppendWellFormed(a: seq<Interval>, b: seq<Interval>)
    requires WellFormed(a) && WellFormed(b)
    ensures WellFormed(a + b)
  {
    var ab := a + b;
    forall i | 0 <= i < |ab| ensures ab[i].start < ab[i].end {
      if i < |a| { assert ab[i] == a[i]; } else { assert ab[i] == b[i - |a|]; }
    }
  }

  /** Two sorted lists, the first lying before the second, stay sorted when
      concatenated. */
  lemma AppendSorted(a: seq<Interval>, b: seq<Interval>, lo: int, mid: int, hi: int)
    requires lo <= mid <= hi
    requires SortedByStart(a) && Within(a, lo, mid)
    requires SortedByStart(b) && Within(b, mid, hi)
    ensures SortedByStart(a + b) && Within(a + b, lo, hi)
  {
    var ab := a + b;
    forall i, j | 0 <= i < j < |ab| ensures ab[i].start <= ab[j].start {
      if j < |a| {
        assert ab[i] == a[i] && ab[j] == a[j];
      } else if i >= |a| {
        assert ab[i] == b[i - |a|] && ab[j] == b[j - |a|];
      } else {
        assert ab[i] == a[i] && ab[j] == b[j - |a|];
      }
    }
    forall i | 0 <= i < |ab| ensures lo <= ab[i].start <= hi && lo <= ab[i].end <= hi {
      if i < |a| { assert ab[i] == a[i]; } else { assert ab[i] == b[i - |a|]; }
    }
  }

  /** Two disjoint lists, the first lying before the second, stay disjoint
      when concatenated. */
  lemma AppendDisjoint(a: seq<Interval>, b: seq<Interval>, lo: int, mid: int, hi: int)
    requires lo <= mid <= hi
    requires Disjoint(a) && Within(a, lo, mid)
    requires Disjoint(b) && Within(b, mid, hi)
    ensures Disjoint(a + b) && Within(a + b, lo, hi)
  {
    var ab := a + b;
    forall i, j | 0 <= i < j < |ab| ensures ab[i].end <= ab[j].start {
      if j < |a| {
        assert ab[i] == a[i] && ab[j] == a[j];
      } else if i >= |a| {
        assert ab[i] == b[i - |a|] && ab[j] == b[j - |a|];
      } else {
        assert ab[i] == a[i] && ab[j] == b[j - |a|];
      }
    }
    forall i | 0 <= i < |ab| ensures lo <= ab[i].start <= hi && lo <= ab[i].end <= hi {
      if i < |a| { assert ab[i] == a[i]; } else { assert ab[i] == b[i - |a|]; }
    }
  }
}
