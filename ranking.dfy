/**
 * Ranking of the model's per-class scores, as `predict` in model_utils.py
 * does it: the top class by argmax (first occurrence of the maximum), and
 * the list of (class, confidence) records sorted by descending confidence
 * with Python's stable `list.sort(..., reverse=True)`.
 *
 * Scores are only ever compared, so they are `real`.
 */
module Ranking {

  /** One record of the ranked list: a class label and its raw score. */
  datatype Prediction = Prediction(className: string, confidence: real)

  /** Confidences never increase from left to right. */
  predicate SortedDesc(s: seq<Prediction>)
  {
    forall i, j :: 0 <= i < j < |s| ==> s[i].confidence >= s[j].confidence
  }

  /** The confidences of `s`, position by position. */
  function Confidences(s: seq<Prediction>): (r: seq<real>)
    ensures |r| == |s|
    ensures forall i :: 0 <= i < |s| ==> r[i] == s[i].confidence
  {
    seq(|s|, i requires 0 <= i < |s| => s[i].confidence)
  }

  /**
   * The index numpy's `argmax` returns: a position of a largest score,
   * and the first such position.
   */
  function Argmax(scores: seq<real>): (k: nat)
    requires |scores| > 0
    ensures k < |scores|
    ensures forall i :: 0 <= i < |scores| ==> scores[i] <= scores[k]
    ensures forall i :: 0 <= i < k ==> scores[i] < scores[k]
  {
    if |scores| == 1 then 0
    else
      var k := Argmax(scores[..|scores| - 1]);
      if scores[|scores| - 1] > scores[k] then |scores| - 1 else k
  }

  /** An argmax that falls inside a prefix is also the argmax of that prefix. */
  lemma ArgmaxOfPrefix(scores: seq<real>, n: nat)
    requires |scores| > 0 && Argmax(scores) < n <= |scores|
    ensures Argmax(scores[..n]) == Argmax(scores)
  {
    var j, k := Argmax(scores[..n]), Argmax(scores);
    assert scores[..n][k] == scores[k];
    assert scores[..n][j] == scores[j];
  }

  /**
   * The records of `s` whose confidence is exactly `c`, in their order in
   * `s`. A sort is stable when it leaves every one of these unchanged.
   */
  function WithConfidence(s: seq<Prediction>, c: real): (r: seq<Prediction>)
    ensures |r| <= |s|
  {
    if s == [] then []
    else (if s[0].confidence == c then [s[0]] else []) + WithConfidence(s[1..], c)
  }

  /** Two arrangements with the same records of every confidence, in the same order. */
  ghost predicate SameTies(s: seq<Prediction>, t: seq<Prediction>)
  {
    forall c :: WithConfidence(s, c) == WithConfidence(t, c)
  }

  /**
   * Where one step of a stable insertion sort puts `x` into `t`: behind the
   * last record whose confidence is at least its own, so that only records
   * of strictly lower confidence follow it.
   */
  function Slot(x: Prediction, t: seq<Prediction>): (p: nat)
    ensures p <= |t|
  {
    if t == [] then 0
    else if t[|t| - 1].confidence >= x.confidence then |t|
    else Slot(x, t[..|t| - 1])
  }

  /** Records of at least `x`'s confidence end at the slot; after it, all are strictly lower. */
  lemma {:induction false} SlotBounds(x: Prediction, t: seq<Prediction>)
    ensures Slot(x, t) == 0 || t[Slot(x, t) - 1].confidence >= x.confidence
    ensures forall k :: Slot(x, t) <= k < |t| ==> t[k].confidence < x.confidence
  {
    if t != [] && t[|t| - 1].confidence < x.confidence {
      var init := t[..|t| - 1];
      SlotBounds(x, init);
      assert forall k :: 0 <= k < |init| ==> init[k] == t[k];
    }
  }

  /** An index with both properties of the slot is the slot. */
  lemma SlotUnique(x: Prediction, t: seq<Prediction>, j: nat)
    requires j <= |t| && (j == 0 || t[j - 1].confidence >= x.confidence)
    requires forall k :: j <= k < |t| ==> t[k].confidence < x.confidence
    ensures j == Slot(x, t)
  {
    SlotBounds(x, t);
  }

  /** `t` with `x` inserted at its slot. */
  function Insert(x: Prediction, t: seq<Prediction>): (r: seq<Prediction>)
    ensures |r| == |t| + 1
  {
    var p := Slot(x, t);
    t[..p] + [x] + t[p..]
  }

  /**
   * The list `sort(key=confidence, reverse=True)` leaves behind, defined as a
   * stable insertion sort; StableSortIsRanked shows that every sorted
   * arrangement keeping ties in order is this one.
   */
  function Ranked(s: seq<Prediction>): (r: seq<Prediction>)
    ensures |r| == |s|
  {
    if s == [] then [] else Insert(s[|s| - 1], Ranked(s[..|s| - 1]))
  }

  /** Every record picked out for confidence `c` comes from `s` and has confidence `c`. */
  lemma {:induction false} WithConfidenceMembers(s: seq<Prediction>, c: real, p: Prediction)
    requires p in WithConfidence(s, c)
    ensures p in s && p.confidence == c
  {
    if !(s[0].confidence == c && s[0] == p) {
      WithConfidenceMembers(s[1..], c, p);
    }
  }

  lemma WithConfidenceSingle(y: Prediction, c: real)
    ensures WithConfidence([y], c) == if y.confidence == c then [y] else []
  {
    assert [y][1..] == [];
  }

  lemma {:induction false} WithConfidenceAppend(a: seq<Prediction>, b: seq<Prediction>, c: real)
    ensures WithConfidence(a + b, c) == WithConfidence(a, c) + WithConfidence(b, c)
  {
    if a == [] {
      assert a + b == b;
    } else {
      var ab := a + b;
      assert ab[0] == a[0];
      assert ab[1..] == a[1..] + b;
      WithConfidenceAppend(a[1..], b, c);
      var head := if a[0].confidence == c then [a[0]] else [];
      assert WithConfidence(ab, c) == head + WithConfidence(a[1..] + b, c);
      assert WithConfidence(a, c) == head + WithConfidence(a[1..], c);
    }
  }

  /** The first record of confidence `c` is the first one in `s`. */
  lemma {:induction false} WithConfidenceHead(s: seq<Prediction>, k: nat, c: real)
    requires k < |s| && s[k].confidence == c
    requires forall i :: 0 <= i < k ==> s[i].confidence != c
    ensures |WithConfidence(s, c)| > 0 && WithConfidence(s, c)[0] == s[k]
  {
    if k > 0 {
      WithConfidenceHead(s[1..], k - 1, c);
    }
  }

  lemma InsertMultiset(x: Prediction, t: seq<Prediction>)
    ensures multiset(Insert(x, t)) == multiset(t) + multiset{x}
  {
    var p := Slot(x, t);
    assert t == t[..p] + t[p..];
  }

  lemma InsertSorted(x: Prediction, t: seq<Prediction>)
    requires SortedDesc(t)
    ensures SortedDesc(Insert(x, t))
  {
    var p := Slot(x, t);
    SlotBounds(x, t);
    var r := Insert(x, t);
    forall i, j | 0 <= i < j < |r|
      ensures r[i].confidence >= r[j].confidence
    {
      if j < p {
        assert r[i] == t[i] && r[j] == t[j];
      } else if j == p {
        assert r[i] == t[i] && r[j] == x;
        assert i == p - 1 || t[i].confidence >= t[p - 1].confidence;
      } else if i < p {
        assert r[i] == t[i] && r[j] == t[j - 1];
      } else if i == p {
        assert r[i] == x && r[j] == t[j - 1];
      } else {
        assert r[i] == t[i - 1] && r[j] == t[j - 1];
      }
    }
  }

  /** No record of confidence `c` in `s` means nothing is picked out. */
  lemma {:induction false} WithConfidenceNone(s: seq<Prediction>, c: real)
    requires forall k :: 0 <= k < |s| ==> s[k].confidence != c
    ensures WithConfidence(s, c) == []
  {
    if s != [] {
      WithConfidenceNone(s[1..], c);
    }
  }

  /** Inserting `x` appends it to the records of its own confidence and leaves all others as they were. */
  lemma InsertStable(x: Prediction, t: seq<Prediction>, c: real)
    ensures WithConfidence(Insert(x, t), c)
         == WithConfidence(t, c) + (if x.confidence == c then [x] else [])
  {
    var p := Slot(x, t);
    var front, back := t[..p], t[p..];
    assert t == front + back;
    WithConfidenceAppend(front + [x], back, c);
    WithConfidenceAppend(front, [x], c);
    WithConfidenceAppend(front, back, c);
    WithConfidenceSingle(x, c);
    if x.confidence == c {
      SlotBounds(x, t);
      WithConfidenceNone(back, c);
    }
  }

  /** The ranked list holds exactly the records it was given. */
  lemma {:induction false} RankedPermutation(s: seq<Prediction>)
    ensures multiset(Ranked(s)) == multiset(s)
  {
    if s != [] {
      var init, last := s[..|s| - 1], s[|s| - 1];
      assert Ranked(s) == Insert(last, Ranked(init));
      RankedPermutation(init);
      InsertMultiset(last, Ranked(init));
      assert s == init + [last];
      assert multiset(s) == multiset(init) + multiset{last};
    }
  }

  /** The ranked list is in non-increasing order of confidence. */
  lemma {:induction false} RankedSorted(s: seq<Prediction>)
    ensures SortedDesc(Ranked(s))
  {
    if s != [] {
      RankedSorted(s[..|s| - 1]);
      InsertSorted(s[|s| - 1], Ranked(s[..|s| - 1]));
    }
  }

  /** Ranking is stable: records of equal confidence keep their original order. */
  lemma {:induction false} RankedStable(s: seq<Prediction>, c: real)
    ensures WithConfidence(Ranked(s), c) == WithConfidence(s, c)
  {
    if s != [] {
      var init, last := s[..|s| - 1], s[|s| - 1];
      RankedStable(init, c);
      InsertStable(last, Ranked(init), c);
      WithConfidenceAppend(init, [last], c);
      assert s == init + [last];
      WithConfidenceSingle(last, c);
    }
  }

  /** A list with the same ties as a non-empty list is non-empty. */
  lemma SameTiesNonEmpty(t: seq<Prediction>, u: seq<Prediction>)
    requires SameTies(t, u) && u != []
    ensures t != []
  {
    WithConfidenceHead(u, 0, u[0].confidence);
    assert WithConfidence(t, u[0].confidence) == WithConfidence(u, u[0].confidence);
  }

  /** Two sorted non-empty lists with the same ties start with the same record. */
  lemma SameTiesSameHead(t: seq<Prediction>, u: seq<Prediction>)
    requires SortedDesc(t) && SortedDesc(u) && SameTies(t, u) && t != [] && u != []
    ensures t[0] == u[0]
  {
    var m, n := t[0].confidence, u[0].confidence;
    WithConfidenceHead(t, 0, m);
    WithConfidenceHead(u, 0, n);
    assert WithConfidence(t, m) == WithConfidence(u, m);
    assert WithConfidence(t, n) == WithConfidence(u, n);
    WithConfidenceMembers(u, m, t[0]);
    WithConfidenceMembers(t, n, u[0]);
    var i :| 0 <= i < |u| && u[i] == t[0];
    var j :| 0 <= j < |t| && t[j] == u[0];
    assert m == n;
  }

  /** Removing the same first record from two lists with the same ties leaves lists with the same ties. */
  lemma SameTiesTail(t: seq<Prediction>, u: seq<Prediction>)
    requires SameTies(t, u) && t != [] && u != [] && t[0] == u[0]
    ensures SameTies(t[1..], u[1..])
  {
    forall c
      ensures WithConfidence(t[1..], c) == WithConfidence(u[1..], c)
    {
      var head := if t[0].confidence == c then [t[0]] else [];
      assert WithConfidence(t, c) == head + WithConfidence(t[1..], c);
      assert WithConfidence(u, c) == head + WithConfidence(u[1..], c);
      assert WithConfidence(t[1..], c) == WithConfidence(t, c)[|head|..];
      assert WithConfidence(u[1..], c) == WithConfidence(u, c)[|head|..];
    }
  }

  /**
   * Two sorted arrangements that agree on the order of every group of ties
   * are the same list.
   */
  lemma {:induction false} SortedWithSameTiesEqual(t: seq<Prediction>, u: seq<Prediction>)
    requires SortedDesc(t) && SortedDesc(u) && SameTies(t, u)
    ensures t == u
  {
    if u != [] {
      SameTiesNonEmpty(t, u);
      SameTiesSameHead(t, u);
      SameTiesTail(t, u);
      assert SortedDesc(t[1..]) && SortedDesc(u[1..]);
      SortedWithSameTiesEqual(t[1..], u[1..]);
      assert t == [t[0]] + t[1..];
      assert u == [u[0]] + u[1..];
    } else if t != [] {
      SameTiesNonEmpty(u, t);
    }
  }

  /**
   * Any stable descending sort of `s` (CPython's Timsort included) produces
   * `Ranked(s)`.
   */
  lemma StableSortIsRanked(s: seq<Prediction>, t: seq<Prediction>)
    requires SortedDesc(t) && SameTies(t, s)
    ensures t == Ranked(s)
  {
    RankedSorted(s);
    forall c
      ensures WithConfidence(Ranked(s), c) == WithConfidence(t, c)
    {
      RankedStable(s, c);
    }
    SortedWithSameTiesEqual(t, Ranked(s));
  }

  /** In a sorted list the first record has the largest confidence. */
  lemma SortedHeadIsMax(u: seq<Prediction>, p: Prediction)
    requires SortedDesc(u) && p in u
    ensures u[0].confidence >= p.confidence
  {
    var j :| 0 <= j < |u| && u[j] == p;
    assert j == 0 || u[0].confidence >= u[j].confidence;
  }

  /** A record of `s` has at most the confidence at the argmax. */
  lemma AtMostArgmax(s: seq<Prediction>, p: Prediction)
    requires p in s
    ensures p.confidence <= s[Argmax(Confidences(s))].confidence
  {
    var i :| 0 <= i < |s| && s[i] == p;
    var k := Argmax(Confidences(s));
    assert Confidences(s)[i] <= Confidences(s)[k];
  }

  /** No record before the argmax reaches its confidence. */
  lemma BeforeArgmax(s: seq<Prediction>)
    requires |s| > 0
    ensures forall i :: 0 <= i < Argmax(Confidences(s)) ==> s[i].confidence != s[Argmax(Confidences(s))].confidence
  {
    var k := Argmax(Confidences(s));
    forall i | 0 <= i < k
      ensures s[i].confidence != s[k].confidence
    {
      assert Confidences(s)[i] < Confidences(s)[k];
    }
  }

  /**
   * In any sorted, stable permutation of `s`, the first record is the record
   * at the first position of a largest confidence.
   */
  lemma SortedStableHead(s: seq<Prediction>, u: seq<Prediction>)
    requires |s| > 0 && SortedDesc(u) && multiset(u) == multiset(s) && SameTies(u, s)
    ensures |u| > 0 && u[0] == s[Argmax(Confidences(s))]
  {
    var k := Argmax(Confidences(s));
    var m := s[k].confidence;
    assert |u| == |multiset(u)| == |multiset(s)| == |s|;
    assert s[k] in multiset(s);
    SortedHeadIsMax(u, s[k]);
    assert u[0] in multiset(u);
    AtMostArgmax(s, u[0]);
    WithConfidenceHead(u, 0, m);
    BeforeArgmax(s);
    WithConfidenceHead(s, k, m);
    assert WithConfidence(u, m) == WithConfidence(s, m);
  }

  /**
   * The head of the ranked list is the record at the first position of a
   * largest confidence: the record numpy's argmax names.
   */
  lemma RankedHead(s: seq<Prediction>)
    requires |s| > 0
    ensures Ranked(s)[0] == s[Argmax(Confidences(s))]
  {
    RankedSorted(s);
    RankedPermutation(s);
    forall c
      ensures WithConfidence(Ranked(s), c) == WithConfidence(s, c)
    {
      RankedStable(s, c);
    }
    SortedStableHead(s, Ranked(s));
  }

  /**
   * The array contents after the shifting loop, once `x` is written at `j`:
   * the inserted prefix, and the rest as it was.
   */
  lemma PlaceAfterShift(s0: seq<Prediction>, cur: seq<Prediction>, x: Prediction, i: nat, j: nat)
    requires j <= i < |s0| == |cur|
    requires forall k :: 0 <= k < j ==> cur[k] == s0[k]
    requires forall k :: j < k <= i ==> cur[k] == s0[k - 1]
    requires forall k :: i < k < |s0| ==> cur[k] == s0[k]
    ensures cur[j := x][..i + 1] == s0[..j] + [x] + s0[j..i]
    ensures cur[j := x][i + 1..] == s0[i + 1..]
  {
    var r := s0[..j] + [x] + s0[j..i];
    forall k | 0 <= k <= i
      ensures cur[j := x][k] == r[k]
    {
      if k > j {
        assert r[k] == s0[k - 1];
      }
    }
  }

  /**
   * The shifting loop of one insertion step: moves the records before `a[i]`
   * of strictly lower confidence than `x` one place right, and returns the
   * position left free for `x`.
   */
  method ShiftLower(a: array<Prediction>, i: nat, x: Prediction) returns (j: nat)
    requires i < a.Length
    modifies a
    ensures j <= i
    ensures j == 0 || old(a[j - 1]).confidence >= x.confidence
    ensures forall k :: j <= k < i ==> old(a[k]).confidence < x.confidence
    ensures forall k :: 0 <= k < j ==> a[k] == old(a[k])
    ensures forall k :: j < k <= i ==> a[k] == old(a[k - 1])
    ensures forall k :: i < k < a.Length ==> a[k] == old(a[k])
  {
    j := i;
    while j > 0 && a[j - 1].confidence < x.confidence
      invariant 0 <= j <= i
      invariant forall k :: 0 <= k < j ==> a[k] == old(a[k])
      invariant forall k :: j < k <= i ==> a[k] == old(a[k - 1])
      invariant forall k :: i < k < a.Length ==> a[k] == old(a[k])
      invariant forall k :: j <= k < i ==> old(a[k]).confidence < x.confidence
    {
      a[j] := a[j - 1];
      j := j - 1;
    }
  }

  /**
   * Moves `a[i]` left past the records of strictly lower confidence before it,
   * shifting them right by one.
   */
  method InsertAt(a: array<Prediction>, i: nat)
    requires i < a.Length
    modifies a
    ensures a[..i + 1] == Insert(old(a[i]), old(a[..i]))
    ensures a[i + 1..] == old(a[i + 1..])
  {
    ghost var s0 := a[..];
    var x := a[i];
    var j := ShiftLower(a, i, x);
    ghost var cur := a[..];
    a[j] := x;
    assert a[..] == cur[j := x];
    PlaceAfterShift(s0, cur, x, i, j);
    ghost var t := s0[..i];
    assert t[..j] == s0[..j] && t[j..] == s0[j..i];
    SlotUnique(x, t, j);
  }

  /** Sorts `a` in place, stably, by descending confidence: the model of `list.sort`. */
  method SortByConfidence(a: array<Prediction>)
    modifies a
    ensures a[..] == Ranked(old(a[..]))
  {
    ghost var s := a[..];
    var i := 0;
    while i < a.Length
      invariant 0 <= i <= a.Length
      invariant a[..i] == Ranked(s[..i])
      invariant a[i..] == s[i..]
    {
      assert a[i] == s[i];
      InsertAt(a, i);
      assert s[..i + 1][..i] == s[..i];
      i := i + 1;
    }
    assert s[..a.Length] == s;
  }
}
