/** The guesses of a list that carry a property, counted and collected over a range of
    positions. Every list comprehension `[g for g in guesses if prop in g]` of
    guessit/guess.py is read through these. */
module Carriers {
  import opened Values
  import opened Records

  /** The number of carriers of p at positions lo..hi-1. */
  function CountIn(gs: seq<Record>, p: string, lo: nat, hi: nat): nat
    requires lo <= hi <= |gs|
    decreases hi - lo
  {
    if lo == hi then 0 else (if p in gs[lo].vals then 1 else 0) + CountIn(gs, p, lo + 1, hi)
  }

  /** `len([g for g in guesses if p in g])`. */
  function Count(gs: seq<Record>, p: string): nat {
    CountIn(gs, p, 0, |gs|)
  }

  /** The guesses at lo..hi-1 that do not carry p, in list order. */
  function NonCarriersIn(gs: seq<Record>, p: string, lo: nat, hi: nat): seq<Record>
    requires lo <= hi <= |gs|
    decreases hi - lo
  {
    if lo == hi then []
    else (if p in gs[lo].vals then [] else [gs[lo]]) + NonCarriersIn(gs, p, lo + 1, hi)
  }

  function NonCarriers(gs: seq<Record>, p: string): seq<Record> {
    NonCarriersIn(gs, p, 0, |gs|)
  }

  /** The values of p held by the carriers at lo..hi-1, in list order. */
  function CarrierValuesIn(gs: seq<Record>, p: string, lo: nat, hi: nat): (r: seq<Value>)
    requires lo <= hi <= |gs|
    ensures |r| == CountIn(gs, p, lo, hi)
    decreases hi - lo
  {
    if lo == hi then []
    else (if p in gs[lo].vals then [gs[lo].vals[p]] else []) + CarrierValuesIn(gs, p, lo + 1, hi)
  }

  function CarrierValues(gs: seq<Record>, p: string): seq<Value> {
    CarrierValuesIn(gs, p, 0, |gs|)
  }

  /** Counts add up over adjacent ranges. */
  lemma {:induction false} CountSplit(gs: seq<Record>, p: string, lo: nat, mid: nat, hi: nat)
    requires lo <= mid <= hi <= |gs|
    ensures CountIn(gs, p, lo, hi) == CountIn(gs, p, lo, mid) + CountIn(gs, p, mid, hi)
    decreases mid - lo
  {
    if lo < mid {
      CountSplit(gs, p, lo + 1, mid, hi);
    }
  }

  /** A range without carriers has count 0, and conversely. */
  lemma {:induction false} CountZero(gs: seq<Record>, p: string, lo: nat, hi: nat)
    requires lo <= hi <= |gs|
    ensures CountIn(gs, p, lo, hi) == 0 <==> forall k :: lo <= k < hi ==> p !in gs[k].vals
    decreases hi - lo
  {
    if lo < hi {
      CountZero(gs, p, lo + 1, hi);
    }
  }

  /** The first carrier at position k or later. */
  function FirstFrom(gs: seq<Record>, p: string, k: nat): (i: nat)
    requires k <= |gs| && CountIn(gs, p, k, |gs|) > 0
    ensures k <= i < |gs| && p in gs[i].vals && CountIn(gs, p, k, i) == 0
    decreases |gs| - k
  {
    if p in gs[k].vals then k else FirstFrom(gs, p, k + 1)
  }

  /** The position of `similar[0]`. */
  function FirstCarrier(gs: seq<Record>, p: string): (i: nat)
    requires Count(gs, p) > 0
    ensures i < |gs| && p in gs[i].vals && CountIn(gs, p, 0, i) == 0
    ensures CountIn(gs, p, i + 1, |gs|) == Count(gs, p) - 1
  {
    var i := FirstFrom(gs, p, 0);
    CountSplit(gs, p, 0, i, |gs|);
    i
  }

  /** The position of `similar[1]`. */
  function SecondCarrier(gs: seq<Record>, p: string): (i2: nat)
    requires Count(gs, p) >= 2
    ensures FirstCarrier(gs, p) < i2 < |gs| && p in gs[i2].vals
    ensures CountIn(gs, p, FirstCarrier(gs, p) + 1, i2) == 0
  {
    FirstFrom(gs, p, FirstCarrier(gs, p) + 1)
  }

  /** A carrier with no carrier before it is the first one. */
  lemma {:induction false} FirstFromAt(gs: seq<Record>, p: string, k: nat, i: nat)
    requires k <= i < |gs| && p in gs[i].vals && CountIn(gs, p, k, i) == 0
    ensures CountIn(gs, p, k, |gs|) > 0 && FirstFrom(gs, p, k) == i
    decreases i - k
  {
    CountSplit(gs, p, k, i, |gs|);
    if k < i {
      FirstFromAt(gs, p, k + 1, i);
    }
  }

  lemma FirstCarrierAt(gs: seq<Record>, p: string, i: nat)
    requires i < |gs| && p in gs[i].vals && CountIn(gs, p, 0, i) == 0
    ensures Count(gs, p) > 0 && FirstCarrier(gs, p) == i
  {
    FirstFromAt(gs, p, 0, i);
  }

  /** Ranges that hold the same guesses, d positions apart, count and collect alike. */
  lemma {:induction false} RangesAgree(r: seq<Record>, s: seq<Record>, p: string, lo: nat, hi: nat, d: nat)
    requires lo <= hi <= |r| && hi + d <= |s|
    requires forall k :: lo <= k < hi ==> r[k] == s[k + d]
    ensures CountIn(r, p, lo, hi) == CountIn(s, p, lo + d, hi + d)
    ensures NonCarriersIn(r, p, lo, hi) == NonCarriersIn(s, p, lo + d, hi + d)
    ensures CarrierValuesIn(r, p, lo, hi) == CarrierValuesIn(s, p, lo + d, hi + d)
    decreases hi - lo
  {
    if lo < hi {
      RangesAgree(r, s, p, lo + 1, hi, d);
    }
  }

  /** Replacing a carrier by another carrier changes no count and no non-carrier. */
  lemma {:induction false} ReplaceCarrier(s: seq<Record>, p: string, i: nat, x: Record, lo: nat, hi: nat)
    requires lo <= hi <= |s| && i < |s| && p in s[i].vals && p in x.vals
    ensures CountIn(s[i := x], p, lo, hi) == CountIn(s, p, lo, hi)
    ensures NonCarriersIn(s[i := x], p, lo, hi) == NonCarriersIn(s, p, lo, hi)
    decreases hi - lo
  {
    if lo < hi {
      ReplaceCarrier(s, p, i, x, lo + 1, hi);
    }
  }

  /** `list.remove` of the element at position i. */
  function RemoveAt<T>(s: seq<T>, i: nat): (r: seq<T>)
    requires i < |s|
    ensures |r| == |s| - 1
    ensures forall k :: 0 <= k < i ==> r[k] == s[k]
    ensures forall k :: i <= k < |r| ==> r[k] == s[k + 1]
  {
    s[..i] + s[i + 1..]
  }

  /** Removing a carrier leaves one carrier fewer ... */
  lemma RemoveCarrierCount(s: seq<Record>, p: string, i: nat)
    requires i < |s| && p in s[i].vals
    ensures Count(RemoveAt(s, i), p) == Count(s, p) - 1
  {
    var r := RemoveAt(s, i);
    RangesAgree(r, s, p, 0, i, 0);
    RangesAgree(r, s, p, i, |r|, 1);
    CountSplit(r, p, 0, i, |r|);
    CountSplit(s, p, 0, i, |s|);
    assert CountIn(s, p, i, |s|) == 1 + CountIn(s, p, i + 1, |s|);
  }

  /** ... and the same guesses without p. */
  lemma RemoveCarrierNonCarriers(s: seq<Record>, p: string, i: nat)
    requires i < |s| && p in s[i].vals
    ensures NonCarriers(RemoveAt(s, i), p) == NonCarriers(s, p)
  {
    var r := RemoveAt(s, i);
    RangesAgree(r, s, p, 0, i, 0);
    RangesAgree(r, s, p, i, |r|, 1);
    NonCarriersSplit(r, p, 0, i, |r|);
    NonCarriersSplit(s, p, 0, i, |s|);
    var head, tail := NonCarriersIn(s, p, 0, i), NonCarriersIn(s, p, i + 1, |s|);
    assert NonCarriersIn(s, p, i, |s|) == tail by {
      assert NonCarriersIn(s, p, i, |s|) == [] + tail;
    }
    assert NonCarriers(r, p) == head + tail;
  }

  lemma {:induction false} NonCarriersSplit(gs: seq<Record>, p: string, lo: nat, mid: nat, hi: nat)
    requires lo <= mid <= hi <= |gs|
    ensures NonCarriersIn(gs, p, lo, hi) == NonCarriersIn(gs, p, lo, mid) + NonCarriersIn(gs, p, mid, hi)
    decreases mid - lo
  {
    if lo < mid {
      NonCarriersSplit(gs, p, lo + 1, mid, hi);
    }
  }

  lemma {:induction false} CarrierValuesSplit(gs: seq<Record>, p: string, lo: nat, mid: nat, hi: nat)
    requires lo <= mid <= hi <= |gs|
    ensures CarrierValuesIn(gs, p, lo, hi) == CarrierValuesIn(gs, p, lo, mid) + CarrierValuesIn(gs, p, mid, hi)
    decreases mid - lo
  {
    if lo < mid {
      CarrierValuesSplit(gs, p, lo + 1, mid, hi);
    }
  }

  /** A range of non-carriers is kept whole. */
  lemma {:induction false} NonCarriersAll(gs: seq<Record>, p: string, lo: nat, hi: nat)
    requires lo <= hi <= |gs| && forall k :: lo <= k < hi ==> p !in gs[k].vals
    ensures NonCarriersIn(gs, p, lo, hi) == gs[lo..hi]
    decreases hi - lo
  {
    if lo < hi {
      NonCarriersAll(gs, p, lo + 1, hi);
      assert gs[lo..hi] == [gs[lo]] + gs[lo + 1..hi];
    }
  }

  /** A list whose only carrier is at position i counts one carrier ... */
  lemma CountOne(r: seq<Record>, p: string, i: nat)
    requires i < |r| && p in r[i].vals
    requires forall k :: 0 <= k < |r| && k != i ==> p !in r[k].vals
    ensures Count(r, p) == 1
  {
    CountZero(r, p, 0, i);
    CountZero(r, p, i + 1, |r|);
    CountSplit(r, p, 0, i, |r|);
  }

  /** ... and keeps every other guess as a non-carrier. */
  lemma NonCarriersOne(r: seq<Record>, p: string, i: nat)
    requires i < |r| && p in r[i].vals
    requires forall k :: 0 <= k < |r| && k != i ==> p !in r[k].vals
    ensures NonCarriers(r, p) == r[..i] + r[i + 1..]
  {
    NonCarriersAll(r, p, 0, i);
    NonCarriersAll(r, p, i + 1, |r|);
    NonCarriersSplit(r, p, 0, i, |r|);
    assert NonCarriersIn(r, p, i, |r|) == [] + NonCarriersIn(r, p, i + 1, |r|);
    assert r[0..i] == r[..i] && r[i + 1..|r|] == r[i + 1..];
  }

  /** Replacing the first carrier by another carrier and removing the second leaves one
      carrier fewer and the same non-carriers ... */
  lemma ReplaceFirstRemoveSecond(s: seq<Record>, p: string, m: Record)
    requires Count(s, p) >= 2 && p in m.vals
    ensures var r := RemoveAt(s[FirstCarrier(s, p) := m], SecondCarrier(s, p));
      Count(r, p) == Count(s, p) - 1 && NonCarriers(r, p) == NonCarriers(s, p)
  {
    var i1, i2 := FirstCarrier(s, p), SecondCarrier(s, p);
    var t := s[i1 := m];
    ReplaceCarrier(s, p, i1, m, 0, |s|);
    RemoveCarrierCount(t, p, i2);
    RemoveCarrierNonCarriers(t, p, i2);
  }

  /** ... and the replacement is the first carrier. */
  lemma ReplaceFirstRemoveSecondFirst(s: seq<Record>, p: string, m: Record)
    requires Count(s, p) >= 2 && p in m.vals
    ensures var r := RemoveAt(s[FirstCarrier(s, p) := m], SecondCarrier(s, p));
      Count(r, p) > 0 && FirstCarrier(r, p) == FirstCarrier(s, p)
  {
    var i1, i2 := FirstCarrier(s, p), SecondCarrier(s, p);
    var r := RemoveAt(s[i1 := m], i2);
    RangesAgree(r, s, p, 0, i1, 0);
    FirstCarrierAt(r, p, i1);
  }
}
