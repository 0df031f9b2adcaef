/** The list-level merges of guessit/guess.py stated on values: a list of guesses is a
    `seq<Record>`, and each merge is the list it leaves behind. The methods in merge.dfy
    are proved to produce exactly these lists. */
module MergeModel {
  import opened Values
  import opened Records
  import opened Reconcile
  import opened Carriers

  // ---------------------------------------------------------------------------
  // _merge_similar_guesses_nocheck and merge_similar_guesses

  /** The first two carriers share more than one property, so the step bails out. */
  predicate Bails(gs: seq<Record>, p: string)
    requires Count(gs, p) >= 2
  {
    |gs[FirstCarrier(gs, p)].vals.Keys * gs[SecondCarrier(gs, p)].vals.Keys| > 1
  }

  /** What a step that does not bail out reads without raising: both carriers' values of
      p suit the chooser (choose_string strips them, so they must be strings), the first
      has a confidence for p, and the second is covered, because `g1.update(g2)` reads
      the confidence of each of its properties. */
  predicate PairReady(gs: seq<Record>, p: string, rule: Rule)
    requires Count(gs, p) >= 2
  {
    var g1, g2 := gs[FirstCarrier(gs, p)], gs[SecondCarrier(gs, p)];
    && p in g1.conf && Covered(g2)
    && Applicable(rule, g1.vals[p]) && Applicable(rule, g2.vals[p])
  }

  /** _merge_similar_guesses_nocheck reads nothing beyond the keys when it bails out. */
  predicate StepReady(gs: seq<Record>, p: string, rule: Rule)
    requires Count(gs, p) >= 2
  {
    Bails(gs, p) || PairReady(gs, p, rule)
  }

  /** The chooser's verdict on the first two carriers' values and confidences for p. */
  function Verdict(gs: seq<Record>, p: string, rule: Rule): (v: (Value, real))
    requires Count(gs, p) >= 2 && PairReady(gs, p, rule)
    ensures Applicable(rule, v.0)
  {
    var g1, g2 := gs[FirstCarrier(gs, p)], gs[SecondCarrier(gs, p)];
    Choose(rule, g1.vals[p], g1.conf[p], g2.vals[p], g2.conf[p])
  }

  /** The second carrier once `g2[prop]` and its confidence hold the verdict. */
  function Partner(gs: seq<Record>, p: string, rule: Rule): (g2: Record)
    requires Count(gs, p) >= 2 && PairReady(gs, p, rule)
    ensures Covered(g2)
  {
    var g2, v := gs[SecondCarrier(gs, p)], Verdict(gs, p, rule);
    Record(g2.vals[p := v.0], g2.conf[p := v.1])
  }

  /** The first carrier after `g1.update(g2)`. */
  function Merged(gs: seq<Record>, p: string, rule: Rule): Record
    requires Count(gs, p) >= 2 && PairReady(gs, p, rule)
  {
    UpdateFrom(gs[FirstCarrier(gs, p)], Partner(gs, p, rule), None)
  }

  /** _merge_similar_guesses_nocheck: unless it bails out, the first carrier absorbs the
      second and the second leaves the list. */
  function MergeStep(gs: seq<Record>, p: string, rule: Rule): seq<Record>
    requires Count(gs, p) >= 2 && StepReady(gs, p, rule)
  {
    if Bails(gs, p) then gs
    else RemoveAt(gs[FirstCarrier(gs, p) := Merged(gs, p, rule)], SecondCarrier(gs, p))
  }

  /** The merged guess carries the union of both guesses' properties, with the verdict
      for p, and every other property of the second guess with its confidence. */
  lemma MergedUnion(gs: seq<Record>, p: string, rule: Rule)
    requires Count(gs, p) >= 2 && PairReady(gs, p, rule)
    ensures var g1, g2, m := gs[FirstCarrier(gs, p)], gs[SecondCarrier(gs, p)], Merged(gs, p, rule);
      && m.vals.Keys == g1.vals.Keys + g2.vals.Keys
      && m.vals[p] == Verdict(gs, p, rule).0 && m.conf[p] == Verdict(gs, p, rule).1
      && (forall q :: q in g2.vals && q != p ==> m.vals[q] == g2.vals[q] && m.conf[q] == g2.conf[q])
      && (forall q :: q in g1.vals && q !in g2.vals ==> m.vals[q] == g1.vals[q])
      && (forall q :: q in g1.conf && q !in g2.vals ==> m.conf[q] == g1.conf[q])
  {
    var g1, g2, v := gs[FirstCarrier(gs, p)], gs[SecondCarrier(gs, p)], Verdict(gs, p, rule);
    var o, m := Partner(gs, p, rule), Merged(gs, p, rule);
    assert o == Record(g2.vals[p := v.0], g2.conf[p := v.1]);
    UpdatedFromExactly(g1, o, None, m);
    assert m.vals == g1.vals + o.vals;
    assert o.vals.Keys == g2.vals.Keys;
  }

  /** After a step that does not bail, the merged guess sits where the first carrier was
      and the second carrier is gone; the guesses before the second carrier keep their
      places and the later ones move up by one. */
  lemma MergeStepLayout(gs: seq<Record>, p: string, rule: Rule)
    requires Count(gs, p) >= 2 && PairReady(gs, p, rule) && !Bails(gs, p)
    ensures var r, i1, i2 := MergeStep(gs, p, rule), FirstCarrier(gs, p), SecondCarrier(gs, p);
      && |r| == |gs| - 1 && r[i1] == Merged(gs, p, rule)
      && (forall k :: 0 <= k < i2 && k != i1 ==> r[k] == gs[k])
      && (forall k :: i2 <= k < |r| ==> r[k] == gs[k + 1])
  {
  }

  /** After a step that does not bail, the list holds one carrier fewer, the merged
      guess is its first carrier, and the guesses without p are as they were. */
  lemma MergeStepCount(gs: seq<Record>, p: string, rule: Rule)
    requires Count(gs, p) >= 2 && PairReady(gs, p, rule) && !Bails(gs, p)
    ensures var r := MergeStep(gs, p, rule);
      && Count(r, p) == Count(gs, p) - 1 && Count(r, p) > 0
      && FirstCarrier(r, p) == FirstCarrier(gs, p)
      && NonCarriers(r, p) == NonCarriers(gs, p)
  {
    var m := Merged(gs, p, rule);
    assert p in m.vals;
    ReplaceFirstRemoveSecond(gs, p, m);
    ReplaceFirstRemoveSecondFirst(gs, p, m);
  }

  /** A simple sufficient condition for every step: each carrier's value suits the
      chooser and has a confidence, and every carrier after the first is covered. */
  predicate Ready(gs: seq<Record>, p: string, rule: Rule) {
    && (forall k :: 0 <= k < |gs| && p in gs[k].vals ==>
          p in gs[k].conf && Applicable(rule, gs[k].vals[p]))
    && (Count(gs, p) > 0 ==>
          forall k :: FirstCarrier(gs, p) < k < |gs| && p in gs[k].vals ==> Covered(gs[k]))
  }

  /** A list with every carrier usable, after a step that does not bail, is again such
      a list: the merged guess holds the verdict, which suits the chooser, and every
      later carrier was a later carrier before. */
  lemma MergeStepReady(gs: seq<Record>, p: string, rule: Rule)
    requires Count(gs, p) >= 2 && Ready(gs, p, rule) && !Bails(gs, p)
    ensures PairReady(gs, p, rule)
    ensures Ready(MergeStep(gs, p, rule), p, rule)
  {
    var r, i1, i2 := MergeStep(gs, p, rule), FirstCarrier(gs, p), SecondCarrier(gs, p);
    MergeStepLayout(gs, p, rule);
    MergedUnion(gs, p, rule);
    MergeStepCount(gs, p, rule);
    forall k | 0 <= k < |r| && p in r[k].vals
      ensures p in r[k].conf && Applicable(rule, r[k].vals[p]) && (k > i1 ==> Covered(r[k]))
    {
      if k < i2 && k != i1 {
        assert r[k] == gs[k];
      } else if k >= i2 {
        assert r[k] == gs[k + 1];
      }
    }
  }

  /** A step keeps the guesses without p. A bail-out changes nothing; otherwise one
      guess and one carrier fewer remain. A list with every carrier usable stays so. */
  lemma MergeStepProgress(gs: seq<Record>, p: string, rule: Rule)
    requires Count(gs, p) >= 2 && StepReady(gs, p, rule)
    ensures var r := MergeStep(gs, p, rule);
      && NonCarriers(r, p) == NonCarriers(gs, p)
      && (Bails(gs, p) ==> r == gs)
      && (!Bails(gs, p) ==> Count(r, p) == Count(gs, p) - 1 && |r| == |gs| - 1)
      && (Ready(gs, p, rule) ==> Ready(r, p, rule))
  {
    if !Bails(gs, p) {
      MergeStepCount(gs, p, rule);
      MergeStepLayout(gs, p, rule);
      if Ready(gs, p, rule) {
        MergeStepReady(gs, p, rule);
      }
    }
  }

  /** What merge_similar_guesses reads without raising, step by step: every step that
      does not bail out finds its pair ready, and the recursion goes on after a step with
      more than two carriers. After a bail-out only keys are read. */
  predicate SimilarReady(gs: seq<Record>, p: string, rule: Rule)
    decreases Count(gs, p)
  {
    if Count(gs, p) < 2 then true
    else if !StepReady(gs, p, rule) then false
    else if Count(gs, p) == 2 || Bails(gs, p) then true
    else
      MergeStepCount(gs, p, rule);
      SimilarReady(MergeStep(gs, p, rule), p, rule)
  }

  /** How merge_similar_guesses ends. `NoProgress` is the bail-out with more than two
      carriers, after which the source calls itself again on the unchanged list. */
  datatype Outcome = Settled | NoProgress

  /** merge_similar_guesses(guesses, prop, choose). */
  function MergeSimilar(gs: seq<Record>, p: string, rule: Rule): (seq<Record>, Outcome)
    requires SimilarReady(gs, p, rule)
    decreases Count(gs, p)
  {
    var n := Count(gs, p);
    if n < 2 then (gs, Settled)
    else if n == 2 then (MergeStep(gs, p, rule), Settled)
    else if Bails(gs, p) then (gs, NoProgress)
    else
      MergeStepCount(gs, p, rule);
      MergeSimilar(MergeStep(gs, p, rule), p, rule)
  }

  /** How merge_similar_guesses ends: fewer than two carriers left, or exactly two that
      share more than one property, or a bail-out with more than two carriers. At least one
      carrier remains, and the guesses without p are kept as they were, in order. */
  lemma {:induction false} MergeSimilarEnds(gs: seq<Record>, p: string, rule: Rule)
    requires SimilarReady(gs, p, rule)
    ensures var (r, out) := MergeSimilar(gs, p, rule);
      && NonCarriers(r, p) == NonCarriers(gs, p)
      && Count(r, p) <= Count(gs, p)
      && (Count(gs, p) > 0 ==> Count(r, p) > 0)
      && (out == Settled ==> Count(r, p) < 2 || (Count(r, p) == 2 && Bails(r, p)))
      && (out == NoProgress ==> Count(r, p) > 2 && Bails(r, p))
    decreases Count(gs, p)
  {
    var n := Count(gs, p);
    if n == 2 {
      MergeStepProgress(gs, p, rule);
    } else if n > 2 && !Bails(gs, p) {
      MergeStepProgress(gs, p, rule);
      MergeSimilarEnds(MergeStep(gs, p, rule), p, rule);
    }
  }

  /** A list with every carrier usable can be merged without raising, and leaves such a
      list behind. */
  lemma {:induction false} MergeSimilarReady(gs: seq<Record>, p: string, rule: Rule)
    requires Ready(gs, p, rule)
    ensures SimilarReady(gs, p, rule)
    ensures Ready(MergeSimilar(gs, p, rule).0, p, rule)
    decreases Count(gs, p)
  {
    var n := Count(gs, p);
    if n >= 2 && !Bails(gs, p) {
      MergeStepReady(gs, p, rule);
      MergeStepCount(gs, p, rule);
      if n > 2 {
        MergeSimilarReady(MergeStep(gs, p, rule), p, rule);
      }
    }
  }

  /** With fewer than two carriers there is nothing to merge; when no step bails, a
      single carrier is left. */
  lemma MergeSimilarSingle(gs: seq<Record>, p: string, rule: Rule)
    requires SimilarReady(gs, p, rule)
    ensures Count(gs, p) < 2 ==> MergeSimilar(gs, p, rule) == (gs, Settled)
    ensures var (r, out) := MergeSimilar(gs, p, rule);
      Count(gs, p) > 0 && out == Settled && !(Count(r, p) == 2 && Bails(r, p)) ==> Count(r, p) == 1
  {
    MergeSimilarEnds(gs, p, rule);
  }

  // ---------------------------------------------------------------------------
  // merge_append_guesses

  /** The merged guess holds its property p as a list. */
  predicate Appending(merged: Record, p: string) {
    p in merged.vals && merged.vals[p].List?
  }

  /** `merged[prop] = [merged[prop]]`. */
  function Started(g: Record, p: string): (r: Record)
    requires p in g.vals
    ensures Appending(r, p)
  {
    Record(g.vals[p := List([g.vals[p]])], g.conf)
  }

  /** One pass of the loop over a later carrier m: its value of p is appended, and every
      other property of m overwrites the merged one (the intended reading of the warning
      branch); confidences are not touched. */
  function Absorb(merged: Record, m: Record, p: string): (r: Record)
    requires Appending(merged, p) && p in m.vals
    ensures Appending(r, p)
  {
    Record((merged.vals + (m.vals - {p}))[p := List(merged.vals[p].items + [m.vals[p]])], merged.conf)
  }

  /** The merged guess after absorbing the carriers at positions k and later, in order. */
  function AbsorbFrom(merged: Record, gs: seq<Record>, p: string, k: nat): (r: Record)
    requires Appending(merged, p) && k <= |gs|
    ensures Appending(r, p)
    decreases |gs| - k
  {
    if k == |gs| then merged
    else AbsorbFrom(if p in gs[k].vals then Absorb(merged, gs[k], p) else merged, gs, p, k + 1)
  }

  /** The first carrier once it has absorbed every later one. */
  function Collected(gs: seq<Record>, p: string): (m: Record)
    requires Count(gs, p) > 0
    ensures Appending(m, p)
  {
    var i1 := FirstCarrier(gs, p);
    AbsorbFrom(Started(gs[i1], p), gs, p, i1 + 1)
  }

  /** merge_append_guesses(guesses, prop) as evidently intended: the first carrier
      collects every carrier's value of p and takes the later carriers' other
      properties; the later carriers leave the list. */
  function MergeAppend(gs: seq<Record>, p: string): seq<Record> {
    if Count(gs, p) == 0 then gs
    else
      var i1 := FirstCarrier(gs, p);
      gs[..i1] + [Collected(gs, p)] + NonCarriersIn(gs, p, i1 + 1, |gs|)
  }

  /** The warning at guessit/guess.py:217 formats two arguments with one `%s` and raises
      TypeError. Its guard tests a key of m against m itself, so it fires as soon as a
      later carrier has any property besides p. */
  predicate AppendCrashes(gs: seq<Record>, p: string) {
    Count(gs, p) > 0 &&
    exists k :: FirstCarrier(gs, p) < k < |gs| && p in gs[k].vals && gs[k].vals.Keys != {p}
  }

  /** Absorbing appends the carriers' values in list order and keeps the confidences. */
  lemma {:induction false} AbsorbFromCollects(merged: Record, gs: seq<Record>, p: string, k: nat)
    requires Appending(merged, p) && k <= |gs|
    ensures var r := AbsorbFrom(merged, gs, p, k);
      && r.vals[p] == List(merged.vals[p].items + CarrierValuesIn(gs, p, k, |gs|))
      && r.conf == merged.conf
    decreases |gs| - k
  {
    if k < |gs| {
      var next := if p in gs[k].vals then Absorb(merged, gs[k], p) else merged;
      AbsorbFromCollects(next, gs, p, k + 1);
      assert merged.vals[p].items + CarrierValuesIn(gs, p, k, |gs|)
          == next.vals[p].items + CarrierValuesIn(gs, p, k + 1, |gs|);
    }
  }

  /** The last later carrier holding another property q decides its value. */
  predicate LastWriter(gs: seq<Record>, p: string, q: string, k: nat, j: int) {
    && k <= j < |gs| && p in gs[j].vals && q in gs[j].vals
    && forall j' :: j < j' < |gs| && p in gs[j'].vals ==> q !in gs[j'].vals
  }

  /** A property q other than p that no carrier from position k on holds is left as
      it was. */
  lemma {:induction false} AbsorbFromUntouched(merged: Record, gs: seq<Record>, p: string, q: string, k: nat)
    requires Appending(merged, p) && k <= |gs| && q != p
    requires forall j :: k <= j < |gs| && p in gs[j].vals ==> q !in gs[j].vals
    ensures var r := AbsorbFrom(merged, gs, p, k);
      (q in r.vals <==> q in merged.vals) && (q in merged.vals ==> r.vals[q] == merged.vals[q])
    decreases |gs| - k
  {
    if k < |gs| {
      var next := if p in gs[k].vals then Absorb(merged, gs[k], p) else merged;
      AbsorbFromUntouched(next, gs, p, q, k + 1);
    }
  }

  /** Every other property q is overwritten by the last carrier that holds it. */
  lemma {:induction false} AbsorbFromOverwrites(merged: Record, gs: seq<Record>, p: string, q: string, k: nat, j: int)
    requires Appending(merged, p) && k <= |gs| && q != p && LastWriter(gs, p, q, k, j)
    ensures var r := AbsorbFrom(merged, gs, p, k);
      q in r.vals && r.vals[q] == gs[j].vals[q]
    decreases |gs| - k
  {
    var next := if p in gs[k].vals then Absorb(merged, gs[k], p) else merged;
    if j > k {
      assert LastWriter(gs, p, q, k + 1, j);
      AbsorbFromOverwrites(next, gs, p, q, k + 1, j);
    } else {
      assert q in next.vals && next.vals[q] == gs[j].vals[q];
      AbsorbFromUntouched(next, gs, p, q, k + 1);
    }
  }

  /** Without the crash, no property besides p is touched: every later carrier holds p
      alone. */
  lemma {:induction false} AbsorbFromQuiet(merged: Record, gs: seq<Record>, p: string, k: nat)
    requires Appending(merged, p) && k <= |gs|
    requires forall j :: k <= j < |gs| && p in gs[j].vals ==> gs[j].vals.Keys == {p}
    ensures AbsorbFrom(merged, gs, p, k).vals.Keys == merged.vals.Keys
    ensures forall q :: q in merged.vals && q != p ==> AbsorbFrom(merged, gs, p, k).vals[q] == merged.vals[q]
    decreases |gs| - k
  {
    if k < |gs| {
      var next := if p in gs[k].vals then Absorb(merged, gs[k], p) else merged;
      if p in gs[k].vals {
        assert gs[k].vals - {p} == map[];
      }
      AbsorbFromQuiet(next, gs, p, k + 1);
    }
  }

  /** What NonCarriersIn collects carries no p. */
  lemma {:induction false} NonCarriersCarryNothing(gs: seq<Record>, p: string, lo: nat, hi: nat)
    requires lo <= hi <= |gs|
    ensures forall k :: 0 <= k < |NonCarriersIn(gs, p, lo, hi)| ==> p !in NonCarriersIn(gs, p, lo, hi)[k].vals
    decreases hi - lo
  {
    if lo < hi {
      NonCarriersCarryNothing(gs, p, lo + 1, hi);
      var t := NonCarriersIn(gs, p, lo + 1, hi);
      if p in gs[lo].vals {
        assert NonCarriersIn(gs, p, lo, hi) == t by {
          assert NonCarriersIn(gs, p, lo, hi) == [] + t;
          assert [] + t == t;
        }
      } else {
        var u := NonCarriersIn(gs, p, lo, hi);
        assert u == [gs[lo]] + t;
        assert forall k :: 1 <= k < |u| ==> u[k] == t[k - 1];
      }
    }
  }

  /** The collected guess holds the list of every carrier's value of p, in list order,
      and keeps the first carrier's confidences. */
  lemma CollectedValues(gs: seq<Record>, p: string)
    requires Count(gs, p) > 0
    ensures Collected(gs, p).vals[p] == List(CarrierValues(gs, p))
    ensures Collected(gs, p).conf == gs[FirstCarrier(gs, p)].conf
  {
    var i1 := FirstCarrier(gs, p);
    AbsorbFromCollects(Started(gs[i1], p), gs, p, i1 + 1);
    CarrierValuesSplit(gs, p, 0, i1, |gs|);
    CarrierValuesSplit(gs, p, i1, i1 + 1, |gs|);
    assert |CarrierValuesIn(gs, p, 0, i1)| == 0;
  }

  /** merge_append_guesses leaves exactly one carrier, the collected guess where the
      first carrier was; the guesses without p are kept, in order. */
  lemma MergeAppendLeavesOne(gs: seq<Record>, p: string)
    ensures Count(gs, p) == 0 ==> MergeAppend(gs, p) == gs
    ensures Count(gs, p) > 0 ==>
      var r, i1 := MergeAppend(gs, p), FirstCarrier(gs, p);
      && i1 < |r| && r[..i1] == gs[..i1] && r[i1] == Collected(gs, p)
      && Count(r, p) == 1
      && NonCarriers(r, p) == NonCarriers(gs, p)
  {
    if Count(gs, p) > 0 {
      var i1 := FirstCarrier(gs, p);
      var a, m, t := gs[..i1], Collected(gs, p), NonCarriersIn(gs, p, i1 + 1, |gs|);
      var r := MergeAppend(gs, p);
      assert r == a + [m] + t;
      assert r[..i1] == a && r[i1 + 1..] == t;
      NonCarriersCarryNothing(gs, p, i1 + 1, |gs|);
      CountZero(gs, p, 0, i1);
      assert forall k :: 0 <= k < |r| && k != i1 ==> p !in r[k].vals by {
        assert forall k :: 0 <= k < i1 ==> r[k] == a[k];
        assert forall k :: i1 < k < |r| ==> r[k] == t[k - i1 - 1];
      }
      CountOne(r, p, i1);
      NonCarriersOne(r, p, i1);
      NonCarriersAll(gs, p, 0, i1);
      NonCarriersSplit(gs, p, 0, i1, |gs|);
      assert NonCarriersIn(gs, p, i1, |gs|) == [] + t;
    }
  }

  /** On the lists the source handles without crashing, the first carrier keeps every
      property it had and gains no other: only p changes, to the collected list. */
  lemma MergeAppendWithoutCrash(gs: seq<Record>, p: string)
    requires Count(gs, p) > 0 && !AppendCrashes(gs, p)
    ensures var r, i1 := MergeAppend(gs, p), FirstCarrier(gs, p);
      i1 < |r| && r[i1] == Record(gs[i1].vals[p := List(CarrierValues(gs, p))], gs[i1].conf)
  {
    var i1 := FirstCarrier(gs, p);
    AbsorbFromQuiet(Started(gs[i1], p), gs, p, i1 + 1);
    CollectedValues(gs, p);
    MergeAppendLeavesOne(gs, p);
    assert Collected(gs, p).vals == gs[i1].vals[p := List(CarrierValues(gs, p))];
  }

  /** On that path a covered first carrier stays covered: no property is added without a
      confidence entry. */
  lemma MergeAppendCovered(gs: seq<Record>, p: string)
    requires Count(gs, p) > 0 && !AppendCrashes(gs, p) && Covered(gs[FirstCarrier(gs, p)])
    ensures Covered(MergeAppend(gs, p)[FirstCarrier(gs, p)])
  {
    MergeAppendWithoutCrash(gs, p);
  }

  /** The intended overwrite at guessit/guess.py:218 copies a value without its
      confidence, so a property the merged guess had no confidence for leaves it
      uncovered; merge_all's `confidence(p)` would then raise KeyError. */
  lemma AbsorbUncovers(merged: Record, m: Record, p: string, q: string)
    requires Appending(merged, p) && p in m.vals && q != p && q in m.vals && q !in merged.conf
    ensures !Covered(Absorb(merged, m, p))
  {
    assert q in Absorb(merged, m, p).vals;
  }

  /** The crash is real: two carriers of "episodeNumber", the later one also holding a
      "title", make the warning raise. */
  lemma AppendCrashExample(e: string, t: string)
    requires e == "episodeNumber" && t == "title"
    ensures AppendCrashes([Record(map[e := Int(1)], map[e := 1.0]),
                           Record(map[e := Int(2), t := Str("Pilot")], map[e := 1.0, t := 1.0])], e)
  {
    var gs := [Record(map[e := Int(1)], map[e := 1.0]),
               Record(map[e := Int(2), t := Str("Pilot")], map[e := 1.0, t := 1.0])];
    assert FirstCarrier(gs, e) == 0;
    assert t in gs[1].vals.Keys && t !in {e};
  }
}
