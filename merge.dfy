/** The list-level merges of guessit/guess.py on Guess objects. A list of guesses is a
    `seq<Guess>` of distinct objects; the merges change those objects in place and return
    the list they leave, and each is proved to leave exactly the list that merge_model.dfy
    and fold_model.dfy describe. */
module Merge {
  import opened Values
  import opened Records
  import opened Reconcile
  import opened Carriers
  import opened MergeModel
  import opened FoldModel
  import opened Guesses

  /** The states of the guesses of a list, in list order. */
  function Snap(gs: seq<Guess>): (r: seq<Record>)
    reads set g | g in gs
    ensures |r| == |gs| && forall k :: 0 <= k < |gs| ==> r[k] == gs[k].Snapshot()
  {
    seq(|gs|, k requires 0 <= k < |gs| reads set g | g in gs => gs[k].Snapshot())
  }

  /** No Guess object occurs twice in the list. */
  predicate Distinct(gs: seq<Guess>) {
    forall i, j :: 0 <= i < |gs| && 0 <= j < |gs| && i != j ==> gs[i] != gs[j]
  }

  /** Removing a guess from the list removes its state from the list of states. */
  lemma SnapRemoveAt(gs: seq<Guess>, i: nat)
    requires i < |gs|
    ensures Snap(RemoveAt(gs, i)) == RemoveAt(Snap(gs), i)
  {
    var t, u := Snap(RemoveAt(gs, i)), RemoveAt(Snap(gs), i);
    assert forall k :: 0 <= k < |t| ==> t[k] == u[k];
  }

  /** Removing a guess keeps the list free of repetitions and adds no guess. */
  lemma DistinctRemoveAt(gs: seq<Guess>, i: nat)
    requires i < |gs| && Distinct(gs)
    ensures Distinct(RemoveAt(gs, i)) && forall g :: g in RemoveAt(gs, i) ==> g in gs
  {
  }

  /** States that differ from s only at i1, which now holds m, and at i2, which then
      leaves, form s with m at i1 and i2 removed. */
  lemma Reassemble(s: seq<Record>, now: seq<Record>, i1: nat, i2: nat, m: Record)
    requires i1 < i2 < |s| == |now| && now[i1] == m
    requires forall k :: 0 <= k < |s| && k != i1 && k != i2 ==> now[k] == s[k]
    ensures RemoveAt(now, i2) == RemoveAt(s[i1 := m], i2)
  {
    var t, u := RemoveAt(now, i2), RemoveAt(s[i1 := m], i2);
    assert forall k :: 0 <= k < |t| ==> t[k] == u[k];
  }

  /** The writes of a step that does not bail out: `g2[prop]` and its confidence take
      the verdict, then `g1.update(g2)`. */
  method TakeVerdict(g1: Guess, g2: Guess, p: string, verdict: (Value, real))
    requires g1 != g2 && Covered(g2.Snapshot())
    modifies g1, g2
    ensures g2.Snapshot() == Record(old(g2.vals)[p := verdict.0], old(g2.conf)[p := verdict.1])
    ensures g1.Snapshot() == UpdateFrom(old(g1.Snapshot()), g2.Snapshot(), None)
  {
    g2.Set(p, verdict.0);
    g2.SetConfidence(p, verdict.1);
    g1.Update(g2);
  }

  /** _merge_similar_guesses_nocheck(guesses, prop, choose). Unless the first two
      carriers of p share more than one property, the second one takes the chooser's
      verdict for p, the first one is updated with it, and the second one leaves the
      list. */
  method MergeSimilarNoCheck(gs: seq<Guess>, p: string, rule: Rule) returns (rest: seq<Guess>)
    requires Distinct(gs) && Count(Snap(gs), p) >= 2 && StepReady(Snap(gs), p, rule)
    modifies set g | g in gs
    ensures Snap(rest) == MergeStep(old(Snap(gs)), p, rule)
    ensures var s := old(Snap(gs));
      rest == (if Bails(s, p) then gs else RemoveAt(gs, SecondCarrier(s, p)))
    ensures var s := old(Snap(gs));
      !Bails(s, p) ==> gs[SecondCarrier(s, p)].Snapshot() == Partner(s, p, rule)
    ensures Distinct(rest) && forall g :: g in rest ==> g in gs
  {
    ghost var s := Snap(gs);
    var i1, i2 := FirstCarrier(Snap(gs), p), SecondCarrier(Snap(gs), p);
    var g1, g2 := gs[i1], gs[i2];
    if |g1.vals.Keys * g2.vals.Keys| > 1 {
      assert Bails(s, p) && MergeStep(s, p, rule) == s;
      return gs;
    }
    assert !Bails(s, p) && PairReady(s, p, rule);
    var v1, v2 := g1.vals[p], g2.vals[p];
    var c1, c2 := g1.conf[p], g2.conf[p];
    var verdict := Choose(rule, v1, c1, v2, c2);
    TakeVerdict(g1, g2, p, verdict);
    assert g2.Snapshot() == Partner(s, p, rule);
    rest := RemoveAt(gs, i2);
    DistinctRemoveAt(gs, i2);
    ghost var now := Snap(gs);
    assert forall k :: 0 <= k < |gs| && k != i1 && k != i2 ==> now[k] == s[k];
    SnapRemoveAt(gs, i2);
    Reassemble(s, now, i1, i2, g1.Snapshot());
    assert Snap(rest) == MergeStep(s, p, rule);
  }

  /** merge_similar_guesses(guesses, prop, choose). When a step with more than two
      carriers bails out, the source calls itself again on the unchanged list and
      keeps doing so until CPython's recursion limit raises RuntimeError; the method
      stops there and reports `NoProgress`. */
  method MergeSimilarGuesses(gs: seq<Guess>, p: string, rule: Rule) returns (rest: seq<Guess>, out: Outcome)
    requires Distinct(gs) && SimilarReady(Snap(gs), p, rule)
    modifies set g | g in gs
    ensures (Snap(rest), out) == MergeSimilar(old(Snap(gs)), p, rule)
    ensures Distinct(rest) && forall g :: g in rest ==> g in gs
    decreases Count(Snap(gs), p)
  {
    ghost var s := Snap(gs);
    var n := Count(Snap(gs), p);
    if n < 2 {
      return gs, Settled;
    }
    MergeStepProgress(s, p, rule);
    rest := MergeSimilarNoCheck(gs, p, rule);
    ghost var step := MergeStep(s, p, rule);
    assert Snap(rest) == step;
    if n == 2 {
      return rest, Settled;
    }
    if Count(Snap(rest), p) == n {
      assert Bails(s, p);
      return rest, NoProgress;
    }
    var rest2;
    rest2, out := MergeSimilarGuesses(rest, p, rule);
    rest := rest2;
  }

  /** The states of two lists joined are the two lists of states joined. */
  lemma SnapConcat(a: seq<Guess>, b: seq<Guess>)
    ensures Snap(a + b) == Snap(a) + Snap(b)
  {
    var t, u := Snap(a + b), Snap(a) + Snap(b);
    assert forall k :: 0 <= k < |t| ==> t[k] == u[k];
  }

  /** One more position adds its guess to the non-carriers when it lacks p. */
  lemma NonCarriersSnoc(s: seq<Record>, p: string, lo: nat, k: nat)
    requires lo <= k < |s|
    ensures NonCarriersIn(s, p, lo, k + 1) == NonCarriersIn(s, p, lo, k) + (if p in s[k].vals then [] else [s[k]])
  {
    NonCarriersSplit(s, p, lo, k, k + 1);
    assert NonCarriersIn(s, p, k + 1, k + 1) == [];
  }

  /** The guesses at positions lo..hi-1 whose states in s lack p, in list order. */
  ghost function Pick(gs: seq<Guess>, s: seq<Record>, p: string, lo: nat, hi: nat): seq<Guess>
    requires lo <= hi <= |gs| == |s|
    decreases hi - lo
  {
    if lo == hi then [] else Pick(gs, s, p, lo, hi - 1) + (if p in s[hi - 1].vals then [] else [gs[hi - 1]])
  }

  /** While those guesses are still in the states s, theirs are the non-carriers of s. */
  lemma {:induction false} SnapPick(gs: seq<Guess>, s: seq<Record>, p: string, lo: nat, hi: nat)
    requires lo <= hi <= |gs| == |s|
    requires forall j :: lo <= j < hi ==> gs[j].Snapshot() == s[j]
    ensures Snap(Pick(gs, s, p, lo, hi)) == NonCarriersIn(s, p, lo, hi)
    decreases hi - lo
  {
    if lo < hi {
      SnapPick(gs, s, p, lo, hi - 1);
      NonCarriersSnoc(s, p, lo, hi - 1);
      SnapConcat(Pick(gs, s, p, lo, hi - 1), if p in s[hi - 1].vals then [] else [gs[hi - 1]]);
    }
  }

  /** The inner loop of merge_append_guesses over the properties of a later carrier m:
      its value of p is appended to merged's list; any other property reaches the
      warning, which raises. */
  method AbsorbGuess(merged: Guess, m: Guess, p: string) returns (crashed: bool)
    requires merged != m && Appending(merged.Snapshot(), p) && p in m.vals
    modifies merged
    ensures crashed <==> m.vals.Keys != {p}
    ensures !crashed ==> merged.Snapshot() == Absorb(old(merged.Snapshot()), m.Snapshot(), p)
  {
    ghost var before := merged.Snapshot();
    var todo := m.vals.Keys;
    while todo != {}
      invariant todo <= m.vals.Keys && m.vals.Keys - todo <= {p}
      invariant merged.Snapshot() == (if p in todo then before
        else Record(before.vals[p := List(before.vals[p].items + [m.vals[p]])], before.conf))
      decreases todo
    {
      var q :| q in todo;
      if q != p {
        return true;
      }
      merged.Set(p, List(merged.vals[p].items + [m.vals[p]]));
      todo := todo - {q};
    }
    assert m.vals.Keys == {p};
    assert m.vals - {p} == map[];
    return false;
  }

  /** The loop of merge_append_guesses over the later carriers, from a started merged
      guess at position i1 on: every later carrier is absorbed into merged and dropped,
      and the guesses without p are kept in `tail`, in order. */
  method AbsorbLater(gs: seq<Guess>, p: string, i1: nat, merged: Guess, ghost s: seq<Record>)
      returns (tail: seq<Guess>, crashed: bool)
    requires Distinct(gs) && |s| == |gs| && Count(s, p) > 0 && i1 == FirstCarrier(s, p)
    requires merged == gs[i1] && merged.Snapshot() == Started(s[i1], p)
    requires forall j :: 0 <= j < |gs| && j != i1 ==> gs[j].Snapshot() == s[j]
    modifies merged
    ensures crashed <==> AppendCrashes(s, p)
    ensures !crashed ==> merged.Snapshot() == Collected(s, p)
    ensures !crashed ==> Snap(tail) == NonCarriersIn(s, p, i1 + 1, |gs|)
    ensures forall g :: g in tail ==> g in gs
  {
    tail := [];
    var k := i1 + 1;
    while k < |gs|
      invariant i1 < k <= |gs|
      invariant Appending(merged.Snapshot(), p)
      invariant AbsorbFrom(merged.Snapshot(), s, p, k) == Collected(s, p)
      invariant forall j :: i1 < j < k && p in s[j].vals ==> s[j].vals.Keys == {p}
      invariant forall j :: 0 <= j < |gs| && j != i1 ==> gs[j].Snapshot() == s[j]
      invariant tail == Pick(gs, s, p, i1 + 1, k)
      invariant forall g :: g in tail ==> g in gs
    {
      var m := gs[k];
      if p in m.vals {
        crashed := AbsorbGuess(merged, m, p);
        if crashed {
          return;
        }
        // guesses.remove(m): m is left out of the rebuilt list.
        assert Pick(gs, s, p, i1 + 1, k + 1) == tail + [] == tail;
      } else {
        tail := tail + [m];
      }
      k := k + 1;
    }
    SnapPick(gs, s, p, i1 + 1, |gs|);
    crashed := false;
  }

  /** merge_append_guesses(guesses, prop). The first carrier of p collects every
      carrier's value of p in a list and the later carriers leave the list. The warning
      on a later carrier's other properties always fires and raises TypeError; `crashed`
      reports it, and the state it leaves is not described. */
  method MergeAppendGuesses(gs: seq<Guess>, p: string) returns (rest: seq<Guess>, crashed: bool)
    requires Distinct(gs)
    modifies set g | g in gs
    ensures crashed <==> AppendCrashes(old(Snap(gs)), p)
    ensures !crashed ==> Snap(rest) == MergeAppend(old(Snap(gs)), p)
    ensures !crashed ==> forall g :: g in rest ==> g in gs
    ensures Count(old(Snap(gs)), p) > 0 ==>
      forall k :: 0 <= k < |gs| && k != FirstCarrier(old(Snap(gs)), p) ==> gs[k].Snapshot() == old(gs[k].Snapshot())
  {
    ghost var s := Snap(gs);
    if Count(Snap(gs), p) == 0 {
      return gs, false;
    }
    var i1 := FirstCarrier(Snap(gs), p);
    var merged := gs[i1];
    merged.Set(p, List([merged.vals[p]]));
    var tail;
    tail, crashed := AbsorbLater(gs, p, i1, merged, s);
    if crashed {
      return gs, true;
    }
    rest := gs[..i1 + 1] + tail;
    SnapConcat(gs[..i1 + 1], tail);
    assert Snap(gs[..i1 + 1]) == s[..i1] + [Collected(s, p)];
  }

  /** The first loop of merge_all's body: each append property g holds is appended to
      the result's list, with g's confidence, and deleted from g. */
  method AppendInto(result: Guess, g: Guess, append: seq<string>)
    requires result != g && Covered(result.Snapshot()) && Covered(g.Snapshot())
    requires AppendLists(result.Snapshot(), append)
    modifies result, g
    ensures (result.Snapshot(), g.Snapshot()) == AppendProps(old(result.Snapshot()), old(g.Snapshot()), append, 0)
  {
    ghost var r0, g0 := result.Snapshot(), g.Snapshot();
    var a := 0;
    while a < |append|
      invariant a <= |append| && Covered(result.Snapshot()) && Covered(g.Snapshot())
      invariant AppendLists(result.Snapshot(), append)
      invariant AppendProps(result.Snapshot(), g.Snapshot(), append, a) == AppendProps(r0, g0, append, 0)
    {
      var prop := append[a];
      if prop in g.vals {
        var prior := if prop in result.vals then result.vals[prop].items else [];
        result.Set(prop, List(prior + [g.vals[prop]]), Some(g.conf[prop]));
        g.Del(prop);
      }
      a := a + 1;
    }
  }

  /** The loop deleting very unlikely values. `result.keys()` is a copy of the keys, so
      deleting inside the loop is safe. */
  method PruneUnlikely(result: Guess)
    requires Covered(result.Snapshot())
    modifies result
    ensures result.Snapshot() == Prune(old(result.Snapshot()))
  {
    ghost var r0 := result.Snapshot();
    var todo := result.vals.Keys;
    while todo != {}
      invariant todo <= r0.vals.Keys && result.conf == r0.conf
      invariant forall q :: q in result.vals <==> q in r0.vals && (q in todo || r0.conf[q] >= Threshold)
      invariant forall q :: q in result.vals ==> result.vals[q] == r0.vals[q]
      decreases todo
    {
      var q :| q in todo;
      if result.conf[q] < Threshold {
        result.Del(q);
      }
      todo := todo - {q};
    }
    assert result.vals == Prune(r0).vals;
  }

  /** The loop making the append properties' lists unique, `list(set(result[prop]))`.
      The order of a set's elements is not determined; last occurrences are kept here,
      and the contract allows any order. */
  method Deduplicate(result: Guess, append: seq<string>)
    requires HashableLists(result.Snapshot(), append)
    modifies result
    ensures Deduplicated(result.Snapshot(), old(result.Snapshot()), append)
  {
    ghost var r0 := result.Snapshot();
    var a := 0;
    while a < |append|
      invariant a <= |append| && result.conf == r0.conf && result.vals.Keys == r0.vals.Keys
      invariant forall q :: q in r0.vals && q !in append[..a] ==> result.vals[q] == r0.vals[q]
      invariant forall q :: q in r0.vals && q in append[..a] ==>
        && result.vals[q].List? && r0.vals[q].List? && NoDuplicates(result.vals[q].items)
        && Elements(result.vals[q].items) == Elements(r0.vals[q].items)
    {
      var prop := append[a];
      assert append[..a + 1] == append[..a] + [prop];
      if prop in result.vals {
        result.Set(prop, List(Unique(result.vals[prop].items)));
      }
      a := a + 1;
    }
    assert append[..a] == append;
  }

  /** The loop of merge_all over `guesses[1:]`: the first guess absorbs each later guess
      in turn, and each later guess loses its append properties. */
  method FoldLater(guesses: seq<Guess>, append: seq<string>)
    requires |guesses| > 0 && Distinct(guesses) && MergeAllReady(Snap(guesses), append)
    modifies set g | g in guesses
    ensures guesses[0].Snapshot() == Folded(old(Snap(guesses)), append)
    ensures forall k :: 1 <= k < |guesses| ==> guesses[k].Snapshot() == StripFrom(old(guesses[k].Snapshot()), append, 0)
  {
    ghost var s := Snap(guesses);
    var result := guesses[0];
    var i := 1;
    while i < |guesses|
      invariant 1 <= i <= |guesses|
      invariant Covered(result.Snapshot()) && AppendLists(result.Snapshot(), append)
      invariant Fold(result.Snapshot(), s, append, i) == Folded(s, append)
      invariant forall k :: i <= k < |guesses| ==> guesses[k].Snapshot() == s[k]
      invariant forall k :: 1 <= k < i ==> guesses[k].Snapshot() == StripFrom(s[k], append, 0)
    {
      var g := guesses[i];
      ghost var r0 := result.Snapshot();
      AppendInto(result, g, append);
      AppendPropsStrips(r0, s[i], append, 0);
      result.UpdateHighestConfidence(g);
      assert result.Snapshot() == FoldStep(r0, s[i], append);
      i := i + 1;
    }
  }

  /** merge_all(guesses, append): an empty list gives a new empty Guess; otherwise the
      first guess absorbs every later one, is pruned and deduplicated, and is returned.
      The later guesses lose their append properties. */
  method MergeAll(guesses: seq<Guess>, append: seq<string> := []) returns (result: Guess)
    requires Distinct(guesses) && MergeAllReady(Snap(guesses), append)
    modifies set g | g in guesses
    ensures MergedAll(old(Snap(guesses)), append, result.Snapshot())
    ensures |guesses| == 0 ==> fresh(result)
    ensures |guesses| > 0 ==> result == guesses[0]
    ensures forall k :: 1 <= k < |guesses| ==> guesses[k].Snapshot() == StripFrom(old(guesses[k].Snapshot()), append, 0)
  {
    if |guesses| == 0 {
      result := new Guess(map[]);
      assert result.Snapshot() == Empty;
      return;
    }
    ghost var s := Snap(guesses);
    FoldLater(guesses, append);
    result := guesses[0];
    ghost var folded := result.Snapshot();
    FoldedHashable(s, append);
    PruneUnlikely(result);
    PruneKeeps(folded);
    Deduplicate(result, append);
  }
}
