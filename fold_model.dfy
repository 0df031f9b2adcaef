/** merge_all of guessit/guess.py stated on values: the first guess absorbs every later
    one in turn, appending the append properties into lists and otherwise keeping the
    best-supported value of each property; very unlikely properties are then dropped and
    the appended lists deduplicated. */
module FoldModel {
  import opened Values
  import opened Records
  import opened Carriers

  /** Each property of r named in append holds a list, so that
      `result.get(prop, []) + [g[prop]]` concatenates instead of raising TypeError. */
  predicate AppendLists(r: Record, append: seq<string>) {
    forall q :: q in append && q in r.vals ==> r.vals[q].List?
  }

  /** `result.get(prop, [])`, as a list of values. */
  function Prior(r: Record, q: string): seq<Value>
    requires q in r.vals ==> r.vals[q].List?
  {
    if q in r.vals then r.vals[q].items else []
  }

  /** r and s agree on property q: the same value, or both without one, and the same
      confidence entry, or both without one. */
  predicate SameAt(r: Record, s: Record, q: string) {
    && (q in r.vals <==> q in s.vals) && (q in r.vals ==> r.vals[q] == s.vals[q])
    && (q in r.conf <==> q in s.conf) && (q in r.conf ==> r.conf[q] == s.conf[q])
  }

  /** g once the loop over append has deleted the properties append[a..] from it. */
  function StripFrom(g: Record, append: seq<string>, a: nat): Record
    requires a <= |append|
  {
    Record(map q | q in g.vals && q !in append[a..] :: g.vals[q], g.conf)
  }

  /** The first loop of merge_all's body for one later guess g, from append[a] on: each
      append property g holds is appended to the result's list with g's confidence, and
      deleted from g. */
  function AppendProps(res: Record, g: Record, append: seq<string>, a: nat): (out: (Record, Record))
    requires a <= |append| && Covered(res) && Covered(g) && AppendLists(res, append)
    ensures Covered(out.0) && Covered(out.1) && AppendLists(out.0, append)
    decreases |append| - a
  {
    if a == |append| then (res, g)
    else
      var q := append[a];
      if q in g.vals then
        AppendProps(SetValue(res, q, List(Prior(res, q) + [g.vals[q]]), Some(g.conf[q])),
                    Delete(g, q), append, a + 1)
      else AppendProps(res, g, append, a + 1)
  }

  /** The loop deletes exactly the append properties from g, and nothing else. */
  lemma {:induction false} AppendPropsStrips(res: Record, g: Record, append: seq<string>, a: nat)
    requires a <= |append| && Covered(res) && Covered(g) && AppendLists(res, append)
    ensures AppendProps(res, g, append, a).1 == StripFrom(g, append, a)
    decreases |append| - a
  {
    if a < |append| {
      var q := append[a];
      assert append[a..] == [q] + append[a + 1..];
      var g' := if q in g.vals then Delete(g, q) else g;
      var res' := if q in g.vals then
        SetValue(res, q, List(Prior(res, q) + [g.vals[q]]), Some(g.conf[q])) else res;
      AppendPropsStrips(res', g', append, a + 1);
      assert StripFrom(g', append, a + 1).vals == StripFrom(g, append, a).vals;
    } else {
      assert StripFrom(g, append, a).vals == g.vals;
    }
  }

  /** For one property q, the loop appends g's value of q to the result's list and
      takes g's confidence when q is still to be handled and g holds it, and otherwise
      leaves q as it was. */
  lemma {:induction false} AppendPropsAt(res: Record, g: Record, append: seq<string>, a: nat, q: string)
    requires a <= |append| && Covered(res) && Covered(g) && AppendLists(res, append)
    ensures var r := AppendProps(res, g, append, a).0;
      && (q in append[a..] && q in g.vals ==>
            q in r.vals && r.vals[q] == List(Prior(res, q) + [g.vals[q]]) && r.conf[q] == g.conf[q])
      && (!(q in append[a..] && q in g.vals) ==> SameAt(r, res, q))
    decreases |append| - a
  {
    if a < |append| {
      var q0 := append[a];
      assert append[a..] == [q0] + append[a + 1..];
      if q0 in g.vals {
        var res' := SetValue(res, q0, List(Prior(res, q0) + [g.vals[q0]]), Some(g.conf[q0]));
        AppendPropsAt(res', Delete(g, q0), append, a + 1, q);
      } else {
        AppendPropsAt(res, g, append, a + 1, q);
      }
    }
  }

  /** One pass of merge_all's loop over `guesses[1:]`: the append properties first, then
      update_highest_confidence with what is left of g. */
  function FoldStep(res: Record, g: Record, append: seq<string>): (r: Record)
    requires Covered(res) && Covered(g) && AppendLists(res, append)
    ensures Covered(r) && AppendLists(r, append)
  {
    var out := AppendProps(res, g, append, 0);
    AppendPropsStrips(res, g, append, 0);
    UpdateHighestWins(out.0, out.1);
    UpdateHighest(out.0, out.1)
  }

  /** Property by property: an append property g holds is appended with g's confidence;
      any other property g holds is settled by the higher confidence, a tie keeping the
      result's value; every property g lacks stays as it was. */
  lemma FoldStepAt(res: Record, g: Record, append: seq<string>, q: string)
    requires Covered(res) && Covered(g) && AppendLists(res, append)
    ensures var r := FoldStep(res, g, append);
      && (q in append && q in g.vals ==>
            q in r.vals && r.vals[q] == List(Prior(res, q) + [g.vals[q]]) && r.conf[q] == g.conf[q])
      && (q !in append && q in g.vals && !(q in res.vals && res.conf[q] >= g.conf[q]) ==>
            q in r.vals && r.vals[q] == g.vals[q] && r.conf[q] == g.conf[q])
      && (q !in append && q in g.vals && q in res.vals && res.conf[q] >= g.conf[q] ==> SameAt(r, res, q))
      && (q !in g.vals ==> SameAt(r, res, q))
  {
    var out := AppendProps(res, g, append, 0);
    AppendPropsStrips(res, g, append, 0);
    AppendPropsAt(res, g, append, 0, q);
    assert append[0..] == append;
    UpdateHighestWins(out.0, out.1);
  }

  /** Every guess from position k on has a confidence for each of its properties, as
      `g.confidence(prop)` and update_highest_confidence read them. */
  predicate CoveredFrom(gs: seq<Record>, k: nat) {
    forall j :: k <= j < |gs| ==> Covered(gs[j])
  }

  /** The result after the guesses at positions k and later have been folded into res. */
  function Fold(res: Record, gs: seq<Record>, append: seq<string>, k: nat): (r: Record)
    requires k <= |gs| && Covered(res) && AppendLists(res, append) && CoveredFrom(gs, k)
    ensures Covered(r) && AppendLists(r, append)
    decreases |gs| - k
  {
    if k == |gs| then res else Fold(FoldStep(res, gs[k], append), gs, append, k + 1)
  }

  /** A property no later guess holds is left as it was. */
  lemma {:induction false} FoldUntouched(res: Record, gs: seq<Record>, append: seq<string>, k: nat, q: string)
    requires k <= |gs| && Covered(res) && AppendLists(res, append) && CoveredFrom(gs, k)
    requires CountIn(gs, q, k, |gs|) == 0
    ensures SameAt(Fold(res, gs, append, k), res, q)
    decreases |gs| - k
  {
    if k < |gs| {
      FoldStepAt(res, gs[k], append, q);
      FoldUntouched(FoldStep(res, gs[k], append), gs, append, k + 1, q);
    }
  }

  /** An append property collects, after the result's own list, the value of every
      later guess that holds it, in list order. */
  lemma {:induction false} FoldAppends(res: Record, gs: seq<Record>, append: seq<string>, k: nat, q: string)
    requires k <= |gs| && Covered(res) && AppendLists(res, append) && CoveredFrom(gs, k)
    requires q in append
    ensures var r := Fold(res, gs, append, k);
      && (q in r.vals <==> q in res.vals || CountIn(gs, q, k, |gs|) > 0)
      && (q in r.vals ==> r.vals[q] == List(Prior(res, q) + CarrierValuesIn(gs, q, k, |gs|)))
    decreases |gs| - k
  {
    if k < |gs| {
      var next := FoldStep(res, gs[k], append);
      FoldStepAt(res, gs[k], append, q);
      FoldAppends(next, gs, append, k + 1, q);
      var rest := CarrierValuesIn(gs, q, k + 1, |gs|);
      if q in gs[k].vals {
        assert CarrierValuesIn(gs, q, k, |gs|) == [gs[k].vals[q]] + rest;
        assert Prior(res, q) + ([gs[k].vals[q]] + rest) == (Prior(res, q) + [gs[k].vals[q]]) + rest;
      } else {
        assert CarrierValuesIn(gs, q, k, |gs|) == [] + rest == rest;
      }
    }
  }

  /** The last guess that holds p from position k on is at j. */
  predicate LastCarrier(gs: seq<Record>, q: string, k: nat, j: int) {
    k <= j < |gs| && q in gs[j].vals && CountIn(gs, q, j + 1, |gs|) == 0
  }

  /** An append property ends with the confidence of the last guess that held it. */
  lemma {:induction false} FoldAppendConfidence(res: Record, gs: seq<Record>, append: seq<string>, k: nat, q: string, j: int)
    requires k <= |gs| && Covered(res) && AppendLists(res, append) && CoveredFrom(gs, k)
    requires q in append && LastCarrier(gs, q, k, j)
    ensures q in Fold(res, gs, append, k).conf && Fold(res, gs, append, k).conf[q] == gs[j].conf[q]
    decreases |gs| - k
  {
    var next := FoldStep(res, gs[k], append);
    FoldStepAt(res, gs[k], append, q);
    if j > k {
      FoldAppendConfidence(next, gs, append, k + 1, q, j);
    } else {
      FoldUntouched(next, gs, append, k + 1, q);
    }
  }

  /** Any other property ends up held exactly when the result or a later guess held it,
      with a confidence no lower than any of theirs. */
  lemma {:induction false} FoldHighest(res: Record, gs: seq<Record>, append: seq<string>, k: nat, q: string)
    requires k <= |gs| && Covered(res) && AppendLists(res, append) && CoveredFrom(gs, k)
    requires q !in append
    ensures var r := Fold(res, gs, append, k);
      && (q in r.vals <==> q in res.vals || CountIn(gs, q, k, |gs|) > 0)
      && (q in res.vals ==> r.conf[q] >= res.conf[q])
      && (forall j :: k <= j < |gs| && q in gs[j].vals ==> q in r.conf && r.conf[q] >= gs[j].conf[q])
    decreases |gs| - k
  {
    if k < |gs| {
      var next := FoldStep(res, gs[k], append);
      FoldStepAt(res, gs[k], append, q);
      FoldHighest(next, gs, append, k + 1, q);
    }
  }

  /** ... and with the value of the first of them, in list order, that had this highest
      confidence: the result's own value unless a later guess was strictly more
      confident, and otherwise the value of the earliest later guess of that confidence. */
  lemma {:induction false} FoldWinner(res: Record, gs: seq<Record>, append: seq<string>, k: nat, q: string)
    requires k <= |gs| && Covered(res) && AppendLists(res, append) && CoveredFrom(gs, k)
    requires q !in append && q in Fold(res, gs, append, k).vals
    ensures var r := Fold(res, gs, append, k);
      || (q in res.vals && r.vals[q] == res.vals[q] && r.conf[q] == res.conf[q])
      || (exists j :: k <= j < |gs| && q in gs[j].vals
            && r.vals[q] == gs[j].vals[q] && r.conf[q] == gs[j].conf[q]
            && (q in res.vals ==> res.conf[q] < r.conf[q])
            && (forall i :: k <= i < j && q in gs[i].vals ==> gs[i].conf[q] < r.conf[q]))
    decreases |gs| - k
  {
    var r := Fold(res, gs, append, k);
    if k < |gs| {
      var next := FoldStep(res, gs[k], append);
      FoldStepAt(res, gs[k], append, q);
      FoldWinner(next, gs, append, k + 1, q);
      FoldHighest(next, gs, append, k + 1, q);
      if q in next.vals && r.vals[q] == next.vals[q] && r.conf[q] == next.conf[q] {
        if !(SameAt(next, res, q)) {
          assert r.vals[q] == gs[k].vals[q] && r.conf[q] == gs[k].conf[q];
        }
      } else {
        var j :| k + 1 <= j < |gs| && q in gs[j].vals
            && r.vals[q] == gs[j].vals[q] && r.conf[q] == gs[j].conf[q]
            && (q in next.vals ==> next.conf[q] < r.conf[q])
            && (forall i :: k + 1 <= i < j && q in gs[i].vals ==> gs[i].conf[q] < r.conf[q]);
        assert forall i :: k <= i < j && q in gs[i].vals ==> gs[i].conf[q] < r.conf[q];
      }
    }
  }

  // ---------------------------------------------------------------------------
  // Pruning, deduplication and the whole of merge_all

  /** Properties less likely than this are deleted from the merged result. */
  const Threshold: real := 0.05

  /** The loop deleting very unlikely values (`del result[p]`, which leaves the
      confidence entry behind). */
  function Prune(r: Record): Record
    requires Covered(r)
  {
    Record(map q | q in r.vals && r.conf[q] >= Threshold :: r.vals[q], r.conf)
  }

  /** Pruning keeps exactly the properties at or above the threshold, unchanged, and
      pruning again changes nothing. */
  lemma PruneKeeps(r: Record)
    requires Covered(r)
    ensures Covered(Prune(r)) && Prune(r).vals.Keys <= r.vals.Keys && Prune(r).conf == r.conf
    ensures forall q :: q in r.vals ==> (q in Prune(r).vals <==> r.conf[q] >= Threshold)
    ensures forall q :: q in Prune(r).vals ==> Prune(r).vals[q] == r.vals[q]
    ensures Prune(Prune(r)) == Prune(r)
  {
    assert Prune(Prune(r)).vals == Prune(r).vals;
  }

  /** An append property's list may only hold hashable values, or `set(result[prop])`
      raises TypeError. */
  predicate HashableLists(r: Record, append: seq<string>) {
    forall q :: q in append && q in r.vals ==>
      r.vals[q].List? && forall i :: 0 <= i < |r.vals[q].items| ==> Hashable(r.vals[q].items[i])
  }

  /** d is r once every append property's list has been replaced by `list(set(...))`:
      the same values without repetition, in some order. */
  predicate Deduplicated(d: Record, r: Record, append: seq<string>) {
    && d.conf == r.conf && d.vals.Keys == r.vals.Keys
    && (forall q :: q in r.vals && q !in append ==> d.vals[q] == r.vals[q])
    && (forall q :: q in r.vals && q in append ==>
          d.vals[q].List? && r.vals[q].List? && NoDuplicates(d.vals[q].items)
          && Elements(d.vals[q].items) == Elements(r.vals[q].items))
  }

  /** What merge_all reads without raising: every guess covered, the first guess's
      append properties lists of hashable values, and the later guesses' append
      properties hashable values. */
  predicate MergeAllReady(gs: seq<Record>, append: seq<string>) {
    && CoveredFrom(gs, 0)
    && (|gs| > 0 ==> HashableLists(gs[0], append))
    && (forall j :: 1 <= j < |gs| ==>
          forall q :: q in append && q in gs[j].vals ==> Hashable(gs[j].vals[q]))
  }

  /** The first guess with every later one folded in, before pruning. */
  function Folded(gs: seq<Record>, append: seq<string>): (r: Record)
    requires |gs| > 0 && MergeAllReady(gs, append)
    ensures Covered(r)
  {
    Fold(gs[0], gs, append, 1)
  }

  /** d is a possible result of merge_all(guesses, append): an empty Guess for an empty
      list, and otherwise the folded guess, pruned and deduplicated. */
  predicate MergedAll(gs: seq<Record>, append: seq<string>, d: Record)
    requires MergeAllReady(gs, append)
  {
    if |gs| == 0 then d == Empty else Deduplicated(d, Prune(Folded(gs, append)), append)
  }

  /** The values collected from guesses whose append values are hashable are hashable. */
  lemma CarrierValuesHashable(gs: seq<Record>, q: string, lo: nat, hi: nat, append: seq<string>)
    requires lo <= hi <= |gs| && q in append
    requires forall j :: lo <= j < hi ==> forall p :: p in append && p in gs[j].vals ==> Hashable(gs[j].vals[p])
    ensures forall i :: 0 <= i < |CarrierValuesIn(gs, q, lo, hi)| ==> Hashable(CarrierValuesIn(gs, q, lo, hi)[i])
    decreases hi - lo
  {
    if lo < hi {
      CarrierValuesHashable(gs, q, lo + 1, hi, append);
      var rest := CarrierValuesIn(gs, q, lo + 1, hi);
      var all := CarrierValuesIn(gs, q, lo, hi);
      if q in gs[lo].vals {
        assert all == [gs[lo].vals[q]] + rest;
        assert forall i :: 1 <= i < |all| ==> all[i] == rest[i - 1];
      } else {
        assert all == [] + rest;
      }
    }
  }

  /** The folded guess's append lists hold hashable values only, so deduplicating them
      cannot raise. */
  lemma FoldedHashable(gs: seq<Record>, append: seq<string>)
    requires |gs| > 0 && MergeAllReady(gs, append)
    ensures HashableLists(Folded(gs, append), append)
  {
    forall q | q in append && q in Folded(gs, append).vals
      ensures forall i :: 0 <= i < |Folded(gs, append).vals[q].items| ==> Hashable(Folded(gs, append).vals[q].items[i])
    {
      FoldAppends(gs[0], gs, append, 1, q);
      CarrierValuesHashable(gs, q, 1, |gs|, append);
      var pre, vs := Prior(gs[0], q), CarrierValuesIn(gs, q, 1, |gs|);
      assert forall i :: |pre| <= i < |pre + vs| ==> (pre + vs)[i] == vs[i - |pre|];
    }
  }

  /** Every property merge_all returns is at least Threshold likely. */
  lemma MergedAllLikely(gs: seq<Record>, append: seq<string>, d: Record)
    requires MergeAllReady(gs, append) && MergedAll(gs, append, d)
    ensures forall q :: q in d.vals ==> q in d.conf && d.conf[q] >= Threshold
  {
    if |gs| > 0 {
      PruneKeeps(Folded(gs, append));
    }
  }

  /** An append property is returned exactly when some guess holds it and its final
      confidence reaches the threshold; it is then a list of the first guess's own values
      and every later guess's value, each once, and carries the confidence of the last
      guess that held it. */
  lemma MergedAllAppends(gs: seq<Record>, append: seq<string>, d: Record, q: string)
    requires MergeAllReady(gs, append) && MergedAll(gs, append, d) && |gs| > 0 && q in append
    ensures q in d.vals <==> Count(gs, q) > 0 && q in d.conf && d.conf[q] >= Threshold
    ensures q in d.vals ==>
      && d.vals[q].List? && NoDuplicates(d.vals[q].items)
      && Elements(d.vals[q].items) == Elements(Prior(gs[0], q) + CarrierValuesIn(gs, q, 1, |gs|))
    ensures forall j :: LastCarrier(gs, q, 1, j) ==> q in d.conf && d.conf[q] == gs[j].conf[q]
    ensures CountIn(gs, q, 1, |gs|) == 0 && q in gs[0].vals ==> q in d.conf && d.conf[q] == gs[0].conf[q]
  {
    var r := Folded(gs, append);
    FoldAppends(gs[0], gs, append, 1, q);
    PruneKeeps(r);
    forall j | LastCarrier(gs, q, 1, j) ensures q in d.conf && d.conf[q] == gs[j].conf[q] {
      FoldAppendConfidence(gs[0], gs, append, 1, q, j);
    }
    if CountIn(gs, q, 1, |gs|) == 0 {
      FoldUntouched(gs[0], gs, append, 1, q);
    }
  }

  /** Any other property is returned exactly when some guess holds it and its best
      confidence reaches the threshold; it then has the best confidence of all the
      guesses that held it, and the value of the first of them with that confidence. */
  lemma MergedAllBest(gs: seq<Record>, append: seq<string>, d: Record, q: string)
    requires MergeAllReady(gs, append) && MergedAll(gs, append, d) && |gs| > 0 && q !in append
    ensures q in d.vals <==> Count(gs, q) > 0 && q in d.conf && d.conf[q] >= Threshold
    ensures forall j :: 0 <= j < |gs| && q in gs[j].vals ==> q in d.conf && d.conf[q] >= gs[j].conf[q]
    ensures q in d.vals ==>
      exists j :: && 0 <= j < |gs| && q in gs[j].vals
                  && d.vals[q] == gs[j].vals[q] && d.conf[q] == gs[j].conf[q]
                  && (forall i :: 0 <= i < j && q in gs[i].vals ==> gs[i].conf[q] < d.conf[q])
  {
    var r := Folded(gs, append);
    FoldHighest(gs[0], gs, append, 1, q);
    PruneKeeps(r);
    if q in d.vals {
      FoldWinner(gs[0], gs, append, 1, q);
      if q in gs[0].vals && r.vals[q] == gs[0].vals[q] && r.conf[q] == gs[0].conf[q] {
        assert d.vals[q] == gs[0].vals[q];
      } else {
        var j :| 1 <= j < |gs| && q in gs[j].vals
            && r.vals[q] == gs[j].vals[q] && r.conf[q] == gs[j].conf[q]
            && (q in gs[0].vals ==> gs[0].conf[q] < r.conf[q])
            && (forall i :: 1 <= i < j && q in gs[i].vals ==> gs[i].conf[q] < r.conf[q]);
        assert forall i :: 0 <= i < j && q in gs[i].vals ==> gs[i].conf[q] < d.conf[q];
      }
    }
  }

  /** A single guess is merged with nothing: merge_all prunes and deduplicates it. On a
      guess already free of unlikely properties, every property stays, the others with
      their values and each append property with the same values, once each. */
  lemma MergedAllSingle(g: Record, append: seq<string>, d: Record)
    requires MergeAllReady([g], append) && MergedAll([g], append, d)
    ensures Deduplicated(d, Prune(g), append)
    ensures Prune(g) == g ==> d.vals.Keys == g.vals.Keys && d.conf == g.conf
    ensures Prune(g) == g ==> forall q :: q in g.vals && q !in append ==> d.vals[q] == g.vals[q]
  {
    assert Folded([g], append) == g;
  }

  /** Two guesses without an append property: the result is the first guess updated
      with the second by highest confidence, pruned. */
  lemma MergedAllPair(g0: Record, g1: Record, d: Record)
    requires MergeAllReady([g0, g1], []) && MergedAll([g0, g1], [], d)
    ensures d == Prune(UpdateHighest(g0, g1))
  {
    var gs := [g0, g1];
    assert AppendProps(g0, g1, [], 0) == (g0, g1);
    var u := UpdateHighest(g0, g1);
    assert FoldStep(g0, g1, []) == u;
    assert Fold(u, gs, [], 2) == u;
    assert Folded(gs, []) == Fold(FoldStep(g0, gs[1], []), gs, [], 2);
    assert d.vals == Prune(u).vals;
  }

  /** The first doctest of merge_all: two guesses with different properties unite. */
  lemma MergedAllDisjointExample(s: string, e: string, d: Record)
    requires s == "season" && e == "episodeNumber"
    requires MergeAllReady([New(map[s := Int(2)], 0.6), New(map[e := Int(13)], 0.8)], [])
    requires MergedAll([New(map[s := Int(2)], 0.6), New(map[e := Int(13)], 0.8)], [], d)
    ensures d.vals == map[s := Int(2), e := Int(13)]
  {
    var g0, g1 := New(map[s := Int(2)], 0.6), New(map[e := Int(13)], 0.8);
    MergedAllPair(g0, g1, d);
    var u := UpdateHighest(g0, g1);
    UpdateHighestDisjoint(g0, g1);
    assert u.conf[s] == 0.6 && u.conf[e] == 0.8;
    assert Prune(u).vals == u.vals;
  }

  /** The second doctest: a property with confidence 0.02 is dropped. */
  lemma MergedAllDropsUnlikelyExample(s: string, e: string, d: Record)
    requires s == "season" && e == "episodeNumber"
    requires MergeAllReady([New(map[e := Int(27)], 0.02), New(map[s := Int(1)], 0.2)], [])
    requires MergedAll([New(map[e := Int(27)], 0.02), New(map[s := Int(1)], 0.2)], [], d)
    ensures d.vals == map[s := Int(1)]
  {
    var g0, g1 := New(map[e := Int(27)], 0.02), New(map[s := Int(1)], 0.2);
    MergedAllPair(g0, g1, d);
    var u := UpdateHighest(g0, g1);
    UpdateHighestDisjoint(g0, g1);
    assert u.conf[s] == 0.2 && u.conf[e] == 0.02;
    assert Prune(u).vals == map[s := Int(1)];
  }
}
