/** The Guess class of guessit/guess.py: a dict of property values with a parallel
    dict of per-property confidences, both updated in place. */
module Guesses {
  import opened Values
  import opened Records

  class Guess {
    /** The dict itself (Guess subclasses dict). */
    var vals: map<string, Value>
    /** The `_confidence` dict. */
    var conf: map<string, real>

    function Snapshot(): Record
      reads this
    {
      Record(vals, conf)
    }

    /** Guess(init, confidence=c), where c defaults to 0: every initial property gets c. */
    constructor (init: map<string, Value>, confidence: real := 0.0)
      ensures Snapshot() == New(init, confidence)
    {
      vals := init;
      conf := map[];
      new;
      var todo := init.Keys;
      while todo != {}
        invariant todo <= init.Keys && vals == init
        invariant conf == map p | p in init.Keys - todo :: confidence
        decreases todo
      {
        var p :| p in todo;
        conf := conf[p := confidence];
        todo := todo - {p};
      }
    }

    /** Guess.confidence(prop); None stands for the KeyError raised when prop has no entry. */
    function Confidence(p: string): (r: Option<real>)
      reads this
      ensures r.Some? <==> p in conf
      ensures r.Some? ==> r.value == conf[p]
    {
      if p in conf then Some(conf[p]) else None
    }

    /** Guess.set(prop, value, confidence=None). */
    method Set(p: string, v: Value, confidence: Option<real> := None)
      modifies this
      ensures Snapshot() == SetValue(old(Snapshot()), p, v, confidence)
    {
      vals := vals[p := v];
      if confidence.Some? {
        conf := conf[p := confidence.value];
      }
    }

    /** Guess.set_confidence(prop, value). */
    method SetConfidence(p: string, c: real)
      modifies this
      ensures Snapshot() == Records.SetConfidence(old(Snapshot()), p, c)
    {
      conf := conf[p := c];
    }

    /** `del g[prop]`, inherited from dict: the value goes, the confidence entry stays. */
    method Del(p: string)
      modifies this
      ensures Snapshot() == Delete(old(Snapshot()), p)
    {
      vals := vals - {p};
    }

    /** Guess.update(other, confidence=None) with another Guess: dict.update, then one loop
        copying other's confidences, then, when a confidence is given, a second loop
        overriding them. Reading other.confidence(prop) needs other to be covered. */
    method Update(other: Guess, confidence: Option<real> := None)
      requires Covered(other.Snapshot())
      modifies this
      ensures Snapshot() == UpdateFrom(old(Snapshot()), old(other.Snapshot()), confidence)
    {
      // The loops read other's dicts and write this guess's confidence dict. Both are taken
      // as local values first: when other is this object, every write stores the value
      // other already holds, so the live dicts read the same as the copies.
      var ov, oc := other.vals, other.conf;
      var c := conf;
      vals := vals + ov;
      var todo, done := ov.Keys, {};
      while todo != {}
        invariant todo + done == ov.Keys && todo !! done
        invariant c.Keys == old(conf).Keys + done
        invariant forall q :: q in done ==> c[q] == oc[q]
        invariant forall q :: q in old(conf) && q !in done ==> c[q] == old(conf)[q]
        decreases todo
      {
        var p :| p in todo;
        c := c[p := oc[p]];
        todo, done := todo - {p}, done + {p};
      }
      if confidence.Some? {
        ghost var c1 := c;
        todo, done := ov.Keys, {};
        while todo != {}
          invariant todo + done == ov.Keys && todo !! done
          invariant c.Keys == c1.Keys
          invariant forall q :: q in done ==> c[q] == confidence.value
          invariant forall q :: q in c1 && q !in done ==> c[q] == c1[q]
          decreases todo
        {
          var p :| p in todo;
          c := c[p := confidence.value];
          todo, done := todo - {p}, done + {p};
        }
      }
      conf := c;
      UpdatedFromExactly(old(Snapshot()), old(other.Snapshot()), confidence, Snapshot());
    }

    /** Guess.update(other, confidence=None) with a plain dict: the isinstance test fails,
        so only an explicit confidence touches the confidence dict. */
    method UpdateDict(other: map<string, Value>, confidence: Option<real> := None)
      modifies this
      ensures Snapshot() == UpdateFromDict(old(Snapshot()), other, confidence)
    {
      vals := vals + other;
      if confidence.Some? {
        var c := conf;
        var todo, done := other.Keys, {};
        while todo != {}
          invariant todo + done == other.Keys && todo !! done
          invariant c.Keys == old(conf).Keys + done
          invariant forall q :: q in done ==> c[q] == confidence.value
          invariant forall q :: q in old(conf) && q !in done ==> c[q] == old(conf)[q]
          decreases todo
        {
          var p :| p in todo;
          c := c[p := confidence.value];
          todo, done := todo - {p}, done + {p};
        }
        conf := c;
      }
      UpdatedFromDictExactly(old(Snapshot()), other, confidence, Snapshot());
    }

    /** Guess.update_highest_confidence(other): for each property of other, self keeps its
        own value when it has one with confidence at least other's, and otherwise adopts
        other's value and confidence. */
    method UpdateHighestConfidence(other: Guess)
      requires HighestReady(Snapshot(), other.Snapshot())
      modifies this
      ensures Snapshot() == UpdateHighest(old(Snapshot()), old(other.Snapshot()))
    {
      // A property is written at most once and only after it is tested, so when other is
      // this object, copies of the dicts read the same as the live ones.
      var ov, oc := other.vals, other.conf;
      var v, c := vals, conf;
      ghost var r0, o0 := Snapshot(), other.Snapshot();
      var todo, done := ov.Keys, {};
      while todo != {}
        invariant todo + done == ov.Keys && todo !! done
        invariant HighestOn(r0, o0, done, Record(v, c))
        decreases todo
      {
        var p :| p in todo;
        HighestOnStep(r0, o0, done, p, Record(v, c));
        if !(p in v && c[p] >= oc[p]) {
          v := v[p := ov[p]];
          c := c[p := oc[p]];
        }
        todo, done := todo - {p}, done + {p};
      }
      HighestOnExactly(r0, o0, Record(v, c));
      vals, conf := v, c;
    }
  }
}
