/** The state of a Guess as a value: its dict of property values and the parallel
    `_confidence` dict, with the closed form of each Guess operation. The class in
    guess.dfy is proved to perform exactly these updates. */
module Records {
  import opened Values

  datatype Record = Record(vals: map<string, Value>, conf: map<string, real>)

  /** Every property has a confidence entry. The rule engine hands over guesses in
      this state; the confidence dict may hold more keys than the value dict. */
  predicate Covered(r: Record) {
    r.vals.Keys <= r.conf.Keys
  }

  const Empty: Record := Record(map[], map[])

  /** Guess(init, confidence=c): every initial property gets confidence c. */
  function New(init: map<string, Value>, c: real): (r: Record)
    ensures Covered(r)
  {
    Record(init, map p | p in init :: c)
  }

  lemma NewUniform(init: map<string, Value>, c: real)
    ensures New(init, c).vals == init && New(init, c).conf.Keys == init.Keys
    ensures forall p :: p in init ==> New(init, c).conf[p] == c
  {
  }

  /** Guess.set(prop, value, confidence): the confidence entry changes only when one is given. */
  function SetValue(r: Record, p: string, v: Value, c: Option<real>): Record {
    Record(r.vals[p := v], if c.Some? then r.conf[p := c.value] else r.conf)
  }

  /** Guess.set_confidence(prop, value). */
  function SetConfidence(r: Record, p: string, c: real): Record {
    Record(r.vals, r.conf[p := c])
  }

  /** `del g[prop]`: only the value goes; the confidence entry stays behind. */
  function Delete(r: Record, p: string): (d: Record)
    ensures Covered(r) ==> Covered(d)
  {
    Record(r.vals - {p}, r.conf)
  }

  /** With a confidence, set keeps every property covered. Without one, a new property
      gets no confidence entry at all: it is not defaulted to 0. */
  lemma SetValueCoverage(r: Record, p: string, v: Value, c: Option<real>)
    ensures Covered(r) && c.Some? ==> Covered(SetValue(r, p, v, c))
    ensures Covered(r) && p in r.vals ==> Covered(SetValue(r, p, v, c))
    ensures c.None? && p !in r.conf ==> !Covered(SetValue(r, p, v, c))
  {
  }

  /** Guess.update(other, confidence) for another Guess: every property of other is copied
      with other's confidence, or with the explicit confidence when one is given. */
  function UpdateFrom(r: Record, o: Record, c: Option<real>): Record
    requires Covered(o)
  {
    Record(r.vals + o.vals,
           map p | p in r.conf.Keys + o.vals.Keys ::
             if p in o.vals then (if c.Some? then c.value else o.conf[p]) else r.conf[p])
  }

  /** u is what update(other, c) leaves, described property by property. */
  predicate UpdatedFrom(r: Record, o: Record, c: Option<real>, u: Record)
    requires Covered(o)
  {
    && u.vals == r.vals + o.vals
    && u.conf.Keys == r.conf.Keys + o.vals.Keys
    && (forall p :: p in o.vals ==> u.conf[p] == (if c.Some? then c.value else o.conf[p]))
    && (forall p :: p in r.conf && p !in o.vals ==> u.conf[p] == r.conf[p])
  }

  /** The description above holds of UpdateFrom and of nothing else. */
  lemma UpdatedFromExactly(r: Record, o: Record, c: Option<real>, u: Record)
    requires Covered(o)
    ensures UpdatedFrom(r, o, c, u) <==> u == UpdateFrom(r, o, c)
  {
    if UpdatedFrom(r, o, c, u) {
      var w := UpdateFrom(r, o, c);
      assert u.conf == w.conf;
    }
  }

  /** update keeps a covered guess covered. */
  lemma UpdateFromCovered(r: Record, o: Record, c: Option<real>)
    requires Covered(r) && Covered(o)
    ensures Covered(UpdateFrom(r, o, c))
  {
  }

  /** Copying the same guess twice changes nothing the first copy did not. */
  lemma UpdateFromIdempotent(r: Record, o: Record, c: Option<real>)
    requires Covered(o)
    ensures UpdateFrom(UpdateFrom(r, o, c), o, c) == UpdateFrom(r, o, c)
  {
    var u := UpdateFrom(r, o, c);
    var w := UpdateFrom(u, o, c);
    assert w.conf == u.conf;
  }

  /** Guess.update(other, confidence) for a plain dict: values are copied, and confidences
      change only when an explicit confidence is given. */
  function UpdateFromDict(r: Record, m: map<string, Value>, c: Option<real>): Record {
    Record(r.vals + m,
           if c.None? then r.conf
           else map p | p in r.conf.Keys + m.Keys :: if p in m then c.value else r.conf[p])
  }

  /** u is what update(m, c) leaves for a plain dict m, property by property. */
  predicate UpdatedFromDict(r: Record, m: map<string, Value>, c: Option<real>, u: Record) {
    && u.vals == r.vals + m
    && (c.None? ==> u.conf == r.conf)
    && (c.Some? ==> u.conf.Keys == r.conf.Keys + m.Keys)
    && (c.Some? ==> forall p :: p in m ==> u.conf[p] == c.value)
    && (c.Some? ==> forall p :: p in r.conf && p !in m ==> u.conf[p] == r.conf[p])
  }

  lemma UpdatedFromDictExactly(r: Record, m: map<string, Value>, c: Option<real>, u: Record)
    ensures UpdatedFromDict(r, m, c, u) <==> u == UpdateFromDict(r, m, c)
  {
    if UpdatedFromDict(r, m, c, u) && c.Some? {
      var w := UpdateFromDict(r, m, c);
      assert u.conf == w.conf;
    }
  }

  /** Without a confidence, a plain dict's new properties get no confidence entry. */
  lemma UpdateFromDictCoverage(r: Record, m: map<string, Value>, c: Option<real>)
    ensures Covered(r) && c.Some? ==> Covered(UpdateFromDict(r, m, c))
    ensures c.None? && (exists p :: p in m && p !in r.conf) ==> !Covered(UpdateFromDict(r, m, c))
  {
  }

  /** What update_highest_confidence reads without raising KeyError: a confidence for
      every property of other, and for each property self shares with other. */
  predicate HighestReady(r: Record, o: Record) {
    Covered(o) && forall p :: p in o.vals && p in r.vals ==> p in r.conf
  }

  /** Self keeps its own value of p when it has p with a confidence at least other's. */
  predicate KeepsOwn(r: Record, o: Record, p: string)
    requires HighestReady(r, o) && p in o.vals
  {
    p in r.vals && r.conf[p] >= o.conf[p]
  }

  /** Guess.update_highest_confidence(other). */
  function UpdateHighest(r: Record, o: Record): Record
    requires HighestReady(r, o)
  {
    Record(map p | p in r.vals.Keys + o.vals.Keys ::
             if p in o.vals && !KeepsOwn(r, o, p) then o.vals[p] else r.vals[p],
           map p | p in r.conf.Keys + o.vals.Keys ::
             if p in o.vals && !KeepsOwn(r, o, p) then o.conf[p] else r.conf[p])
  }

  /** u is self after update_highest_confidence has handled the properties ks of other:
      each of them either kept or adopted, every other entry as it was. */
  predicate HighestOn(r: Record, o: Record, ks: set<string>, u: Record)
    requires HighestReady(r, o) && ks <= o.vals.Keys
  {
    && u.vals.Keys == r.vals.Keys + ks
    && u.conf.Keys == r.conf.Keys + ks
    && (forall p :: p in ks ==> u.vals[p] == (if KeepsOwn(r, o, p) then r.vals[p] else o.vals[p]))
    && (forall p :: p in ks ==> u.conf[p] == (if KeepsOwn(r, o, p) then r.conf[p] else o.conf[p]))
    && (forall p :: p in r.vals && p !in ks ==> u.vals[p] == r.vals[p])
    && (forall p :: p in r.conf && p !in ks ==> u.conf[p] == r.conf[p])
  }

  /** Handling one more property p either keeps self's entry or adopts other's. */
  lemma HighestOnStep(r: Record, o: Record, ks: set<string>, p: string, u: Record)
    requires HighestReady(r, o) && ks <= o.vals.Keys && p in o.vals && p !in ks
    requires HighestOn(r, o, ks, u)
    ensures (p in u.vals && u.conf[p] >= o.conf[p]) == KeepsOwn(r, o, p)
    ensures HighestOn(r, o, ks + {p},
      if KeepsOwn(r, o, p) then u else Record(u.vals[p := o.vals[p]], u.conf[p := o.conf[p]]))
  {
  }

  /** Once every property of other is handled, the description determines self ... */
  lemma HighestOnUnique(r: Record, o: Record, u: Record)
    requires HighestReady(r, o) && HighestOn(r, o, o.vals.Keys, u)
    ensures u == UpdateHighest(r, o)
  {
    var w := UpdateHighest(r, o);
    assert u.vals == w.vals;
    assert u.conf == w.conf;
  }

  /** ... and UpdateHighest meets it, so it holds of UpdateHighest and of nothing else. */
  lemma HighestOnExactly(r: Record, o: Record, u: Record)
    requires HighestReady(r, o)
    ensures HighestOn(r, o, o.vals.Keys, u) <==> u == UpdateHighest(r, o)
  {
    if HighestOn(r, o, o.vals.Keys, u) {
      HighestOnUnique(r, o, u);
    }
  }

  /** Best evidence wins, property by property: each property of other ends with the
      larger of the two confidences, and a tie keeps self's value. Properties that
      other lacks are untouched, and the result is again ready for other. */
  lemma UpdateHighestWins(r: Record, o: Record)
    requires HighestReady(r, o)
    ensures var u := UpdateHighest(r, o);
      && u.vals.Keys == r.vals.Keys + o.vals.Keys
      && (forall p :: p in o.vals && p in r.vals && r.conf[p] >= o.conf[p] ==>
            u.vals[p] == r.vals[p] && u.conf[p] == r.conf[p])
      && (forall p :: p in o.vals && !(p in r.vals && r.conf[p] >= o.conf[p]) ==>
            u.vals[p] == o.vals[p] && u.conf[p] == o.conf[p])
      && (forall p :: p in r.vals && p !in o.vals ==> u.vals[p] == r.vals[p])
      && (forall p :: p in r.conf && p !in o.vals ==> u.conf[p] == r.conf[p])
      && HighestReady(u, o)
      && (Covered(r) ==> Covered(u))
  {
  }

  /** No confidence of a property of either guess is ever lowered. */
  lemma UpdateHighestMonotone(r: Record, o: Record)
    requires HighestReady(r, o)
    ensures var u := UpdateHighest(r, o);
      && (forall p :: p in o.vals ==> u.conf[p] >= o.conf[p])
      && (forall p :: p in r.vals && p in r.conf ==> u.conf[p] >= r.conf[p])
  {
    UpdateHighestWins(r, o);
  }

  /** When self already keeps its own value for every property of other, the update
      changes nothing. */
  lemma UpdateHighestKeepsAll(u: Record, o: Record)
    requires HighestReady(u, o) && forall p :: p in o.vals ==> KeepsOwn(u, o, p)
    ensures UpdateHighest(u, o) == u
  {
    var w := UpdateHighest(u, o);
    assert w.vals == u.vals;
    assert w.conf == u.conf;
  }

  /** Folding the same guess in twice gives the result of folding it in once. */
  lemma UpdateHighestIdempotent(r: Record, o: Record)
    requires HighestReady(r, o)
    ensures HighestReady(UpdateHighest(r, o), o)
    ensures UpdateHighest(UpdateHighest(r, o), o) == UpdateHighest(r, o)
  {
    UpdateHighestWins(r, o);
    var u := UpdateHighest(r, o);
    assert forall p :: p in o.vals ==> KeepsOwn(u, o, p);
    UpdateHighestKeepsAll(u, o);
  }

  /** Guesses with no property in common simply unite. */
  lemma UpdateHighestDisjoint(r: Record, o: Record)
    requires Covered(o) && r.vals.Keys !! o.vals.Keys
    ensures UpdateHighest(r, o).vals == r.vals + o.vals
  {
    var u := UpdateHighest(r, o);
    assert u.vals == r.vals + o.vals;
  }
}
