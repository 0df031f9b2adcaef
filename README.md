# guessit guess merging, modelled and proved in Dafny

guessit parses media file names into property guesses. A guess is a `Guess`: a dict
from property names to values, with a parallel `_confidence` dict. This project models
the module that reduces a list of such guesses to one result, `guessit/guess.py`, and
proves what each step promises. That module covers:

- the `Guess` operations: the constructor, `confidence`, `set`, `set_confidence`, `update`
  and `update_highest_confidence`;
- the two reconcilers `choose_int` and `choose_string`;
- the list merges `_merge_similar_guesses_nocheck`, `merge_similar_guesses` and
  `merge_append_guesses`;
- the final fold `merge_all`, which appends, keeps the highest confidence, prunes and
  deduplicates.

The project has these files:

| file | module | contents |
|---|---|---|
| `values.dfy` | `Values` | property values (`Str`, `Int`, `Date`, `Lang`, `List`); `Unique`, which stands for `list(set(...))` |
| `reconcile.dfy` | `Reconcile` | `choose_int`, `choose_string` with ASCII `strip`/`lower`/`in`, and the rule passed as `choose` |
| `records.dfy` | `Records` | a guess's state as a value, `Record(vals, conf)`, and the closed form of each `Guess` operation |
| `guess.dfy` | `Guesses` | `class Guess`, whose methods and loops over keys are proved to perform exactly the updates of `records.dfy` |
| `carriers.dfy` | `Carriers` | the "similar" list, `[g for g in guesses if prop in g]`, stated by position: its count, first and second carriers, the guesses without the property, and `list.remove` |
| `merge_model.dfy` | `MergeModel` | the similar and append merges as functions on `seq<Record>`, with their properties |
| `fold_model.dfy` | `FoldModel` | `merge_all` as a fold on records, with its properties and the two doctests |
| `merge.dfy` | `Merge` | the list merges and `merge_all` as methods on `seq<Guess>`, proved to leave the lists and states the models describe |

Modelling choices:

- Confidences are `real`.
- A list of guesses is a `seq<Guess>` of distinct objects. A merge changes those objects
  in place and returns the list it leaves.
- A Python exception the merges raise on malformed input becomes a precondition, with
  two exceptions:
  - the `TypeError` of `merge_append_guesses` becomes a `crashed` result;
  - the endless recursion of `merge_similar_guesses` becomes a `NoProgress` outcome.
- Python 2 semantics apply: `result.keys()` is a copy of the keys.

## Model

| member | source | states |
|---|---|---|
| `Values.Unique` | guessit/guess.py:267 | the result has no duplicates and exactly the elements of the input list |
| `Reconcile.CombinedBounds` | guessit/guess.py:123 | for confidences in [0,1], `1-(1-c1)*(1-c2)` lies between `max(c1,c2)` and 1 |
| `Reconcile.Conflict` | guessit/guess.py:109-113 | the strictly more confident value wins, with confidence `abs(c1-c2)`; a tie returns the second value |
| `Reconcile.ConflictBounds` | guessit/guess.py:141-145 | a conflict's confidence stays in [0,1] and does not exceed the larger input confidence |
| `Reconcile.ChooseInt` | guessit/guess.py:102-113 | `choose_int` returns one of its two values |
| `Reconcile.ChooseIntAgreement` | guessit/guess.py:107-108 | equal values keep the value, with a confidence in `[max(c1,c2), 1]` |
| `Reconcile.ChooseIntDisagreement` | guessit/guess.py:109-113 | different values: confidence `abs(c1-c2)`; `v1` exactly when `c1 > c2`, so a tie goes to `v2`; the confidence stays in [0,1] |
| `Reconcile.TrimLeft` | guessit/guess.py:120 | removes exactly the leading ASCII white space: result is a suffix, starts with no space, and everything removed is space |
| `Reconcile.TrimRight` | guessit/guess.py:120 | removes exactly the trailing ASCII white space |
| `Reconcile.Strip` | guessit/guess.py:120 | `strip()`: the result neither starts nor ends with white space (the ASCII characters `unicode.strip()` removes, including U+001C to U+001F) and is no longer than the input |
| `Reconcile.StripIsSlice` | guessit/guess.py:120 | `strip()` only removes characters at the two ends: the result is one contiguous slice of the input |
| `Reconcile.TrimLeftNoop` | guessit/guess.py:120 | a string without leading space is left as it is |
| `Reconcile.StripNoop` | guessit/guess.py:120 | a string without surrounding white space is left as it is |
| `Reconcile.Lower` | guessit/guess.py:121 | definition: `lower()` over ASCII, each upper-case letter mapped to its lower-case letter |
| `Reconcile.Contains` | guessit/guess.py:135-138 | definition: Python's `needle in hay` for strings, the needle occurring as a contiguous slice |
| `Reconcile.ContainedIsNoLonger` | guessit/guess.py:134-138 | a contained string is no longer than its container, and one of equal length is the container itself |
| `Reconcile.MutualContainment` | guessit/guess.py:135-138 | two strings that contain each other are equal, so the order of the two containment tests never decides a result |
| `Reconcile.ChooseString` | guessit/guess.py:115-145 | `choose_string` returns one of the two stripped values |
| `Reconcile.ChooseStringConfidence` | guessit/guess.py:123-145 | similar strings (equal, "the " prefix, containment) get the combined confidence, at least the larger input; others conflict with `abs(c1-c2)`, the strictly more confident winning |
| `Reconcile.ChooseStringEqual` | guessit/guess.py:125-126 | case-insensitively equal strings return the first stripped value with the combined confidence |
| `Reconcile.ChooseStringPrefersThe` | guessit/guess.py:129-132 | the value with the leading "the " wins in both argument orders, before the containment rule |
| `Reconcile.ChooseStringPrefersContained` | guessit/guess.py:134-138 | otherwise, when one contains the other, the contained (no longer) one wins with the combined confidence: `v2` when `v2` is in `v1`, tested first (`v1` when they are equal), and `v1` when only `v1` is in `v2` |
| `Reconcile.ChooseStringTheMatrix` | guessit/guess.py:129-130 | "The Matrix" against "Matrix" at 0.5 each gives ("The Matrix", 0.75) |
| `Reconcile.ChooseStringAlien` | guessit/guess.py:134-138 | "Alien"@0.6 against "Aliens"@0.4 gives ("Alien", 0.76) |
| `Reconcile.Choose` | guessit/guess.py:167 | the reconciler's verdict suits the reconciler again, and `choose_int` returns one of its inputs |
| `Records.SetConfidence` | guessit/guess.py:74-75 | definition: `set_confidence` writes only the confidence entry of the property, leaving the values |
| `Records.SetValue` | guessit/guess.py:69-72 | definition: `set` writes the value, and the confidence only when one is given |
| `Records.New` | guessit/guess.py:32-42 | a new guess is covered: every property has a confidence |
| `Records.NewUniform` | guessit/guess.py:40-42 | the constructor gives every initial property the same confidence and no other entry |
| `Records.Delete` | guessit/guess.py:251 | `del g[prop]` keeps a covered guess covered (the confidence entry stays) |
| `Records.SetValueCoverage` | guessit/guess.py:69-72 | `set` with a confidence, or on an existing covered property, keeps the guess covered; a new property without one is left uncovered |
| `Records.UpdateFrom` | guessit/guess.py:77-85 | definition: `update` with a Guess, values `self + other`, each copied property with other's confidence or the explicit one |
| `Records.UpdatedFromExactly` | guessit/guess.py:77-85 | `update` with a Guess: values are `self + other`; each copied property takes other's confidence, or the explicit one when given; every other confidence is unchanged, and nothing else satisfies this |
| `Records.UpdateFromCovered` | guessit/guess.py:77-85 | `update` keeps covered guesses covered |
| `Records.UpdateFromIdempotent` | guessit/guess.py:77-85 | updating twice from the same guess equals updating once |
| `Records.UpdateFromDict` | guessit/guess.py:77-85 | definition: `update` with a plain dict, values copied, confidences set only for an explicit confidence |
| `Records.UpdatedFromDictExactly` | guessit/guess.py:77-85 | `update` with a plain dict: values are copied; confidences change only with an explicit confidence, and then for exactly the copied keys |
| `Records.UpdateFromDictCoverage` | guessit/guess.py:77-85 | a plain dict with a confidence keeps coverage; without one, a new key leaves the guess uncovered |
| `Records.KeepsOwn` | guessit/guess.py:94 | definition: the skip test of `update_highest_confidence`, self holds the property with a confidence at least other's |
| `Records.UpdateHighest` | guessit/guess.py:87-97 | definition: `update_highest_confidence`, each property of other adopted with its confidence unless self holds it with a confidence at least other's |
| `Records.HighestOnStep` | guessit/guess.py:93-97 | the loop test `prop in self and self._confidence[prop] >= other._confidence[prop]` decides keep-or-adopt, and one more property keeps the loop's description |
| `Records.HighestOnUnique` | guessit/guess.py:93-97 | once every property of other is handled, the loop's description determines the result |
| `Records.HighestOnExactly` | guessit/guess.py:93-97 | the loop's description holds of `update_highest_confidence` and of nothing else |
| `Records.UpdateHighestWins` | guessit/guess.py:87-97 | each property of other keeps self's value and confidence when self's confidence is at least other's (ties keep self's), and otherwise takes other's; properties other lacks are untouched; coverage is kept |
| `Records.UpdateHighestMonotone` | guessit/guess.py:87-97 | no confidence of either guess's properties is lowered |
| `Records.UpdateHighestKeepsAll` | guessit/guess.py:93-95 | when self keeps its own value for every property of other, nothing changes |
| `Records.UpdateHighestIdempotent` | guessit/guess.py:87-97 | applying the same guess twice equals applying it once |
| `Records.UpdateHighestDisjoint` | guessit/guess.py:87-97 | guesses with no property in common unite |
| `Guesses.Guess.constructor` | guessit/guess.py:32-42 | the new guess holds the initial dict, each property with the given confidence (0 by default) |
| `Guesses.Guess.Confidence` | guessit/guess.py:66-67 | the stored confidence, or `None` (the KeyError) exactly when there is none |
| `Guesses.Guess.Set` | guessit/guess.py:69-72 | the new state is `SetValue` of the old: the value is written, and the confidence only when one is given |
| `Guesses.Guess.SetConfidence` | guessit/guess.py:74-75 | only that confidence entry changes |
| `Guesses.Guess.Del` | guessit/guess.py:251 | `del g[prop]` removes the value and leaves the confidence entry |
| `Guesses.Guess.Update` | guessit/guess.py:77-85 | the two key loops leave exactly `UpdateFrom` of the old states, correct even when other is self |
| `Guesses.Guess.UpdateDict` | guessit/guess.py:77-85 | with a plain dict, the state becomes exactly `UpdateFromDict` of the old |
| `Guesses.Guess.UpdateHighestConfidence` | guessit/guess.py:87-97 | the key loop leaves exactly `UpdateHighest` of the old states, correct even when other is self |
| `Carriers.Count` | guessit/guess.py:184-185 | definition: `len(similar)`, the number of guesses holding the property |
| `Carriers.NonCarriers` | guessit/guess.py:155 | definition: the guesses left out of `similar`, in list order |
| `Carriers.CarrierValuesIn` | guessit/guess.py:211-214 | the carriers' values of p number exactly the carriers in the range |
| `Carriers.FirstCarrier` | guessit/guess.py:157 | `similar[0]` is its position in the list, holds p, and no earlier guess does |
| `Carriers.SecondCarrier` | guessit/guess.py:157 | `similar[1]` is after the first, holds p, and no guess between them does |
| `Carriers.RemoveAt` | guessit/guess.py:177 | `list.remove` at a position: one element fewer, earlier ones kept, later ones moved up |
| `Carriers.RemoveCarrierCount` | guessit/guess.py:177 | removing a carrier leaves one carrier fewer |
| `Carriers.RemoveCarrierNonCarriers` | guessit/guess.py:177 | removing a carrier keeps the guesses without p, in order |
| `Carriers.ReplaceCarrier` | guessit/guess.py:176 | replacing a carrier by one that holds p changes no count and no non-carrier |
| `MergeModel.Bails` | guessit/guess.py:159-161 | definition: the first two carriers share more than one property |
| `MergeModel.PairReady` | guessit/guess.py:164-176 | definition: what a step that does not bail reads, namely both carriers' values suit the chooser, the first has a confidence for p, and the second is covered for `g1.update(g2)` |
| `MergeModel.StepReady` | guessit/guess.py:155-177 | definition: a step bails out, reading only keys, or finds its pair ready |
| `MergeModel.MergeStep` | guessit/guess.py:148-177 | definition: a bail-out leaves the list; otherwise the first carrier becomes `Merged` and the second leaves the list |
| `MergeModel.SimilarReady` | guessit/guess.py:179-196 | definition: every step merge_similar_guesses takes finds what it reads, the recursion going on only after a step with more than two carriers that does not bail |
| `MergeModel.MergeSimilar` | guessit/guess.py:179-196 | definition: fewer than two carriers, nothing; two, one step; more, one step and the recursion, or `NoProgress` on a bail-out |
| `MergeModel.Verdict` | guessit/guess.py:164-167 | the chooser's verdict on the first two carriers suits the chooser |
| `MergeModel.Merged` | guessit/guess.py:176 | definition: the first carrier after `g1.update(g2)` with the reconciled second carrier |
| `MergeModel.Partner` | guessit/guess.py:173-174 | `g2` with the verdict written in is covered |
| `MergeModel.MergedUnion` | guessit/guess.py:173-176 | the merged guess holds the union of both guesses' properties, the verdict for p, every other property of `g2` with its confidence, and `g1`'s own where `g2` lacks them |
| `MergeModel.MergeStepLayout` | guessit/guess.py:176-177 | after a step that does not bail, the merged guess replaces `g1`, `g2` is gone, earlier guesses keep their places and later ones move up |
| `MergeModel.MergeStepCount` | guessit/guess.py:173-177 | such a step leaves one carrier fewer, keeps the first carrier's position and keeps the guesses without p |
| `MergeModel.MergeStepReady` | guessit/guess.py:155-177 | when every carrier is usable (`Ready`), the pair is ready and, after a step that does not bail, every carrier is usable again |
| `MergeModel.MergeStepProgress` | guessit/guess.py:155-177 | a bail-out leaves the list unchanged; otherwise one guess and one carrier fewer; the guesses without p are kept; a list with every carrier usable stays so |
| `MergeModel.MergeSimilarEnds` | guessit/guess.py:179-196 | the recursion ends with fewer than two carriers, or two that bail, or reports `NoProgress` for a bail-out with more than two; at least one carrier remains and the guesses without p are kept |
| `MergeModel.MergeSimilarReady` | guessit/guess.py:179-196 | a list whose every carrier is usable can be merged without raising throughout, and leaves such a list |
| `MergeModel.MergeSimilarSingle` | guessit/guess.py:184-196 | with fewer than two carriers nothing changes; when no step bails, exactly one carrier remains |
| `MergeModel.MergeAppend` | guessit/guess.py:199-221 | definition, as evidently intended: the guesses before the first carrier, then `Collected`, then the guesses without p after it |
| `MergeModel.AppendCrashes` | guessit/guess.py:216-217 | definition: some later carrier holds a property besides p, so the warning raises |
| `MergeModel.Started` | guessit/guess.py:207-208 | `merged[prop] = [merged[prop]]` makes p a list |
| `MergeModel.Absorb` | guessit/guess.py:211-218 | absorbing a carrier keeps p a list |
| `MergeModel.AbsorbFrom` | guessit/guess.py:211-221 | absorbing the later carriers keeps p a list |
| `MergeModel.Collected` | guessit/guess.py:207-221 | the first carrier after absorbing every later carrier holds p as a list |
| `MergeModel.AbsorbFromCollects` | guessit/guess.py:211-214 | absorbing appends the carriers' values in list order and leaves the confidences unchanged |
| `MergeModel.AbsorbFromUntouched` | guessit/guess.py:215-218 | a property no later carrier holds is kept as it was |
| `MergeModel.AbsorbFromOverwrites` | guessit/guess.py:215-218 | any other property ends with the value of the last carrier that holds it |
| `MergeModel.AbsorbFromQuiet` | guessit/guess.py:211-218 | when every later carrier holds p alone, no other property changes |
| `MergeModel.NonCarriersCarryNothing` | guessit/guess.py:203 | the guesses outside `similar` hold no p |
| `MergeModel.CollectedValues` | guessit/guess.py:207-214 | the collected p is the list of every carrier's value in list order, and the first carrier's confidences are kept |
| `MergeModel.MergeAppendLeavesOne` | guessit/guess.py:199-221 | without carriers nothing changes; otherwise the guesses before the first carrier stay, the collected guess takes the first carrier's place, it is the only carrier left, and the guesses without p are kept in order |
| `MergeModel.MergeAppendWithoutCrash` | guessit/guess.py:199-221 | on the inputs the source survives, only p of the first carrier changes, to the list of all carriers' values |
| `MergeModel.MergeAppendCovered` | guessit/guess.py:199-221 | on those inputs a covered first carrier stays covered |
| `MergeModel.AbsorbUncovers` | guessit/guess.py:218 | the intended overwrite copies a value without its confidence and leaves the merged guess uncovered |
| `MergeModel.AppendCrashExample` | guessit/guess.py:216-217 | a later carrier of "episodeNumber" that also holds "title" reaches the raising warning |
| `FoldModel.StripFrom` | guessit/guess.py:245-251 | definition: a later guess once `del g[prop]` has removed the remaining append properties, its confidence entries kept |
| `FoldModel.AppendProps` | guessit/guess.py:245-251 | the append loop keeps both guesses covered and the result's append properties lists |
| `FoldModel.AppendPropsStrips` | guessit/guess.py:251 | the loop deletes exactly the append properties from `g` and nothing else |
| `FoldModel.AppendPropsAt` | guessit/guess.py:245-250 | an append property `g` holds is appended to the result's list (`result.get(prop, [])`) with `g`'s confidence; every other property is unchanged |
| `FoldModel.FoldStep` | guessit/guess.py:243-257 | one pass keeps the result covered and its append properties lists |
| `FoldModel.FoldStepAt` | guessit/guess.py:243-257 | per property: an append property is appended with `g`'s confidence; any other is settled by the higher confidence, a tie keeping the result's; properties `g` lacks are unchanged |
| `FoldModel.Fold` | guessit/guess.py:243-257 | folding the later guesses keeps the result covered and its append properties lists |
| `FoldModel.FoldUntouched` | guessit/guess.py:243-257 | a property no later guess holds is left as it was |
| `FoldModel.FoldAppends` | guessit/guess.py:245-250 | an append property is present exactly when the result or a later guess holds it, and collects the result's list followed by every later guess's value in list order |
| `FoldModel.FoldAppendConfidence` | guessit/guess.py:247-249 | an append property ends with the confidence of the last guess that held it |
| `FoldModel.FoldHighest` | guessit/guess.py:257 | any other property is present exactly when some guess held it, with a confidence no lower than any of theirs |
| `FoldModel.FoldWinner` | guessit/guess.py:257 | its value is the first guess's own unless a later one was strictly more confident, and otherwise that of the earliest later guess with the winning confidence |
| `FoldModel.Deduplicated` | guessit/guess.py:265-267 | definition: each append list replaced by `list(set(...))`, the same values without repetition in some order, everything else unchanged |
| `FoldModel.Prune` | guessit/guess.py:260-262 | definition: `del result[p]` for every property with confidence below 0.05, leaving the confidence entries |
| `FoldModel.PruneKeeps` | guessit/guess.py:260-262 | pruning keeps exactly the properties with confidence at least 0.05, unchanged; pruning again changes nothing |
| `FoldModel.Folded` | guessit/guess.py:241-257 | the folded first guess is covered |
| `FoldModel.CarrierValuesHashable` | guessit/guess.py:265-267 | the values collected from hashable append values are hashable |
| `FoldModel.FoldedHashable` | guessit/guess.py:265-267 | the folded guess's append lists hold hashable values only, so `set(...)` cannot raise |
| `FoldModel.MergedAll` | guessit/guess.py:224-269 | definition: an empty Guess for an empty list, and otherwise the folded guess pruned, with each append list made duplicate-free with the same elements |
| `FoldModel.MergedAllLikely` | guessit/guess.py:259-262 | every property `merge_all` returns has confidence at least 0.05 |
| `FoldModel.MergedAllAppends` | guessit/guess.py:243-267 | an append property is returned exactly when some guess holds it and its final confidence reaches 0.05; that confidence is the last supplier's, so the last supplier decides; its list holds the collected values, each once |
| `FoldModel.MergedAllBest` | guessit/guess.py:243-262 | any other property is returned exactly when some guess holds it at confidence at least 0.05; it has the highest confidence of all guesses holding it and the value of the first with that confidence |
| `FoldModel.MergedAllSingle` | guessit/guess.py:238-269 | a single guess is only pruned and deduplicated; an already pruned one keeps every property, and the non-append values stay as they are |
| `FoldModel.MergedAllPair` | guessit/guess.py:241-262 | two guesses without append properties give the first updated by highest confidence from the second, pruned |
| `FoldModel.MergedAllDisjointExample` | guessit/guess.py:229-231 | `{season: 2}`@0.6 and `{episodeNumber: 13}`@0.8 merge to both properties |
| `FoldModel.MergedAllDropsUnlikelyExample` | guessit/guess.py:233-235 | `{episodeNumber: 27}`@0.02 and `{season: 1}`@0.2 merge to `{season: 1}` |
| `Merge.SnapRemoveAt` | guessit/guess.py:177 | removing a guess from the list removes its state from the list of states |
| `Merge.TakeVerdict` | guessit/guess.py:173-176 | `g2` takes the verdict for p and its confidence, and `g1` becomes `UpdateFrom` of its old state and `g2`'s new one |
| `Merge.MergeSimilarNoCheck` | guessit/guess.py:148-177 | the states left are `MergeStep` of the old, read only as far as the step reads: on a bail-out both guesses and the list are unchanged; otherwise exactly `g2` leaves the list and `g2` holds the verdict |
| `Merge.MergeSimilarGuesses` | guessit/guess.py:179-196 | on every list for which each step finds what it reads (`SimilarReady`), the list left and the outcome are exactly `MergeSimilar` of the old states |
| `Merge.AbsorbGuess` | guessit/guess.py:212-218 | the key loop raises exactly when the carrier holds a property besides p; otherwise its value of p is appended |
| `Merge.AbsorbLater` | guessit/guess.py:211-221 | the carrier loop raises exactly when `AppendCrashes`; otherwise the first carrier ends as `Collected` and the guesses without p remain, in order |
| `Merge.MergeAppendGuesses` | guessit/guess.py:199-221 | reports the crash exactly when `AppendCrashes`; otherwise the list of states left is `MergeAppend` of the old and holds only guesses of the input list; every guess other than the first carrier is left unchanged, crash or not |
| `Merge.AppendInto` | guessit/guess.py:245-251 | the append loop leaves both guesses exactly as `AppendProps` says |
| `Merge.PruneUnlikely` | guessit/guess.py:260-262 | the deletion loop leaves exactly `Prune` of the old state |
| `Merge.Deduplicate` | guessit/guess.py:265-267 | each append list is replaced by a duplicate-free list of the same values |
| `Merge.FoldLater` | guessit/guess.py:243-257 | the first guess ends as `Folded`, and each later guess loses exactly its append properties |
| `Merge.MergeAll` | guessit/guess.py:224-269 | an empty list gives a new empty Guess; otherwise the first guess is returned, satisfying `MergedAll`, and the later guesses lose their append properties; `append` defaults to the empty list |

## Left out

- `Guess.to_json`, all logging, `guessit/language.py` and `guessit/api.py`: output text, language tables and API glue, outside the merge logic.
- IEEE floating point: confidences are exact reals, so rounding is not modelled.
- Unicode: `strip` and `lower` are modelled over ASCII only. `strip` removes the ASCII characters `unicode.strip()` removes, U+001C to U+001F included; non-ASCII white space such as U+00A0 is kept.
- A non-Guess argument to `update_highest_confidence` raises ValueError; here the argument's type rules it out.
- `list.remove` compares guesses by dict equality; the model removes the specific guess at its position. Guesses are distinct objects (`Distinct`).
- This changes one case of `_merge_similar_guesses_nocheck`. If `g1`'s properties are all among `g2`'s, the dicts are equal after `g1.update(g2)`, so `guesses.remove(g2)` removes `g1`, the first equal element. The surviving object is then `g2`, with the same values, `g2`'s own confidence dict and a place one before `g2`'s old one. The model keeps `g1`, at `g1`'s place, with `g1`'s extra confidence entries.
- The list merges return the list they leave instead of mutating one shared list object, so aliasing of the list itself is not modelled.
- `Merge.Deduplicate`: the order of `list(set(...))` is left open; the contract states only a duplicate-free list with the same elements.
- `Merge.MergeSimilarGuesses`: after a bail-out with more than two carriers the source calls itself on the unchanged list until CPython's recursion limit raises RuntimeError; the model stops with `NoProgress` there. The states of the guesses removed from the list are not described.
- `Merge.MergeAppendGuesses`: after the crash, the state of the guesses is not described.
- `Merge.MergeAll`: it requires every guess to be covered (`CoveredFrom(gs, 0)`). The source needs every later guess covered. `g.confidence(prop)` (guess.py:249) reads an append property's confidence, and `update_highest_confidence` (guess.py:93-97) reads the confidence of every other property of the later guess. It also needs every property of the first guess covered, as line 94 compares shared ones and the prune (guess.py:260-261) reads `result.confidence(p)` for every key. The one exception is a first-guess append property that a later guess supplies: `result.set(..., confidence=...)` (guess.py:247-249) then gives it a confidence. That case is the only input the source accepts and this requires excludes.
- `Merge.MergeAll`: it requires the first guess's append properties to be lists of hashable values. The source also accepts a string there when no later guess holds that property, and `list(set(...))` then splits it into its characters; an Int or Date there makes `set(...)` raise TypeError. The string case is excluded. It also excludes a first-guess append property that holds any non-list value, or a list with an unhashable item, when no later guess supplies it and its confidence is below 0.05. The prune (guess.py:260-262) then deletes it before `set(...)` is reached, so the source returns without raising.
- `Merge.MergeAll`: it requires every later guess's append values to be hashable. The source raises only when the property survives pruning and reaches `set(...)`; a pruned property with an unhashable value is excluded too.
- `Value.Lang`: two languages are equal when their code strings are. `Language.__eq__` also equates a language with a matching plain string, which `choose_int`'s `==` and the `set(...)` dedup of guess.py:267 rely on. The language module is not part of this model.
- `Reconcile.Rule`: the source's `choose` parameter accepts any callable. The model closes it to `choose_int` and `choose_string`, the two reconcilers the module defines.
- Other exceptions of the source (KeyError on a missing confidence, AttributeError from `strip` on a non-string, TypeError from `+` on an integer or date first value) are preconditions, not modelled error paths.
- `Guess.set` without a confidence leaves a new property with no confidence entry, as the code does. It is not defaulted to 0.

## Findings

| source | as written | input that shows it | evidently intended | confidence | as-written member | corrected member |
|---|---|---|---|---|---|---|
| guessit/guess.py:216-217 | `if prop2 in m` tests a key of `m` against `m` itself, so it is always true. The warning's format string has one `%s` but two arguments, so it raises TypeError. | two carriers of `episodeNumber`, the later one also holding `title` | warn, then overwrite the merged guess's other property with the later carrier's value and go on | not executed | `Merge.MergeAppendGuesses`, `MergeModel.AppendCrashExample` | `MergeModel.MergeAppend`, `MergeModel.AbsorbFromOverwrites` |
