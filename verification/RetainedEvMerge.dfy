/**
 * The merge rule of the retained estimate (`preferRetainedEv`, `applyObservation`):
 * what one release's observation of a pack does to the value kept for it.
 */
module RetainedEvMerge {
  import opened Prelude

  datatype Scope = Scope(vendorKey: Key, publicVendorId: Key, publicRepackId: Key)
  datatype Failure = Failure(calculatedAt: Time, reason: int)
  datatype Estimate = Estimate(calculatedAt: Time, metrics: int)
  datatype Value = Value(estimate: Estimate, priceMinor: int, source: Key, failure: Option<Failure>)

  /** One release's estimate of one pack: available with metrics, or unavailable with a reason. */
  datatype Report = Available(estimate: Estimate) | Unavailable(failure: Failure)
  datatype Facts = Facts(scope: Scope, priceMinor: Option<int>, report: Report)
  datatype Observation = Observation(value: Option<Value>, failed: Option<Failure>)

  /** `validValue`: a positive price, and any failure strictly after the estimate. */
  predicate ValidValue(v: Value) {
    v.priceMinor > 0 && (v.failure.Some? ==> v.failure.value.calculatedAt > v.estimate.calculatedAt)
  }

  predicate ValidOption(v: Option<Value>) {
    v.Some? ==> ValidValue(v.value)
  }

  /** `parseEvFacts`: an available estimate carries a positive price. */
  predicate ValidFacts(f: Facts) {
    f.report.Available? ==> f.priceMinor.Some? && f.priceMinor.value > 0
  }

  function ObservationOf(f: Facts, release: Key): (o: Observation)
    requires ValidFacts(f)
    ensures Single(o)
  {
    match f.report
    case Available(e) => Observation(Some(Value(e, f.priceMinor.value, release, None)), None)
    case Unavailable(x) => Observation(None, Some(x))
  }

  /** What `releaseValues` builds: a success that carries no failure, or a failure; never both. */
  predicate Single(o: Observation) {
    match o
    case Observation(Some(v), None) => v.failure.None? && ValidValue(v)
    case Observation(None, Some(_)) => true
    case _ => false
  }

  function Prefer(current: Option<Value>, candidate: Option<Value>): Option<Value> {
    if candidate.None? then current
    else if current.None? then candidate
    else
      var c, k := candidate.value.estimate.calculatedAt, current.value.estimate.calculatedAt;
      var failure := current.value.failure;
      if c <= k then current
      else if failure.Some? && c == failure.value.calculatedAt then current
      else Some(candidate.value.(failure :=
                                   if failure.Some? && (c <= k || c <= failure.value.calculatedAt) then failure
                                   else None))
  }

  function Observe(current: Option<Value>, o: Observation): Option<Value> {
    var value := Prefer(current, o.value);
    if value.None? || o.failed.None?
       || o.failed.value.calculatedAt <= value.value.estimate.calculatedAt
       || (value.value.failure.Some? && o.failed.value.calculatedAt < value.value.failure.value.calculatedAt)
    then value
    else Some(value.value.(failure := o.failed))
  }

  /** `retainedEvForFacts`: the value a reader shows for one pack of a release. */
  function RetainedForFacts(f: Facts, retained: Option<Value>, release: Key): Option<Value>
    requires ValidFacts(f)
  {
    Observe(retained, ObservationOf(f, release))
  }

  // ----- Laws for arbitrary timestamps -----

  /**
   * Any history of single observations: the value once present stays present, the estimate's time
   * never moves back, the estimate changes only with its time, a failure stays strictly later than
   * the estimate, and observing twice is observing once.
   */
  lemma ObserveLaws(current: Option<Value>, o: Observation)
    requires ValidOption(current) && Single(o)
    ensures ValidOption(Observe(current, o))
    ensures current.Some? ==> Observe(current, o).Some?
    ensures current.Some? ==>
              var next := Observe(current, o).value;
              && next.estimate.calculatedAt >= current.value.estimate.calculatedAt
              && (next.estimate.calculatedAt == current.value.estimate.calculatedAt ==>
                    next.(failure := None) == current.value.(failure := None))
    ensures Observe(Observe(current, o), o) == Observe(current, o)
  {
  }

  function ObserveSeq(start: Option<Value>, os: seq<Observation>): Option<Value> {
    if os == [] then start else Observe(ObserveSeq(start, os[..|os| - 1]), os[|os| - 1])
  }

  // ----- The normal form -----

  function TimeOf(o: Observation): Time
    requires Single(o)
  {
    if o.value.Some? then o.value.value.estimate.calculatedAt else o.failed.value.calculatedAt
  }

  /** All instants of a history are pairwise distinct, those of its start included. */
  ghost predicate DistinctTimes(start: Value, os: multiset<Observation>) {
    && (forall o :: o in os ==> Single(o) && os[o] == 1 && TimeOf(o) != start.estimate.calculatedAt)
    && (forall a, b :: a in os && b in os && TimeOf(a) == TimeOf(b) ==> a == b)
    && (start.failure.Some? ==> forall o :: o in os ==> TimeOf(o) != start.failure.value.calculatedAt)
  }

  ghost predicate SuccessAmong(v: Value, start: Value, os: multiset<Observation>) {
    v.failure.None? && (v == start.(failure := None) || Observation(Some(v), None) in os)
  }

  ghost predicate FailureAmong(f: Failure, start: Value, os: multiset<Observation>) {
    start.failure == Some(f) || Observation(None, Some(f)) in os
  }

  /**
   * The order-free description of a merged value: its estimate is the latest success of the
   * history, and it carries a failure exactly when some failure is later than that success,
   * and then the latest one.
   */
  ghost predicate NormalForm(r: Value, start: Value, os: multiset<Observation>) {
    && SuccessAmong(r.(failure := None), start, os)
    && (forall v :: SuccessAmong(v, start, os) ==> v.estimate.calculatedAt <= r.estimate.calculatedAt)
    && (forall f ::
          FailureAmong(f, start, os) ==> f.calculatedAt <= LatestKnown(r) && f.calculatedAt != r.estimate.calculatedAt)
    && (r.failure.Some? ==>
          && FailureAmong(r.failure.value, start, os)
          && r.failure.value.calculatedAt > r.estimate.calculatedAt)
  }

  function LatestKnown(r: Value): Time {
    if r.failure.Some? then r.failure.value.calculatedAt else r.estimate.calculatedAt
  }

  lemma NormalFormSuccessStep(r: Value, start: Value, os: multiset<Observation>, v: Value)
    requires DistinctTimes(start, os + multiset{Observation(Some(v), None)})
    requires NormalForm(r, start, os) && Observation(Some(v), None) !in os
    ensures NormalForm(Observe(Some(r), Observation(Some(v), None)).value, start,
                       os + multiset{Observation(Some(v), None)})
  {
    var o := Observation(Some(v), None);
    var m := os + multiset{o};
    assert o in m && Single(o);
    assert forall x :: SuccessAmong(x, start, m) <==> SuccessAmong(x, start, os) || x == v;
    assert forall f :: FailureAmong(f, start, m) <==> FailureAmong(f, start, os);
    assert forall f :: FailureAmong(f, start, os) ==> f.calculatedAt != v.estimate.calculatedAt by {
      forall f | FailureAmong(f, start, os) ensures f.calculatedAt != v.estimate.calculatedAt {
        if start.failure != Some(f) {
          assert Observation(None, Some(f)) in m;
          assert TimeOf(Observation(None, Some(f))) == f.calculatedAt;
        }
      }
    }
    assert r.failure.Some? ==> FailureAmong(r.failure.value, start, os);
  }

  lemma NormalFormFailureStep(r: Value, start: Value, os: multiset<Observation>, f: Failure)
    requires DistinctTimes(start, os + multiset{Observation(None, Some(f))})
    requires NormalForm(r, start, os) && Observation(None, Some(f)) !in os
    ensures NormalForm(Observe(Some(r), Observation(None, Some(f))).value, start,
                       os + multiset{Observation(None, Some(f))})
  {
    var o := Observation(None, Some(f));
    var m := os + multiset{o};
    assert o in m && TimeOf(o) == f.calculatedAt;
    assert forall x :: SuccessAmong(x, start, m) <==> SuccessAmong(x, start, os);
    assert forall g :: FailureAmong(g, start, m) <==> FailureAmong(g, start, os) || g == f;
    var kept := r.(failure := None);
    assert SuccessAmong(kept, start, os);
    if kept != start.(failure := None) {
      assert Observation(Some(kept), None) in m && TimeOf(Observation(Some(kept), None)) == kept.estimate.calculatedAt;
    }
    assert f.calculatedAt != r.estimate.calculatedAt;
    var next := Observe(Some(r), o).value;
    assert next.(failure := None) == kept;
  }

  lemma DistinctTimesOfInit(start: Value, init: seq<Observation>, last: Observation)
    requires DistinctTimes(start, multiset(init + [last]))
    ensures DistinctTimes(start, multiset(init)) && last !in multiset(init) && Single(last)
    ensures multiset(init + [last]) == multiset(init) + multiset{last}
  {
    var m := multiset(init + [last]);
    assert m == multiset(init) + multiset{last};
    assert m[last] == 1;
    forall o | o in multiset(init) ensures o in m && multiset(init)[o] == 1 {
      assert m[o] == 1;
    }
  }

  lemma {:induction false} FoldReachesNormalForm(start: Value, os: seq<Observation>)
    requires ValidValue(start) && DistinctTimes(start, multiset(os))
    ensures ObserveSeq(Some(start), os).Some?
    ensures NormalForm(ObserveSeq(Some(start), os).value, start, multiset(os))
  {
    if os != [] {
      var init, last := os[..|os| - 1], os[|os| - 1];
      assert os == init + [last];
      DistinctTimesOfInit(start, init, last);
      FoldReachesNormalForm(start, init);
      var r := ObserveSeq(Some(start), init).value;
      if last.value.Some? {
        NormalFormSuccessStep(r, start, multiset(init), last.value.value);
      } else {
        NormalFormFailureStep(r, start, multiset(init), last.failed.value);
      }
    }
  }

  lemma NormalFormUnique(r: Value, s: Value, start: Value, os: multiset<Observation>)
    requires ValidValue(start) && DistinctTimes(start, os)
    requires NormalForm(r, start, os) && NormalForm(s, start, os)
    ensures r == s
  {
    assert SuccessAmong(r.(failure := None), start, os) && SuccessAmong(s.(failure := None), start, os);
    if r.failure.Some? {
      assert FailureAmong(r.failure.value, start, os);
    }
    if s.failure.Some? {
      assert FailureAmong(s.failure.value, start, os);
    }
  }

  /** From a kept value, with distinct instants, the order of the observations does not matter. */
  lemma MergeIsOrderFree(start: Value, os: seq<Observation>, ps: seq<Observation>)
    requires ValidValue(start) && DistinctTimes(start, multiset(os)) && multiset(os) == multiset(ps)
    ensures ObserveSeq(Some(start), os) == ObserveSeq(Some(start), ps)
  {
    FoldReachesNormalForm(start, os);
    FoldReachesNormalForm(start, ps);
    NormalFormUnique(ObserveSeq(Some(start), os).value, ObserveSeq(Some(start), ps).value, start, multiset(os));
  }

  // ----- Where order does matter -----

  lemma {:induction false} FailuresBeforeFirstSuccessAreDropped(dropped: seq<Observation>, v: Value,
                                                                rest: seq<Observation>)
    requires forall i :: 0 <= i < |dropped| ==> dropped[i].value.None?
    requires Single(Observation(Some(v), None))
    ensures ObserveSeq(None, dropped) == None
    ensures ObserveSeq(None, dropped + [Observation(Some(v), None)] + rest) == ObserveSeq(Some(v), rest)
    decreases |dropped| + |rest|
  {
    var first := [Observation(Some(v), None)];
    var all := dropped + first + rest;
    assert all != [];
    if rest == [] {
      assert all == dropped + first;
      assert all[..|all| - 1] == dropped;
      if dropped != [] {
        FailuresBeforeFirstSuccessAreDropped(dropped[..|dropped| - 1], v, []);
      }
    } else {
      assert all[..|all| - 1] == dropped + first + rest[..|rest| - 1];
      FailuresBeforeFirstSuccessAreDropped(dropped, v, rest[..|rest| - 1]);
    }
  }

  lemma DroppedFailuresAreAmong(dropped: seq<Observation>, v: Value, rest: multiset<Observation>)
    requires forall i :: 0 <= i < |dropped| ==> dropped[i].value.None? && dropped[i].failed.Some?
    ensures forall x :: SuccessAmong(x, v, multiset(dropped) + rest) <==> SuccessAmong(x, v, rest)
    ensures forall f :: FailureAmong(f, v, multiset(dropped) + rest) <==>
                          FailureAmong(f, v, rest)
                          || exists i :: 0 <= i < |dropped| && dropped[i] == Observation(None, Some(f))
  {
    forall o | o in multiset(dropped) ensures o.value.None? {
      assert o in dropped;
    }
    forall f ensures Observation(None, Some(f)) in multiset(dropped)
                     <==> exists i :: 0 <= i < |dropped| && dropped[i] == Observation(None, Some(f)) {
    }
  }

  lemma DroppedTimesDiffer(dropped: seq<Observation>, v: Value, rest: multiset<Observation>, r: Value, i: nat)
    requires i < |dropped| && dropped[i].value.None? && dropped[i].failed.Some?
    requires DistinctTimes(v, multiset(dropped) + rest) && SuccessAmong(r.(failure := None), v, rest)
    ensures dropped[i].failed.value.calculatedAt != r.estimate.calculatedAt
  {
    var m := multiset(dropped) + rest;
    var kept := r.(failure := None);
    assert dropped[i] in m && TimeOf(dropped[i]) == dropped[i].failed.value.calculatedAt;
    if kept != v.(failure := None) {
      assert Observation(Some(kept), None) in m;
      assert TimeOf(Observation(Some(kept), None)) == r.estimate.calculatedAt;
    }
  }

  lemma DroppedFailuresMatterWhenLater(dropped: seq<Observation>, v: Value, rest: multiset<Observation>, r: Value)
    requires forall i :: 0 <= i < |dropped| ==> dropped[i].value.None? && dropped[i].failed.Some?
    requires DistinctTimes(v, multiset(dropped) + rest) && NormalForm(r, v, rest)
    ensures NormalForm(r, v, multiset(dropped) + rest) <==>
            forall i :: 0 <= i < |dropped| ==> TimeOf(dropped[i]) <= LatestKnown(r)
  {
    DroppedFailuresAreAmong(dropped, v, rest);
    forall i | 0 <= i < |dropped|
      ensures FailureAmong(dropped[i].failed.value, v, multiset(dropped) + rest)
      ensures dropped[i].failed.value.calculatedAt != r.estimate.calculatedAt
      ensures TimeOf(dropped[i]) == dropped[i].failed.value.calculatedAt
    {
      assert dropped[i] == Observation(None, Some(dropped[i].failed.value));
      DroppedTimesDiffer(dropped, v, rest, r, i);
    }
  }

  /**
   * From nothing kept, the result is the normal form of the whole history exactly when no failure
   * that arrived before the first success is later than everything the result knows.
   */
  lemma NullStartNormalForm(dropped: seq<Observation>, v: Value, rest: seq<Observation>)
    requires forall i :: 0 <= i < |dropped| ==> dropped[i].value.None? && dropped[i].failed.Some?
    requires Single(Observation(Some(v), None))
    requires DistinctTimes(v, multiset(dropped) + multiset(rest))
    ensures ObserveSeq(None, dropped + [Observation(Some(v), None)] + rest).Some?
    ensures var r := ObserveSeq(None, dropped + [Observation(Some(v), None)] + rest).value;
            NormalForm(r, v, multiset(dropped) + multiset(rest)) <==>
            forall i :: 0 <= i < |dropped| ==> TimeOf(dropped[i]) <= LatestKnown(r)
  {
    var m := multiset(dropped) + multiset(rest);
    forall o | o in multiset(rest) ensures o in m && multiset(rest)[o] == 1 {
      assert m[o] == 1;
    }
    FailuresBeforeFirstSuccessAreDropped(dropped, v, rest);
    FoldReachesNormalForm(v, rest);
    DroppedFailuresMatterWhenLater(dropped, v, multiset(rest), ObserveSeq(Some(v), rest).value);
  }

  /** Neither an empty start nor a shared instant is order-free: two swapped observations disagree. */
  lemma {:induction false} OrderMattersWithoutAStartOrWithTies(v: Value, w: Value)
    requires v == Value(Estimate(3, 0), 1, 0, None) && w == Value(Estimate(5, 0), 1, 0, None)
    ensures var late := Observation(None, Some(Failure(5, 0)));
            var early, tied := Observation(Some(v), None), Observation(Some(w), None);
            && ObserveSeq(None, [late, early]) != ObserveSeq(None, [early, late])
            && ObserveSeq(Some(v), [late, tied]) != ObserveSeq(Some(v), [tied, late])
  {
    var late := Observation(None, Some(Failure(5, 0)));
    var early, tied := Observation(Some(v), None), Observation(Some(w), None);
    ObserveTwo(None, late, early);
    ObserveTwo(None, early, late);
    ObserveTwo(Some(v), late, tied);
    ObserveTwo(Some(v), tied, late);
  }

  lemma ObserveTwo(start: Option<Value>, a: Observation, b: Observation)
    ensures ObserveSeq(start, [a, b]) == Observe(Observe(start, a), b)
  {
    assert [a, b][..1] == [a];
    assert [a][..0] == [];
    assert ObserveSeq(start, [a]) == Observe(ObserveSeq(start, [a][..0]), a);
  }
}
