/**
 * The phase timer: a list of phases, each with a trigger minute, a kind (one-time or
 * recurring with an interval), an action and the minute it last fired. A call at minute
 * `cur` considers every phase whose trigger minute has been reached, computes its
 * effective trigger time (the trigger minute for a one-time phase, the latest due
 * occurrence for a recurring one), and fires the candidate with the latest effective
 * time, ties going to the later phase; the winner records `cur` as its last action time.
 * Minutes are a parameter: the clock is not part of this model.
 */
module Timer {
  import opened Wrappers
  import Sorting
  import Arith

  datatype PhaseType = OneTime | Recurring(interval: nat)

  datatype Phase<A> = Phase(triggerTime: nat, phaseType: PhaseType, action: A, lastActionTime: nat)

  /** `Phase::one_time`: a phase that has never fired. */
  function OneTimePhase<A>(triggerTime: nat, action: A): (p: Phase<A>)
    ensures p.phaseType.OneTime? && p.triggerTime == triggerTime && p.action == action
    ensures p.lastActionTime == 0
  {
    Phase(triggerTime, OneTime, action, 0)
  }

  /** `Phase::recurring`: a phase that has never fired. */
  function RecurringPhase<A>(triggerTime: nat, interval: nat, action: A): (p: Phase<A>)
    ensures p.phaseType == Recurring(interval) && p.triggerTime == triggerTime && p.action == action
    ensures p.lastActionTime == 0
  {
    Phase(triggerTime, Recurring(interval), action, 0)
  }

  /** The comparison of `sort_by_key(|phase| phase.trigger_time)`. */
  function TriggerLe<A>(): (Phase<A>, Phase<A>) -> bool {
    (p: Phase<A>, q: Phase<A>) => p.triggerTime <= q.triggerTime
  }

  /** The phases whose trigger minute is `t`. */
  function AtTrigger<A>(t: nat): Phase<A> -> bool {
    (p: Phase<A>) => p.triggerTime == t
  }

  function SortByTrigger<A>(phases: seq<Phase<A>>): seq<Phase<A>> {
    Sorting.Sort(phases, TriggerLe())
  }

  /**
   * `PhaseTimer::new` sorts by trigger minute: the result is ordered, holds the same
   * phases, and phases with equal trigger minutes keep their input order.
   */
  lemma {:induction false} SortByTriggerOrders<A(!new)>(phases: seq<Phase<A>>)
    ensures forall i, j :: 0 <= i < j < |SortByTrigger(phases)| ==>
      SortByTrigger(phases)[i].triggerTime <= SortByTrigger(phases)[j].triggerTime
    ensures multiset(SortByTrigger(phases)) == multiset(phases)
    ensures forall t: nat :: Sorting.Filter(SortByTrigger(phases), AtTrigger(t)) == Sorting.Filter(phases, AtTrigger(t))
  {
    var le := TriggerLe<A>();
    Sorting.SortSorted(phases, le);
    forall t: nat
      ensures Sorting.Filter(SortByTrigger(phases), AtTrigger(t)) == Sorting.Filter(phases, AtTrigger(t))
    {
      Sorting.SortStable(phases, le, AtTrigger(t));
    }
  }

  /** The division at line 134 needs a positive interval for every reached recurring phase. */
  predicate Computable<A>(p: Phase<A>, cur: nat) {
    p.triggerTime <= cur && p.phaseType.Recurring? ==> p.phaseType.interval > 0
  }

  predicate AllComputable<A>(phases: seq<Phase<A>>, cur: nat) {
    forall i :: 0 <= i < |phases| ==> Computable(phases[i], cur)
  }

  /** The latest occurrence `trigger + k * interval` not after `cur` (lines 133-136). */
  function LastOccurrence(triggerTime: nat, interval: nat, cur: nat): nat
    requires interval > 0 && triggerTime <= cur
  {
    var timeSinceTrigger := cur - triggerTime;
    var expectedOccurrences := Arith.Quotient(timeSinceTrigger, interval) + 1;
    triggerTime + Arith.Times(expectedOccurrences - 1, interval)
  }

  /** The last occurrence lies in `(cur - interval, cur]` and not before the trigger minute. */
  lemma {:induction false} LastOccurrenceBounds(triggerTime: nat, interval: nat, cur: nat)
    requires interval > 0 && triggerTime <= cur
    ensures triggerTime <= LastOccurrence(triggerTime, interval, cur) <= cur
    ensures cur < LastOccurrence(triggerTime, interval, cur) + interval
  {
  }

  /** In Rust's own arithmetic: `trigger + ((cur - trigger) / interval) * interval`, on the grid. */
  lemma {:induction false} LastOccurrenceFormula(triggerTime: nat, interval: nat, cur: nat)
    requires interval > 0 && triggerTime <= cur
    ensures LastOccurrence(triggerTime, interval, cur) == triggerTime + ((cur - triggerTime) / interval) * interval
    ensures (LastOccurrence(triggerTime, interval, cur) - triggerTime) % interval == 0
  {
    var q := Arith.Quotient(cur - triggerTime, interval);
    Arith.QuotientIsDiv(cur - triggerTime, interval);
    Arith.TimesIsMul(q, interval);
    Arith.DivModUnique(q * interval, interval, q, 0);
  }

  /** An occurrence `trigger + k * interval` in `(cur - interval, cur]` is the last occurrence. */
  lemma {:induction false} LastOccurrenceUnique(triggerTime: nat, interval: nat, cur: nat, k: nat)
    requires interval > 0 && triggerTime <= cur
    requires triggerTime + k * interval <= cur < triggerTime + k * interval + interval
    ensures LastOccurrence(triggerTime, interval, cur) == triggerTime + k * interval
  {
    Arith.TimesIsMul(k, interval);
    Arith.QuotientUnique(cur - triggerTime, interval, k);
  }

  /**
   * `should_trigger_phase` for a reached phase: the effective trigger time, if the phase
   * has not fired since then.
   */
  function ShouldTrigger<A>(p: Phase<A>, cur: nat): Option<nat>
    requires p.triggerTime <= cur && Computable(p, cur)
  {
    match p.phaseType
    case OneTime =>
      if p.lastActionTime < p.triggerTime then Some(p.triggerTime) else None
    case Recurring(interval) =>
      var lastOccurrenceTime := LastOccurrence(p.triggerTime, interval, cur);
      if p.lastActionTime < lastOccurrenceTime then Some(lastOccurrenceTime) else None
  }

  /** The `filter` then `filter_map` of `calculate_action_at_time` for one phase. */
  function Effective<A>(p: Phase<A>, cur: nat): Option<nat>
    requires Computable(p, cur)
  {
    if cur >= p.triggerTime then ShouldTrigger(p, cur) else None
  }

  /**
   * A phase is a candidate only once reached; a one-time phase iff it has not fired since its
   * trigger minute, with that minute as key; a recurring one iff it has not fired since its
   * last occurrence, with that occurrence as key. A key is never before the trigger
   * minute, never after `cur`, and always after the last action time.
   */
  lemma {:induction false} EffectiveCases<A>(p: Phase<A>, cur: nat)
    requires Computable(p, cur)
    ensures cur < p.triggerTime ==> Effective(p, cur).None?
    ensures cur >= p.triggerTime && p.phaseType.OneTime? ==>
      Effective(p, cur) == (if p.lastActionTime < p.triggerTime then Some(p.triggerTime) else None)
    ensures cur >= p.triggerTime && p.phaseType.Recurring? ==>
      var e := LastOccurrence(p.triggerTime, p.phaseType.interval, cur);
      Effective(p, cur) == (if p.lastActionTime < e then Some(e) else None)
    ensures Effective(p, cur).Some? ==>
      p.triggerTime <= Effective(p, cur).value <= cur && p.lastActionTime < Effective(p, cur).value
  {
    if cur >= p.triggerTime && p.phaseType.Recurring? {
      LastOccurrenceBounds(p.triggerTime, p.phaseType.interval, cur);
    }
  }

  /**
   * The `(key, index)` that `max_by_key` picks among the candidates: a left fold that moves
   * to a later candidate whenever its key is at least the best so far, so the last maximum
   * wins.
   */
  function MaxCandidate<A>(phases: seq<Phase<A>>, cur: nat): (best: Option<(nat, nat)>)
    requires AllComputable(phases, cur)
    ensures best.Some? ==> best.value.1 < |phases|
    decreases |phases|
  {
    if phases == [] then None
    else
      var n := |phases| - 1;
      assert AllComputable(phases[..n], cur) by {
        forall i | 0 <= i < n ensures Computable(phases[..n][i], cur) {
          assert phases[..n][i] == phases[i];
        }
      }
      var best := MaxCandidate(phases[..n], cur);
      match Effective(phases[n], cur)
      case None => best
      case Some(e) => if best.None? || best.value.0 <= e then Some((e, n)) else best
  }

  /** The index of the phase that fires at `cur`, if any. */
  function Winner<A>(phases: seq<Phase<A>>, cur: nat): (w: Option<nat>)
    requires AllComputable(phases, cur)
    ensures w.Some? ==> w.value < |phases|
  {
    match MaxCandidate(phases, cur)
    case None => None
    case Some(best) => Some(best.1)
  }

  /**
   * The winner is the candidate with the latest effective time, and the last such
   * candidate in list order; there is a winner iff there is any candidate.
   */
  lemma {:induction false} WinnerIsLastMaximum<A>(phases: seq<Phase<A>>, cur: nat)
    requires AllComputable(phases, cur)
    ensures Winner(phases, cur).None? <==> forall i :: 0 <= i < |phases| ==> Effective(phases[i], cur).None?
    ensures Winner(phases, cur).Some? ==> Effective(phases[Winner(phases, cur).value], cur).Some?
    ensures Winner(phases, cur).Some? ==> forall i :: 0 <= i < |phases| && Effective(phases[i], cur).Some? ==>
      Effective(phases[i], cur).value <= Effective(phases[Winner(phases, cur).value], cur).value
    ensures Winner(phases, cur).Some? ==> forall i :: Winner(phases, cur).value < i < |phases| && Effective(phases[i], cur).Some? ==>
      Effective(phases[i], cur).value < Effective(phases[Winner(phases, cur).value], cur).value
  {
    MaxCandidateIsLastMaximum(phases, cur);
  }

  lemma {:induction false} MaxCandidateIsLastMaximum<A>(phases: seq<Phase<A>>, cur: nat)
    requires AllComputable(phases, cur)
    ensures MaxCandidate(phases, cur).None? <==> forall i :: 0 <= i < |phases| ==> Effective(phases[i], cur).None?
    ensures MaxCandidate(phases, cur).Some? ==>
      Effective(phases[MaxCandidate(phases, cur).value.1], cur) == Some(MaxCandidate(phases, cur).value.0)
    ensures MaxCandidate(phases, cur).Some? ==> forall i :: 0 <= i < |phases| && Effective(phases[i], cur).Some? ==>
      Effective(phases[i], cur).value <= MaxCandidate(phases, cur).value.0
    ensures MaxCandidate(phases, cur).Some? ==> forall i :: MaxCandidate(phases, cur).value.1 < i < |phases| && Effective(phases[i], cur).Some? ==>
      Effective(phases[i], cur).value < MaxCandidate(phases, cur).value.0
    decreases |phases|
  {
    if phases != [] {
      var n := |phases| - 1;
      var init := phases[..n];
      assert forall i :: 0 <= i < n ==> init[i] == phases[i];
      MaxCandidateIsLastMaximum(init, cur);
    }
  }

  /** The phases after a call at `cur`. */
  function StepPhases<A>(phases: seq<Phase<A>>, cur: nat): (r: seq<Phase<A>>)
    requires AllComputable(phases, cur)
    ensures |r| == |phases|
  {
    match Winner(phases, cur)
    case None => phases
    case Some(w) => phases[w := phases[w].(lastActionTime := cur)]
  }

  /**
   * Only the winner changes, and only its last action time, which becomes `cur`; with no
   * winner nothing changes.
   */
  lemma {:induction false} StepChangesOnlyWinner<A>(phases: seq<Phase<A>>, cur: nat)
    requires AllComputable(phases, cur)
    ensures forall i :: 0 <= i < |phases| && Winner(phases, cur) != Some(i) ==> StepPhases(phases, cur)[i] == phases[i]
    ensures Winner(phases, cur).Some? ==>
      StepPhases(phases, cur)[Winner(phases, cur).value] == phases[Winner(phases, cur).value].(lastActionTime := cur)
    ensures Winner(phases, cur).None? ==> StepPhases(phases, cur) == phases
  {
  }

  /** The action a call at `cur` returns. */
  function ActionAt<A>(phases: seq<Phase<A>>, cur: nat): Option<A>
    requires AllComputable(phases, cur)
  {
    match Winner(phases, cur)
    case None => None
    case Some(w) => Some(phases[w].action)
  }

  /** The phases after `reset`: same order, same phases, nothing fired. */
  function ResetPhases<A>(phases: seq<Phase<A>>): (r: seq<Phase<A>>)
    ensures |r| == |phases|
    ensures forall i :: 0 <= i < |phases| ==> r[i] == phases[i].(lastActionTime := 0)
  {
    seq(|phases|, i requires 0 <= i < |phases| => phases[i].(lastActionTime := 0))
  }

  class PhaseTimer<A> {
    var phases: seq<Phase<A>>

    /** `PhaseTimer::new`: the phases sorted stably by trigger minute. */
    constructor (phases: seq<Phase<A>>)
      ensures this.phases == SortByTrigger(phases)
    {
      this.phases := SortByTrigger(phases);
    }

    /** `PhaseTimer::reset`: every phase forgets when it last fired. */
    method Reset()
      modifies this
      ensures phases == ResetPhases(old(phases))
    {
      var i := 0;
      while i < |phases|
        invariant 0 <= i <= |phases| && |phases| == |old(phases)|
        invariant forall k :: 0 <= k < i ==> phases[k] == old(phases)[k].(lastActionTime := 0)
        invariant forall k :: i <= k < |phases| ==> phases[k] == old(phases)[k]
      {
        phases := phases[i := phases[i].(lastActionTime := 0)];
        i := i + 1;
      }
    }

    /** `PhaseTimer::calculate_action_at_time`. */
    method CalculateActionAtTime(cur: nat) returns (action: Option<A>)
      requires AllComputable(phases, cur)
      modifies this
      ensures action == ActionAt(old(phases), cur)
      ensures phases == StepPhases(old(phases), cur)
    {
      var best := Winner(phases, cur);
      if best.Some? {
        var phaseIndex := best.value;
        phases := phases[phaseIndex := phases[phaseIndex].(lastActionTime := cur)];
        action := Some(phases[phaseIndex].action);
      } else {
        action := None;
      }
    }
  }

  /** Every reached recurring phase has a positive interval, however late the call. */
  predicate IntervalsPositive<A>(phases: seq<Phase<A>>) {
    forall i :: 0 <= i < |phases| && phases[i].phaseType.Recurring? ==> phases[i].phaseType.interval > 0
  }

  /** The winners of successive calls at the given minutes. */
  function Winners<A>(phases: seq<Phase<A>>, times: seq<nat>): (ws: seq<Option<nat>>)
    requires IntervalsPositive(phases)
    ensures |ws| == |times|
    decreases |times|
  {
    if times == [] then []
    else
      var next := StepPhases(phases, times[0]);
      assert IntervalsPositive(next) by {
        StepChangesOnlyWinner(phases, times[0]);
      }
      [Winner(phases, times[0])] + Winners(next, times[1..])
  }

  /** A call where every phase starts later returns nothing and changes nothing. */
  lemma {:induction false} NothingBeforeFirstTrigger<A>(phases: seq<Phase<A>>, cur: nat)
    requires forall i :: 0 <= i < |phases| ==> cur < phases[i].triggerTime
    ensures AllComputable(phases, cur)
    ensures ActionAt(phases, cur).None? && StepPhases(phases, cur) == phases
  {
    WinnerIsLastMaximum(phases, cur);
  }

  /** A one-time phase that has fired (its last action is at or after its trigger) never wins again. */
  lemma {:induction false} SpentOneTimeNeverWins<A>(phases: seq<Phase<A>>, times: seq<nat>, i: nat)
    requires IntervalsPositive(phases)
    requires i < |phases| && phases[i].phaseType.OneTime?
    requires phases[i].lastActionTime >= phases[i].triggerTime
    ensures forall k :: 0 <= k < |times| ==> Winners(phases, times)[k] != Some(i)
    decreases |times|
  {
    if times != [] {
      var next := StepPhases(phases, times[0]);
      EffectiveCases(phases[i], times[0]);
      WinnerIsLastMaximum(phases, times[0]);
      StepChangesOnlyWinner(phases, times[0]);
      assert next[i] == phases[i];
      SpentOneTimeNeverWins(next, times[1..], i);
      assert Winners(phases, times)[1..] == Winners(next, times[1..]);
    }
  }

  /** Between two resets a one-time phase fires at most once. */
  lemma {:induction false} OneTimeFiresAtMostOnce<A>(phases: seq<Phase<A>>, times: seq<nat>, i: nat)
    requires IntervalsPositive(phases)
    requires i < |phases| && phases[i].phaseType.OneTime?
    ensures forall k, l :: 0 <= k < l < |times| && Winners(phases, times)[k] == Some(i) ==>
      Winners(phases, times)[l] != Some(i)
    decreases |times|
  {
    if times != [] {
      var next := StepPhases(phases, times[0]);
      var ws := Winners(phases, times);
      assert ws[1..] == Winners(next, times[1..]);
      StepChangesOnlyWinner(phases, times[0]);
      if ws[0] == Some(i) {
        WinnerIsLastMaximum(phases, times[0]);
        EffectiveCases(phases[i], times[0]);
        assert next[i].lastActionTime == times[0] >= phases[i].triggerTime;
        SpentOneTimeNeverWins(next, times[1..], i);
      }
      OneTimeFiresAtMostOnce(next, times[1..], i);
      forall k, l | 0 <= k < l < |times| && ws[k] == Some(i)
        ensures ws[l] != Some(i)
      {
        if k > 0 {
          assert ws[k] == Winners(next, times[1..])[k - 1];
          assert ws[l] == Winners(next, times[1..])[l - 1];
        }
      }
    }
  }

  /** After `reset` a one-time phase with a positive trigger minute can fire again. */
  lemma {:induction false} ResetRearmsOneTime<A>(phases: seq<Phase<A>>, cur: nat, i: nat)
    requires i < |phases| && phases[i].phaseType.OneTime? && 0 < phases[i].triggerTime <= cur
    ensures Computable(ResetPhases(phases)[i], cur)
    ensures Effective(ResetPhases(phases)[i], cur) == Some(phases[i].triggerTime)
  {
  }

  /**
   * A one-time phase at minute 0 never fires: its last action time starts at 0 and the
   * comparison `last_action_time < trigger_time` is strict.
   */
  lemma {:induction false} OneTimeAtZeroNeverFires<A>(p: Phase<A>, cur: nat)
    requires p.phaseType.OneTime? && p.triggerTime == 0
    ensures Computable(p, cur) && Effective(p, cur).None?
  {
  }

  /**
   * A recurring phase that last fired before the occurrence `trigger + k * interval`
   * due at `cur` is a candidate with exactly that effective time.
   */
  lemma {:induction false} RecurringDueOccurrence<A>(p: Phase<A>, cur: nat, k: nat)
    requires p.phaseType.Recurring? && p.phaseType.interval > 0
    requires p.triggerTime + k * p.phaseType.interval <= cur < p.triggerTime + (k + 1) * p.phaseType.interval
    requires p.lastActionTime < p.triggerTime + k * p.phaseType.interval
    ensures Computable(p, cur) && Effective(p, cur) == Some(p.triggerTime + k * p.phaseType.interval)
  {
    LastOccurrenceUnique(p.triggerTime, p.phaseType.interval, cur, k);
  }
}
