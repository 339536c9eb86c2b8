/** The concrete timer runs that the timer's own unit tests describe. */
module TimerScenarios {
  import opened Wrappers
  import opened Timer

  datatype TestAction = Initial | Reminder | Stop

  /** The winner among a single phase. */
  lemma {:induction false} WinnerOfOne<A>(p: Phase<A>, cur: nat)
    requires Computable(p, cur)
    ensures AllComputable([p], cur)
    ensures Winner([p], cur) == (if Effective(p, cur).Some? then Some(0) else None)
  {
    assert [p][..0] == [];
  }

  /** The winner among two phases: the second on a tie. */
  lemma {:induction false} WinnerOfTwo<A>(p: Phase<A>, q: Phase<A>, cur: nat)
    requires Computable(p, cur) && Computable(q, cur)
    ensures AllComputable([p, q], cur)
    ensures Winner([p, q], cur) ==
      if Effective(q, cur).Some? && (Effective(p, cur).None? || Effective(p, cur).value <= Effective(q, cur).value) then Some(1)
      else if Effective(p, cur).Some? then Some(0)
      else None
  {
    var s := [p, q];
    assert s[..1] == [p];
    assert [p][..0] == [];
    assert MaxCandidate([p], cur) == (if Effective(p, cur).Some? then Some((Effective(p, cur).value, 0)) else None);
  }

  /** Creation sorts the phases by trigger minute. */
  method CreatesSortedPhases() returns (triggers: seq<nat>)
    ensures triggers == [30, 90]
  {
    var timer := new PhaseTimer([OneTimePhase(90, Initial), RecurringPhase(30, 10, Reminder)]);
    assert timer.phases == [RecurringPhase(30, 10, Reminder), OneTimePhase(90, Initial)];
    triggers := [timer.phases[0].triggerTime, timer.phases[1].triggerTime];
  }

  const O0: seq<Phase<TestAction>> := [OneTimePhase(90, Initial)]
  const O1: seq<Phase<TestAction>> := [Phase(90, OneTime, Initial, 90)]

  lemma {:induction false} OneTimeSteps()
    ensures AllComputable(O0, 45) && ActionAt(O0, 45) == None && StepPhases(O0, 45) == O0
    ensures AllComputable(O0, 90) && ActionAt(O0, 90) == Some(Initial) && StepPhases(O0, 90) == O1
    ensures AllComputable(O1, 95) && ActionAt(O1, 95) == None && StepPhases(O1, 95) == O1
  {
    WinnerOfOne(O0[0], 45);
    WinnerOfOne(O0[0], 90);
    WinnerOfOne(O1[0], 95);
  }

  /** Nothing fires before the trigger minute; a one-time phase fires once. */
  method OneTimeScenario() returns (at45: Option<TestAction>, at90: Option<TestAction>, at95: Option<TestAction>)
    ensures at45 == None && at90 == Some(Initial) && at95 == None
  {
    var timer := new PhaseTimer([OneTimePhase(90, Initial)]);
    assert timer.phases == O0;
    OneTimeSteps();
    at45 := timer.CalculateActionAtTime(45);
    at90 := timer.CalculateActionAtTime(90);
    at95 := timer.CalculateActionAtTime(95);
  }

  const R0: seq<Phase<TestAction>> := [RecurringPhase(90, 10, Reminder)]
  const R1: seq<Phase<TestAction>> := [Phase(90, Recurring(10), Reminder, 90)]

  lemma {:induction false} RecurringSteps()
    ensures AllComputable(R0, 90) && ActionAt(R0, 90) == Some(Reminder) && StepPhases(R0, 90) == R1
    ensures AllComputable(R1, 95) && ActionAt(R1, 95) == None && StepPhases(R1, 95) == R1
    ensures AllComputable(R1, 100) && ActionAt(R1, 100) == Some(Reminder)
  {
    WinnerOfOne(R0[0], 90);
    LastOccurrenceUnique(90, 10, 90, 0);
    WinnerOfOne(R1[0], 95);
    LastOccurrenceUnique(90, 10, 95, 0);
    WinnerOfOne(R1[0], 100);
    LastOccurrenceUnique(90, 10, 100, 1);
  }

  /** A recurring phase fires at 90, stays quiet at 95 and fires again at 100. */
  method RecurringScenario() returns (actions: seq<Option<TestAction>>)
    ensures actions == [Some(Reminder), None, Some(Reminder)]
  {
    var timer := new PhaseTimer([RecurringPhase(90, 10, Reminder)]);
    assert timer.phases == R0;
    RecurringSteps();
    var a := timer.CalculateActionAtTime(90);
    var b := timer.CalculateActionAtTime(95);
    var c := timer.CalculateActionAtTime(100);
    actions := [a, b, c];
  }

  /** The phases of the multiple-phase run, before each call. */
  const M0: seq<Phase<TestAction>> := [RecurringPhase(60, 30, Reminder), OneTimePhase(120, Stop)]
  const M1: seq<Phase<TestAction>> := [Phase(60, Recurring(30), Reminder, 60), OneTimePhase(120, Stop)]
  const M2: seq<Phase<TestAction>> := [Phase(60, Recurring(30), Reminder, 90), OneTimePhase(120, Stop)]
  const M3: seq<Phase<TestAction>> := [Phase(60, Recurring(30), Reminder, 90), Phase(120, OneTime, Stop, 120)]
  const M4: seq<Phase<TestAction>> := [Phase(60, Recurring(30), Reminder, 125), Phase(120, OneTime, Stop, 120)]

  lemma {:induction false} MultipleAt60()
    ensures AllComputable(M0, 60) && ActionAt(M0, 60) == Some(Reminder) && StepPhases(M0, 60) == M1
  {
    WinnerOfTwo(M0[0], M0[1], 60);
    LastOccurrenceUnique(60, 30, 60, 0);
  }

  lemma {:induction false} MultipleAt90()
    ensures AllComputable(M1, 90) && ActionAt(M1, 90) == Some(Reminder) && StepPhases(M1, 90) == M2
  {
    WinnerOfTwo(M1[0], M1[1], 90);
    LastOccurrenceUnique(60, 30, 90, 1);
  }

  /** At 120 the reminder's third occurrence and the stop are both due; the stop is later in the list. */
  lemma {:induction false} MultipleAt120()
    ensures AllComputable(M2, 120) && ActionAt(M2, 120) == Some(Stop) && StepPhases(M2, 120) == M3
  {
    WinnerOfTwo(M2[0], M2[1], 120);
    LastOccurrenceUnique(60, 30, 120, 2);
  }

  /** The reminder's 120 occurrence was never recorded, so it fires at 125. */
  lemma {:induction false} MultipleAt125()
    ensures AllComputable(M3, 125) && ActionAt(M3, 125) == Some(Reminder) && StepPhases(M3, 125) == M4
  {
    WinnerOfTwo(M3[0], M3[1], 125);
    LastOccurrenceUnique(60, 30, 125, 2);
  }

  lemma {:induction false} MultipleAt150()
    ensures AllComputable(M4, 150) && ActionAt(M4, 150) == Some(Reminder)
  {
    WinnerOfTwo(M4[0], M4[1], 150);
    LastOccurrenceUnique(60, 30, 150, 3);
  }

  /**
   * A recurring reminder with a one-time stop at 120: the stop wins at 120, and the
   * reminder, whose 120 slot went unused, fires at 125.
   */
  method MultiplePhases() returns (actions: seq<Option<TestAction>>)
    ensures actions == [Some(Reminder), Some(Reminder), Some(Stop), Some(Reminder), Some(Reminder)]
  {
    var timer := new PhaseTimer([RecurringPhase(60, 30, Reminder), OneTimePhase(120, Stop)]);
    assert timer.phases == M0;
    MultipleAt60();
    var a := timer.CalculateActionAtTime(60);
    MultipleAt90();
    var b := timer.CalculateActionAtTime(90);
    MultipleAt120();
    var c := timer.CalculateActionAtTime(120);
    MultipleAt125();
    var d := timer.CalculateActionAtTime(125);
    MultipleAt150();
    var e := timer.CalculateActionAtTime(150);
    actions := [a, b, c, d, e];
  }

  /** After a reset the one-time phase fires again. */
  method ResetScenario() returns (first: Option<TestAction>, again: Option<TestAction>)
    ensures first == Some(Initial) && again == Some(Initial)
  {
    var timer := new PhaseTimer([OneTimePhase(90, Initial)]);
    assert timer.phases == O0;
    OneTimeSteps();
    first := timer.CalculateActionAtTime(90);
    timer.Reset();
    assert timer.phases == O0;
    again := timer.CalculateActionAtTime(90);
  }

  const I0: seq<Phase<TestAction>> := [RecurringPhase(60, 10, Reminder), RecurringPhase(61, 5, Stop)]
  const I1: seq<Phase<TestAction>> := [Phase(60, Recurring(10), Reminder, 60), RecurringPhase(61, 5, Stop)]

  lemma {:induction false} IndependentAt60()
    ensures AllComputable(I0, 60) && ActionAt(I0, 60) == Some(Reminder) && StepPhases(I0, 60) == I1
  {
    WinnerOfTwo(I0[0], I0[1], 60);
    LastOccurrenceUnique(60, 10, 60, 0);
  }

  /** The first phase last fired at 60, the second never: only the second is due at 61. */
  lemma {:induction false} IndependentAt61()
    ensures AllComputable(I1, 61) && ActionAt(I1, 61) == Some(Stop)
  {
    WinnerOfTwo(I1[0], I1[1], 61);
    LastOccurrenceUnique(60, 10, 61, 0);
    LastOccurrenceUnique(61, 5, 61, 0);
  }

  /** Each phase keeps its own last action time: the second phase fires right after the first. */
  method IndependentPhases() returns (at60: Option<TestAction>, at61: Option<TestAction>)
    ensures at60 == Some(Reminder) && at61 == Some(Stop)
  {
    var timer := new PhaseTimer([RecurringPhase(60, 10, Reminder), RecurringPhase(61, 5, Stop)]);
    assert timer.phases == I0;
    IndependentAt60();
    at60 := timer.CalculateActionAtTime(60);
    IndependentAt61();
    at61 := timer.CalculateActionAtTime(61);
  }

  /** On a fresh timer at 120 the reminder's third occurrence and the stop have the same effective time. */
  lemma {:induction false} FreshAt120()
    ensures AllComputable(M0, 120) && ActionAt(M0, 120) == Some(Stop)
  {
    WinnerOfTwo(M0[0], M0[1], 120);
    LastOccurrenceUnique(60, 30, 120, 2);
  }

  /** Called first at 120, the timer over a reminder and a one-time stop returns the stop. */
  method PrioritizesLaterPhases() returns (action: Option<TestAction>)
    ensures action == Some(Stop)
  {
    var timer := new PhaseTimer([RecurringPhase(60, 30, Reminder), OneTimePhase(120, Stop)]);
    assert timer.phases == M0;
    FreshAt120();
    action := timer.CalculateActionAtTime(120);
  }

  const T0: seq<Phase<TestAction>> := [OneTimePhase(60, Reminder), OneTimePhase(60, Stop)]

  lemma {:induction false} TieAt90()
    ensures AllComputable(T0, 90) && ActionAt(T0, 90) == Some(Stop)
  {
    WinnerOfTwo(T0[0], T0[1], 90);
  }

  /** Two phases with the same effective time: the later phase in sorted order wins. */
  method TieGoesToLaterPhase() returns (action: Option<TestAction>)
    ensures action == Some(Stop)
  {
    var timer := new PhaseTimer([OneTimePhase(60, Reminder), OneTimePhase(60, Stop)]);
    assert timer.phases == T0;
    TieAt90();
    action := timer.CalculateActionAtTime(90);
  }
}
