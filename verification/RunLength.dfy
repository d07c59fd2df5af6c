// How long a command-free run takes and what it writes: exactly, for every
// sequence of readings.
module RunLength {
  import opened Wrappers
  import opened MachineWords
  import opened Commands
  import opened PresetItems
  import opened ReflowSpec
  import opened ReflowInvariants
  import opened PreheatDecision

  // The poll of the t-th tick.
  type Polls = nat -> Option<Reading>

  // n command-free ticks on an unedited set of presets, the first at time t.
  function Quiet(s: State, presets: Presets, polls: Polls, t: nat, n: nat): State
    decreases n
  {
    if n == 0 then s else Quiet(Advance(s, presets, polls(t)), presets, polls, t + 1, n - 1)
  }

  // The stored reading after n of those ticks.
  function ReadingAt(last: Reading, polls: Polls, t: nat, n: nat): Reading
    decreases n
  {
    if n == 0 then last else ReadingAt(Latest(last, polls(t)), polls, t + 1, n - 1)
  }

  lemma {:induction false} QuietAdd(s: State, presets: Presets, polls: Polls, t: nat, a: nat, b: nat)
    ensures Quiet(s, presets, polls, t, a + b)
         == Quiet(Quiet(s, presets, polls, t, a), presets, polls, t + a, b)
    decreases a
  {
    if a > 0 {
      QuietAdd(Advance(s, presets, polls(t)), presets, polls, t + 1, a - 1, b);
    }
  }

  lemma {:induction false} ReadingAdd(last: Reading, polls: Polls, t: nat, a: nat, b: nat)
    ensures ReadingAt(last, polls, t, a + b)
         == ReadingAt(ReadingAt(last, polls, t, a), polls, t + a, b)
    decreases a
  {
    if a > 0 {
      ReadingAdd(Latest(last, polls(t)), polls, t + 1, a - 1, b);
    }
  }

  lemma {:induction false} QuietIdle(s: State, presets: Presets, polls: Polls, t: nat, n: nat)
    requires s.fault.None? && !s.running
    ensures var q := Quiet(s, presets, polls, t, n); !q.running && q.fault.None? && q.log == s.log
    decreases n
  {
    if n > 0 {
      QuietIdle(Advance(s, presets, polls(t)), presets, polls, t + 1, n - 1);
    }
  }

  // ----- Plans -----

  // What a run does at one stage: wait some out-of-band Preheat ticks, then
  // skip the stage or soak.
  datatype Visit = Skipped(wait: nat) | Soaked(wait: nat)

  function Cost(item: StageItem, v: Visit): nat {
    match v
    case Skipped(wait) => 2 + wait
    case Soaked(wait) => 3 + wait + Max(1, item.duration)
  }

  // The readings make a stage entered at time t go that way: one tick of Init,
  // then the waiting ticks, then the deciding one.
  predicate VisitFits(item: StageItem, v: Visit, last: Reading, polls: Polls, t: nat) {
    && (forall j :: 2 <= j < 2 + v.wait ==> Judge(item.temperature, ReadingAt(last, polls, t, j)) == Wait)
    && Judge(item.temperature, ReadingAt(last, polls, t, 2 + v.wait)) == (if v.Skipped? then Skip else Soak)
  }

  predicate PlanFits(stages: seq<StageItem>, i: nat, plan: seq<Visit>, last: Reading, polls: Polls, t: nat)
    requires i <= |stages|
    decreases |plan|
  {
    && |plan| == |stages| - i
    && (plan != [] ==>
          && VisitFits(stages[i], plan[0], last, polls, t)
          && var c := Cost(stages[i], plan[0]);
             PlanFits(stages, i + 1, plan[1..], ReadingAt(last, polls, t, c), polls, t + c))
  }

  function Total(stages: seq<StageItem>, i: nat, plan: seq<Visit>): nat
    requires i <= |stages| && |plan| == |stages| - i
    decreases |plan|
  {
    if plan == [] then 0 else Cost(stages[i], plan[0]) + Total(stages, i + 1, plan[1..])
  }

  function Setpoints(stages: seq<StageItem>, i: nat): seq<Entry>
    requires i <= |stages|
    decreases |stages| - i
  {
    if i == |stages| then [] else [Setpoint(i, stages[i].temperature)] + Setpoints(stages, i + 1)
  }

  // About to enter a stage.
  ghost predicate AtInit(s: State, presets: Presets) {
    && s.fault.None? && s.running && s.step.InitStep?
    && s.active.Some? && s.active == s.activeId && s.active.value in presets
    && s.index < |presets[s.active.value]|
  }

  ghost predicate AtStage(s: State, presets: Presets) {
    && s.fault.None? && s.running && Coherent(s, presets) && !s.step.InitStep?
    && s.stage.value.length == |presets[s.active.value]|
  }

  // ----- One stage -----

  // n ticks of waiting, in Preheat or in InProgress.
  function Waited(s: State, polls: Polls, t: nat, n: nat): State {
    s.(reading := ReadingAt(s.reading, polls, t, n), clock := s.clock + SYSTICK_RESOLUTION * n)
  }

  lemma {:induction false} PreheatWaits(s: State, presets: Presets, polls: Polls, t: nat, n: nat)
    requires AtStage(s, presets) && s.step.Preheat?
    requires forall j :: 1 <= j <= n ==>
      Judge(presets[s.active.value][s.index].temperature, ReadingAt(s.reading, polls, t, j)) == Wait
    ensures Quiet(s, presets, polls, t, n) == Waited(s, polls, t, n)
    decreases n
  {
    if n > 0 {
      var s' := Advance(s, presets, polls(t));
      var item := presets[s.active.value][s.index];
      assert ReadingAt(s.reading, polls, t, 1) == Latest(s.reading, polls(t));
      PreheatTick(s, presets, polls(t));
      var t' := t + 1;
      forall j | 1 <= j <= n - 1
        ensures Judge(item.temperature, ReadingAt(s'.reading, polls, t', j)) == Wait
      {
        assert ReadingAt(s.reading, polls, t, j + 1) == ReadingAt(s'.reading, polls, t', j);
      }
      PreheatWaits(s', presets, polls, t', n - 1);
    }
  }

  lemma {:induction false} SoakWaits(s: State, presets: Presets, polls: Polls, t: nat, n: nat)
    requires AtStage(s, presets) && s.step.InProgress?
    requires n > 0 ==> s.clock + SYSTICK_RESOLUTION * (n - 1) < s.deadline
    ensures Quiet(s, presets, polls, t, n) == Waited(s, polls, t, n)
    decreases n
  {
    if n > 0 {
      SoakWaits(Advance(s, presets, polls(t)), presets, polls, t + 1, n - 1);
    }
  }

  // From Init through the waiting ticks of Preheat.
  lemma EnterAndWait(s: State, presets: Presets, polls: Polls, t: nat, wait: nat)
    requires AtInit(s, presets)
    requires var item := presets[s.active.value][s.index];
      forall j :: 2 <= j < 2 + wait ==> Judge(item.temperature, ReadingAt(s.reading, polls, t, j)) == Wait
    ensures var q := Quiet(s, presets, polls, t, 1 + wait);
      var item := presets[s.active.value][s.index];
      q == s.(stage := Some(StageRef(s.active.value, s.index, |presets[s.active.value]|)), step := Preheat,
              log := s.log + [Setpoint(s.index, item.temperature)],
              reading := ReadingAt(s.reading, polls, t, 1 + wait),
              clock := s.clock + SYSTICK_RESOLUTION * (1 + wait))
  {
    var item := presets[s.active.value][s.index];
    var p := Advance(s, presets, polls(t));
    assert p.reading == Latest(s.reading, polls(t));
    var t' := t + 1;
    forall j | 1 <= j <= wait
      ensures Judge(item.temperature, ReadingAt(p.reading, polls, t', j)) == Wait
    {
      assert ReadingAt(s.reading, polls, t, j + 1) == ReadingAt(p.reading, polls, t', j);
    }
    PreheatWaits(p, presets, polls, t', wait);
  }

  // q is s after `ticks` ticks that took it through its stage: in the next
  // stage's Init, or idle after the last.
  ghost predicate LeftStage(s: State, q: State, presets: Presets, ticks: nat, last: Reading)
    requires AtInit(s, presets)
  {
    var stages := presets[s.active.value];
    var wrote := s.log + [Setpoint(s.index, stages[s.index].temperature)];
    && q.fault.None? && q.reading == last
    && if s.index + 1 < |stages|
       then AtInit(q, presets) && q.active == s.active && q.index == s.index + 1 && q.log == wrote
            && q.clock == s.clock + SYSTICK_RESOLUTION * ticks
       else !q.running && q.active.None? && q.index == 0 && q.log == wrote + [HeaterOff] && q.clock == 1
  }

  lemma OneMoreTick(s: State, presets: Presets, polls: Polls, t: nat, n: nat)
    ensures Quiet(s, presets, polls, t, n + 1) == Advance(Quiet(s, presets, polls, t, n), presets, polls(t + n))
    ensures ReadingAt(s.reading, polls, t, n + 1) == Latest(ReadingAt(s.reading, polls, t, n), polls(t + n))
  {
    QuietAdd(s, presets, polls, t, n, 1);
    ReadingAdd(s.reading, polls, t, n, 1);
    var q, r, t' := Quiet(s, presets, polls, t, n), ReadingAt(s.reading, polls, t, n), t + n;
    assert Quiet(q, presets, polls, t', 1) == Quiet(Advance(q, presets, polls(t')), presets, polls, t' + 1, 0);
    assert ReadingAt(r, polls, t', 1) == ReadingAt(Latest(r, polls(t')), polls, t' + 1, 0);
  }

  lemma SkipVisit(s: State, presets: Presets, polls: Polls, t: nat, wait: nat)
    requires AtInit(s, presets)
    requires VisitFits(presets[s.active.value][s.index], Skipped(wait), s.reading, polls, t)
    ensures Quiet(s, presets, polls, t, 1 + wait).running
    ensures LeftStage(s, Quiet(s, presets, polls, t, 2 + wait), presets, 2 + wait,
                      ReadingAt(s.reading, polls, t, 2 + wait))
  {
    EnterAndWait(s, presets, polls, t, wait);
    OneMoreTick(s, presets, polls, t, 1 + wait);
    PreheatTick(Quiet(s, presets, polls, t, 1 + wait), presets, polls(t + (1 + wait)));
  }

  // The tick that finds the table in band.
  lemma EnterSoak(s: State, presets: Presets, polls: Polls, t: nat, wait: nat)
    requires AtInit(s, presets)
    requires VisitFits(presets[s.active.value][s.index], Soaked(wait), s.reading, polls, t)
    ensures var item := presets[s.active.value][s.index];
      var entered := s.clock + SYSTICK_RESOLUTION * (1 + wait);
      Quiet(s, presets, polls, t, 2 + wait) ==
        s.(stage := Some(StageRef(s.active.value, s.index, |presets[s.active.value]|)), step := InProgress,
           log := s.log + [Setpoint(s.index, item.temperature)],
           reading := ReadingAt(s.reading, polls, t, 2 + wait),
           deadline := entered + SYSTICK_RESOLUTION * item.duration,
           clock := entered + SYSTICK_RESOLUTION)
  {
    EnterAndWait(s, presets, polls, t, wait);
    OneMoreTick(s, presets, polls, t, 1 + wait);
    PreheatTick(Quiet(s, presets, polls, t, 1 + wait), presets, polls(t + (1 + wait)));
  }

  lemma SoakEntered(s: State, presets: Presets, polls: Polls, t: nat, wait: nat)
    requires AtInit(s, presets)
    requires VisitFits(presets[s.active.value][s.index], Soaked(wait), s.reading, polls, t)
    ensures var entered := Quiet(s, presets, polls, t, 2 + wait);
      && AtStage(entered, presets) && entered.step.InProgress?
      && entered.deadline
         == entered.clock + SYSTICK_RESOLUTION * (presets[s.active.value][s.index].duration - 1)
  {
    EnterSoak(s, presets, polls, t, wait);
  }

  // From there up to the tick that finds the deadline passed.
  lemma SoakBody(s: State, presets: Presets, polls: Polls, t: nat, wait: nat)
    requires AtInit(s, presets)
    requires VisitFits(presets[s.active.value][s.index], Soaked(wait), s.reading, polls, t)
    ensures var rest := Max(1, presets[s.active.value][s.index].duration) - 1;
      Quiet(s, presets, polls, t, 2 + wait + rest)
      == Waited(Quiet(s, presets, polls, t, 2 + wait), polls, t + (2 + wait), rest)
  {
    SoakEntered(s, presets, polls, t, wait);
    var rest := Max(1, presets[s.active.value][s.index].duration) - 1;
    SoakWaits(Quiet(s, presets, polls, t, 2 + wait), presets, polls, t + (2 + wait), rest);
    QuietAdd(s, presets, polls, t, 2 + wait, rest);
  }

  // That tick.
  lemma SoakDone(s: State, presets: Presets, polls: Polls, t: nat, wait: nat)
    requires AtInit(s, presets)
    requires VisitFits(presets[s.active.value][s.index], Soaked(wait), s.reading, polls, t)
    ensures var item := presets[s.active.value][s.index];
      var n := 2 + wait + Max(1, item.duration); var q := Quiet(s, presets, polls, t, n);
      q == s.(stage := q.stage, step := StageCompleted, deadline := q.deadline,
              log := s.log + [Setpoint(s.index, item.temperature)],
              reading := ReadingAt(s.reading, polls, t, n), clock := s.clock + SYSTICK_RESOLUTION * n)
  {
    var n := 1 + wait + Max(1, presets[s.active.value][s.index].duration);
    EnterSoak(s, presets, polls, t, wait);
    SoakBody(s, presets, polls, t, wait);
    ReadingAdd(s.reading, polls, t, 2 + wait, n - (2 + wait));
    OneMoreTick(s, presets, polls, t, n);
  }

  lemma SoakVisit(s: State, presets: Presets, polls: Polls, t: nat, wait: nat)
    requires AtInit(s, presets)
    requires VisitFits(presets[s.active.value][s.index], Soaked(wait), s.reading, polls, t)
    ensures var c := Cost(presets[s.active.value][s.index], Soaked(wait));
      && Quiet(s, presets, polls, t, c - 1).running
      && LeftStage(s, Quiet(s, presets, polls, t, c), presets, c, ReadingAt(s.reading, polls, t, c))
  {
    SoakDone(s, presets, polls, t, wait);
    OneMoreTick(s, presets, polls, t, 2 + wait + Max(1, presets[s.active.value][s.index].duration));
  }

  // A stage takes exactly its cost.
  lemma VisitLength(s: State, presets: Presets, polls: Polls, t: nat, v: Visit)
    requires AtInit(s, presets)
    requires VisitFits(presets[s.active.value][s.index], v, s.reading, polls, t)
    ensures var c := Cost(presets[s.active.value][s.index], v);
      && Quiet(s, presets, polls, t, c - 1).running
      && LeftStage(s, Quiet(s, presets, polls, t, c), presets, c, ReadingAt(s.reading, polls, t, c))
  {
    if v.Skipped? {
      SkipVisit(s, presets, polls, t, v.wait);
    } else {
      SoakVisit(s, presets, polls, t, v.wait);
    }
  }

  // ----- The whole run -----

  // When the readings fit a plan, the run is still going one tick before the
  // plan's total and over at it, and has written the temperature of every
  // remaining stage in order, then one zero.
  lemma {:induction false} PlannedRun(s: State, presets: Presets, polls: Polls, t: nat, plan: seq<Visit>)
    requires AtInit(s, presets)
    requires PlanFits(presets[s.active.value], s.index, plan, s.reading, polls, t)
    ensures var stages := presets[s.active.value];
      var n := Total(stages, s.index, plan); var q := Quiet(s, presets, polls, t, n);
      && n > 0 && Quiet(s, presets, polls, t, n - 1).running
      && q.fault.None? && !q.running && q.active.None? && q.clock == 1
      && q.log == s.log + Setpoints(stages, s.index) + [HeaterOff]
    decreases |plan|
  {
    var stages := presets[s.active.value];
    var c := Cost(stages[s.index], plan[0]);
    VisitLength(s, presets, polls, t, plan[0]);
    var next := Quiet(s, presets, polls, t, c);
    if s.index + 1 < |stages| {
      PlannedRun(next, presets, polls, t + c, plan[1..]);
      var rest := Total(stages, s.index + 1, plan[1..]);
      assert Setpoints(stages, s.index) == [Setpoint(s.index, stages[s.index].temperature)] + Setpoints(stages, s.index + 1);
      QuietAdd(s, presets, polls, t, c, rest);
      QuietAdd(s, presets, polls, t, c, rest - 1);
    } else {
      assert Total(stages, s.index, plan) == c;
      assert Setpoints(stages, s.index + 1) == [];
    }
  }

  // ----- The other direction -----

  // A quiet run of a safe controller never faults.
  lemma {:induction false} QuietIsSafe(s: State, presets: Presets, polls: Polls, t: nat, n: nat)
    requires s.fault.None? && Safe(World(s, presets)) && !Dangling(s, presets)
    ensures var q := Quiet(s, presets, polls, t, n);
      q.fault.None? && Safe(World(q, presets)) && !Dangling(q, presets)
    decreases n
  {
    if n > 0 {
      QuietIsSafe(Advance(s, presets, polls(t)), presets, polls, t + 1, n - 1);
    }
  }

  // The first reading before the bound that does not say wait, or the bound.
  lemma {:induction false} FirstDecision(temperature: UInt32, last: Reading, polls: Polls, t: nat, bound: nat)
    returns (j: nat)
    requires bound >= 2
    ensures 2 <= j <= bound
    ensures forall i :: 2 <= i < j ==> Judge(temperature, ReadingAt(last, polls, t, i)) == Wait
    ensures j < bound ==> Judge(temperature, ReadingAt(last, polls, t, j)) != Wait
    decreases bound
  {
    if bound == 2 {
      j := 2;
    } else {
      j := FirstDecision(temperature, last, polls, t, bound - 1);
      if j == bound - 1 && Judge(temperature, ReadingAt(last, polls, t, j)) == Wait {
        j := bound;
      }
    }
  }

  predicate FirstAt(temperature: UInt32, last: Reading, polls: Polls, t: nat, j: nat) {
    && Judge(temperature, ReadingAt(last, polls, t, j)) != Wait
    && forall i :: 2 <= i < j ==> Judge(temperature, ReadingAt(last, polls, t, i)) == Wait
  }

  // The visit a first decision amounts to.
  lemma DecisionIsVisit(item: StageItem, last: Reading, polls: Polls, t: nat, j: nat) returns (v: Visit)
    requires 2 <= j && FirstAt(item.temperature, last, polls, t, j)
    ensures VisitFits(item, v, last, polls, t) && v.wait == j - 2
  {
    v := if Judge(item.temperature, ReadingAt(last, polls, t, j)) == Skip then Skipped(j - 2) else Soaked(j - 2);
  }

  // Idle at n means idle from then on.
  lemma IdleFrom(s: State, presets: Presets, polls: Polls, t: nat, n: nat, m: nat)
    requires n <= m
    requires var q := Quiet(s, presets, polls, t, n); q.fault.None? && !q.running
    ensures var q, r := Quiet(s, presets, polls, t, n), Quiet(s, presets, polls, t, m);
      r.fault.None? && !r.running && r.log == q.log
  {
    QuietIdle(Quiet(s, presets, polls, t, n), presets, polls, t + n, m - n);
    QuietAdd(s, presets, polls, t, n, m - n);
  }

  lemma RunningBefore(s: State, presets: Presets, polls: Polls, t: nat, m: nat, n: nat)
    requires n <= m && Quiet(s, presets, polls, t, m).running
    requires Quiet(s, presets, polls, t, n).fault.None?
    ensures Quiet(s, presets, polls, t, n).running
  {
    if !Quiet(s, presets, polls, t, n).running {
      IdleFrom(s, presets, polls, t, n, m);
    }
  }

  ghost predicate SomePlanWithin(s: State, presets: Presets, polls: Polls, t: nat, n: int)
    requires AtInit(s, presets)
  {
    var stages := presets[s.active.value];
    exists plan :: PlanFits(stages, s.index, plan, s.reading, polls, t) && Total(stages, s.index, plan) <= n
  }

  lemma ExtendPlan(s: State, presets: Presets, polls: Polls, t: nat, v: Visit, n: int)
    requires AtInit(s, presets)
    requires VisitFits(presets[s.active.value][s.index], v, s.reading, polls, t)
    requires var stages := presets[s.active.value]; var c := Cost(stages[s.index], v);
      var next := Quiet(s, presets, polls, t, c);
      && c <= n && LeftStage(s, next, presets, c, ReadingAt(s.reading, polls, t, c))
      && (s.index + 1 < |stages| ==> SomePlanWithin(next, presets, polls, t + c, n - c))
    ensures SomePlanWithin(s, presets, polls, t, n)
  {
    var stages := presets[s.active.value];
    var c := Cost(stages[s.index], v);
    var rest: seq<Visit> := [];
    if s.index + 1 < |stages| {
      var next := Quiet(s, presets, polls, t, c);
      rest :| PlanFits(stages, next.index, rest, next.reading, polls, t + c)
              && Total(stages, next.index, rest) <= n - c;
    }
    var plan := [v] + rest;
    assert plan[1..] == rest;
    assert PlanFits(stages, s.index, plan, s.reading, polls, t);
    assert Total(stages, s.index, plan) <= n;
  }

  // A run that is over after n ticks has been through its current stage by then.
  lemma StageWasLeft(s: State, presets: Presets, polls: Polls, t: nat, n: nat) returns (v: Visit)
    requires AtInit(s, presets)
    requires !Quiet(s, presets, polls, t, n).running
    ensures VisitFits(presets[s.active.value][s.index], v, s.reading, polls, t)
    ensures Cost(presets[s.active.value][s.index], v) <= n
  {
    var item := presets[s.active.value][s.index];
    QuietIsSafe(s, presets, polls, t, n);
    var j := FirstDecision(item.temperature, s.reading, polls, t, 2 + n);
    if j == 2 + n {
      EnterAndWait(s, presets, polls, t, n);
      RunningBefore(s, presets, polls, t, 1 + n, n);
      assert false;
    } else {
      v := DecisionIsVisit(item, s.reading, polls, t, j);
      VisitLength(s, presets, polls, t, v);
      if n < Cost(item, v) {
        RunningBefore(s, presets, polls, t, Cost(item, v) - 1, n);
      }
    }
  }

  // A run that is over after n ticks followed a plan the readings fit: together
  // with PlannedRun, it ends exactly at the total of that plan or not at all.
  lemma {:induction false} EndedRunWasPlanned(s: State, presets: Presets, polls: Polls, t: nat, n: nat)
    requires AtInit(s, presets)
    requires !Quiet(s, presets, polls, t, n).running
    ensures SomePlanWithin(s, presets, polls, t, n)
    decreases |presets[s.active.value]| - s.index
  {
    var v := StageWasLeft(s, presets, polls, t, n);
    var c := Cost(presets[s.active.value][s.index], v);
    VisitLength(s, presets, polls, t, v);
    if s.index + 1 < |presets[s.active.value]| {
      QuietAdd(s, presets, polls, t, c, n - c);
      EndedRunWasPlanned(Quiet(s, presets, polls, t, c), presets, polls, t + c, n - c);
    }
    ExtendPlan(s, presets, polls, t, v, n);
  }

  // ----- Bounded waiting -----

  // The stage about to be entered decides after at most K waiting ticks.
  ghost predicate DecidesWithin(s: State, presets: Presets, polls: Polls, t: nat, K: nat)
    requires AtInit(s, presets)
  {
    var item := presets[s.active.value][s.index];
    exists j :: 2 <= j <= 2 + K && Judge(item.temperature, ReadingAt(s.reading, polls, t, j)) != Wait
  }

  // So does every stage the run comes to, when it comes to it.
  ghost predicate Fair(s: State, presets: Presets, polls: Polls, t: nat, K: nat) {
    forall m: nat ::
      var q := Quiet(s, presets, polls, t, m); AtInit(q, presets) ==> DecidesWithin(q, presets, polls, t + m, K)
  }

  function Bound(stages: seq<StageItem>, i: nat, K: nat): nat
    requires i <= |stages|
    decreases |stages| - i
  {
    if i == |stages| then 0 else 3 + K + Max(1, stages[i].duration) + Bound(stages, i + 1, K)
  }

  lemma FairLater(s: State, presets: Presets, polls: Polls, t: nat, K: nat, c: nat)
    requires Fair(s, presets, polls, t, K)
    ensures Fair(Quiet(s, presets, polls, t, c), presets, polls, t + c, K)
  {
    var next, t' := Quiet(s, presets, polls, t, c), t + c;
    forall m: nat | AtInit(Quiet(next, presets, polls, t', m), presets)
      ensures DecidesWithin(Quiet(next, presets, polls, t', m), presets, polls, t' + m, K)
    {
      QuietAdd(s, presets, polls, t, c, m);
      var n := c + m;
      assert AtInit(Quiet(s, presets, polls, t, n), presets);
    }
  }

  lemma FairStageWaits(s: State, presets: Presets, polls: Polls, t: nat, K: nat) returns (v: Visit)
    requires AtInit(s, presets) && Fair(s, presets, polls, t, K)
    ensures VisitFits(presets[s.active.value][s.index], v, s.reading, polls, t) && v.wait <= K
  {
    var item := presets[s.active.value][s.index];
    assert Quiet(s, presets, polls, t, 0) == s;
    var j := FirstDecision(item.temperature, s.reading, polls, t, 3 + K);
    assert j < 3 + K;
    v := DecisionIsVisit(item, s.reading, polls, t, j);
  }

  lemma LongerHorizon(s: State, presets: Presets, polls: Polls, t: nat, m: int, n: int)
    requires AtInit(s, presets) && m <= n && SomePlanWithin(s, presets, polls, t, m)
    ensures SomePlanWithin(s, presets, polls, t, n)
  {
  }

  lemma ExtendWithin(s: State, presets: Presets, polls: Polls, t: nat, v: Visit, m: nat, n: nat)
    requires AtInit(s, presets)
    requires VisitFits(presets[s.active.value][s.index], v, s.reading, polls, t)
    requires var c := Cost(presets[s.active.value][s.index], v); var next := Quiet(s, presets, polls, t, c);
      && c + m <= n
      && (s.index + 1 < |presets[s.active.value]| ==>
            AtInit(next, presets) && SomePlanWithin(next, presets, polls, t + c, m))
    ensures SomePlanWithin(s, presets, polls, t, n)
  {
    var c := Cost(presets[s.active.value][s.index], v);
    VisitLength(s, presets, polls, t, v);
    if s.index + 1 < |presets[s.active.value]| {
      LongerHorizon(Quiet(s, presets, polls, t, c), presets, polls, t + c, m, n - c);
    }
    ExtendPlan(s, presets, polls, t, v, n);
  }

  lemma {:induction false} FairRunHasPlan(s: State, presets: Presets, polls: Polls, t: nat, K: nat)
    requires AtInit(s, presets) && Fair(s, presets, polls, t, K)
    ensures SomePlanWithin(s, presets, polls, t, Bound(presets[s.active.value], s.index, K))
    decreases |presets[s.active.value]| - s.index
  {
    var stages := presets[s.active.value];
    var v := FairStageWaits(s, presets, polls, t, K);
    var c := Cost(stages[s.index], v);
    if s.index + 1 < |stages| {
      var next := Quiet(s, presets, polls, t, c);
      assert AtInit(next, presets) && next.active == s.active && next.index == s.index + 1 by {
        VisitLength(s, presets, polls, t, v);
      }
      FairLater(s, presets, polls, t, K, c);
      FairRunHasPlan(next, presets, polls, t + c, K);
    }
    ExtendWithin(s, presets, polls, t, v, Bound(stages, s.index + 1, K), Bound(stages, s.index, K));
  }

  lemma PlanEndsRun(s: State, presets: Presets, polls: Polls, t: nat, n: nat)
    requires AtInit(s, presets) && SomePlanWithin(s, presets, polls, t, n)
    ensures var q := Quiet(s, presets, polls, t, n);
      && q.fault.None? && !q.running
      && q.log == s.log + Setpoints(presets[s.active.value], s.index) + [HeaterOff]
  {
    var stages := presets[s.active.value];
    var plan :| PlanFits(stages, s.index, plan, s.reading, polls, t) && Total(stages, s.index, plan) <= n;
    PlannedRun(s, presets, polls, t, plan);
    IdleFrom(s, presets, polls, t, Total(stages, s.index, plan), n);
  }

  // Exact length: a run left alone is over after n ticks if and only if the
  // readings fit a plan whose total is at most n.
  lemma RunLengthExactly(s: State, presets: Presets, polls: Polls, t: nat, n: nat)
    requires AtInit(s, presets)
    ensures !Quiet(s, presets, polls, t, n).running <==> SomePlanWithin(s, presets, polls, t, n)
  {
    if !Quiet(s, presets, polls, t, n).running {
      EndedRunWasPlanned(s, presets, polls, t, n);
    } else if SomePlanWithin(s, presets, polls, t, n) {
      PlanEndsRun(s, presets, polls, t, n);
    }
  }

  // If every stage the run comes to decides after at most K waiting ticks, the
  // run is over within the sum of 3 + K + max(1, d), the whole profile played.
  lemma FairRunEnds(s: State, presets: Presets, polls: Polls, t: nat, K: nat)
    requires AtInit(s, presets) && Fair(s, presets, polls, t, K)
    ensures var stages := presets[s.active.value];
      var q := Quiet(s, presets, polls, t, Bound(stages, s.index, K));
      q.fault.None? && !q.running && q.log == s.log + Setpoints(stages, s.index) + [HeaterOff]
  {
    FairRunHasPlan(s, presets, polls, t, K);
    PlanEndsRun(s, presets, polls, t, Bound(presets[s.active.value], s.index, K));
  }

  lemma EndedRunWasFair(s: State, presets: Presets, polls: Polls, t: nat, n: nat)
    requires AtInit(s, presets) && !Quiet(s, presets, polls, t, n).running
    ensures Fair(s, presets, polls, t, n)
  {
    QuietIsSafe(s, presets, polls, t, n);
    forall m: nat | AtInit(Quiet(s, presets, polls, t, m), presets)
      ensures DecidesWithin(Quiet(s, presets, polls, t, m), presets, polls, t + m, n)
    {
      if n <= m {
        IdleFrom(s, presets, polls, t, n, m);
      } else {
        QuietAdd(s, presets, polls, t, m, n - m);
        var v := StageWasLeft(Quiet(s, presets, polls, t, m), presets, polls, t + m, n - m);
      }
    }
  }

  // A run left alone ends if and only if some such K exists.
  lemma EndsExactlyWhenFair(s: State, presets: Presets, polls: Polls, t: nat)
    requires AtInit(s, presets)
    ensures (exists n: nat :: !Quiet(s, presets, polls, t, n).running)
      <==> exists K: nat :: Fair(s, presets, polls, t, K)
  {
    if n: nat :| !Quiet(s, presets, polls, t, n).running {
      EndedRunWasFair(s, presets, polls, t, n);
    }
    if K: nat :| Fair(s, presets, polls, t, K) {
      FairRunEnds(s, presets, polls, t, K);
    }
  }

  // ----- In terms of events -----

  function QuietTicks(polls: Polls, t: nat, n: nat): seq<Event>
    decreases n
  {
    if n == 0 then [] else [Tick([], polls(t))] + QuietTicks(polls, t + 1, n - 1)
  }

  lemma {:induction false} QuietIsRun(s: State, presets: Presets, polls: Polls, t: nat, n: nat)
    ensures Run(World(s, presets), QuietTicks(polls, t, n)) == World(Quiet(s, presets, polls, t, n), presets)
    decreases n
  {
    if n > 0 {
      var w := World(s, presets);
      var e := Tick([], polls(t));
      assert Apply(w, e).ctrl == Advance(s, presets, polls(t));
      assert QuietTicks(polls, t, n)[1..] == QuietTicks(polls, t + 1, n - 1);
      QuietIsRun(Advance(s, presets, polls(t)), presets, polls, t + 1, n - 1);
    } else {
      assert QuietTicks(polls, t, n) == [];
    }
  }

  // A run started from an armed, idle controller and then left alone: the tick
  // that handles Start counts, and the whole profile is played.
  lemma StartedRunCompletes(w: World, polls: Polls, plan: seq<Visit>)
    requires Invariant(w) && w.ctrl.fault.None? && !w.ctrl.running && w.ctrl.active.Some?
    requires w.presets[w.ctrl.active.value] != []
    requires PlanFits(w.presets[w.ctrl.active.value], 0, plan, w.ctrl.reading, polls, 0)
    ensures var stages := w.presets[w.ctrl.active.value];
      var n := Total(stages, 0, plan);
      var started := [Tick([StartReflow], polls(0))];
      && n > 1
      && Run(w, started + QuietTicks(polls, 1, n - 2)).ctrl.running
      && var s := Run(w, started + QuietTicks(polls, 1, n - 1)).ctrl;
         && s.fault.None? && !s.running
         && s.log == w.ctrl.log + Setpoints(stages, 0) + [HeaterOff]
  {
    var s, stages := HandleStart(w.ctrl), w.presets[w.ctrl.active.value];
    var n := Total(stages, 0, plan);
    assert n > 1 by {
      assert n == Cost(stages[0], plan[0]) + Total(stages, 1, plan[1..]);
    }
    assert AtInit(s, w.presets) && s.index == 0;
    PlannedRun(s, w.presets, polls, 0, plan);
    StartedRun(w, polls, n - 1);
    StartedRun(w, polls, n - 2);
  }

  // The same from an armed, idle controller: started and left alone, it is idle
  // again by the bound.
  lemma StartedRunEnds(w: World, polls: Polls, K: nat)
    requires Invariant(w) && w.ctrl.fault.None? && !w.ctrl.running && w.ctrl.active.Some?
    requires w.presets[w.ctrl.active.value] != []
    requires Fair(HandleStart(w.ctrl), w.presets, polls, 0, K)
    ensures var stages := w.presets[w.ctrl.active.value];
      var n := Bound(stages, 0, K);
      && n > 0
      && var s := Run(w, [Tick([StartReflow], polls(0))] + QuietTicks(polls, 1, n - 1)).ctrl;
         s.fault.None? && !s.running && s.log == w.ctrl.log + Setpoints(stages, 0) + [HeaterOff]
  {
    FairRunEnds(HandleStart(w.ctrl), w.presets, polls, 0, K);
    StartedRun(w, polls, Bound(w.presets[w.ctrl.active.value], 0, K) - 1);
  }

  lemma StartedRun(w: World, polls: Polls, k: nat)
    requires w.ctrl.fault.None?
    ensures Run(w, [Tick([StartReflow], polls(0))] + QuietTicks(polls, 1, k))
         == World(Quiet(HandleStart(w.ctrl), w.presets, polls, 0, k + 1), w.presets)
  {
    StartTick(w, polls(0));
    QuietIsRun(Advance(HandleStart(w.ctrl), w.presets, polls(0)), w.presets, polls, 1, k);
    RunOne(w, Tick([StartReflow], polls(0)), QuietTicks(polls, 1, k));
  }

  // The tick that handles a Start already takes the first step.
  lemma StartTick(w: World, poll: Option<Reading>)
    requires w.ctrl.fault.None?
    ensures Apply(w, Tick([StartReflow], poll)) == World(Advance(HandleStart(w.ctrl), w.presets, poll), w.presets)
  {
    assert Drain(HandleStart(w.ctrl), [], w.presets.Keys) == HandleStart(w.ctrl);
  }

  lemma RunOne(w: World, e: Event, es: seq<Event>)
    ensures Run(w, [e] + es) == Run(Apply(w, e), es)
  {
  }
}
