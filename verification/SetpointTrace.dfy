// What every run writes to the target-temperature register.
module SetpointTrace {
  import opened Wrappers
  import opened Commands
  import opened ReflowSpec
  import opened ReflowInvariants
  import opened ModeRefinement

  predicate IsTarget(e: Entry) {
    e.Setpoint? || e.HeaterOff?
  }

  // The most recent write to the target register, if any.
  function LastTarget(log: seq<Entry>): Option<Entry> {
    if log == [] then None
    else if IsTarget(log[|log| - 1]) then Some(log[|log| - 1])
    else LastTarget(log[..|log| - 1])
  }

  // A setpoint may follow a setpoint of the same stage or of the one before;
  // after a zero, or as the first write, it must be stage 0.
  predicate MayFollow(last: Option<Entry>, index: nat) {
    if last.Some? && last.value.Setpoint?
    then index == last.value.index || index == last.value.index + 1
    else index == 0
  }

  ghost predicate Orderly(log: seq<Entry>) {
    forall b :: 0 <= b < |log| && log[b].Setpoint? ==> MayFollow(LastTarget(log[..b]), log[b].index)
  }

  // The trace discipline together with how the controller's own state tracks
  // the last target write. Idle means that the last one was a zero.
  ghost predicate Traced(s: State) {
    && Orderly(s.log)
    && var last := LastTarget(s.log);
       if !s.running then last.None? || last.value.HeaterOff?
       else if s.step.InitStep? then MayFollow(last, s.index)
       else last.Some? && last.value.Setpoint? && last.value.index == s.index
  }

  lemma LogGrows(log: seq<Entry>, e: Entry)
    requires Orderly(log)
    requires e.Setpoint? ==> MayFollow(LastTarget(log), e.index)
    ensures Orderly(log + [e])
    ensures LastTarget(log + [e]) == if IsTarget(e) then Some(e) else LastTarget(log)
  {
    var longer := log + [e];
    assert longer[..|log|] == log;
    forall b | 0 <= b < |longer| && longer[b].Setpoint?
      ensures MayFollow(LastTarget(longer[..b]), longer[b].index)
    {
      if b < |log| {
        assert longer[..b] == log[..b];
      }
    }
  }

  lemma DispatchKeepsTraced(s: State, c: Command, known: set<nat>)
    requires Traced(s) && (!s.running ==> s.index == 0)
    ensures var t := Dispatch(s, c, known); Traced(t) && (!t.running ==> t.index == 0)
  {
    if s.running && c.StopReflow? {
      LogGrows(s.log, HeaterOff);
    } else if c.SetRegulatorParams? {
      LogGrows(s.log, Regulator(c.k, c.hysteresis));
    }
  }

  lemma {:induction false} DrainKeepsTraced(s: State, batch: seq<Command>, known: set<nat>)
    requires Traced(s) && (!s.running ==> s.index == 0)
    ensures Traced(Drain(s, batch, known))
    decreases |batch|
  {
    if batch != [] {
      DispatchKeepsTraced(s, batch[0], known);
      DrainKeepsTraced(Dispatch(s, batch[0], known), batch[1..], known);
    }
  }

  lemma EndKeepsTraced(s: State)
    requires Orderly(s.log) && s.running
    ensures Traced(HandleEnd(s))
  {
    LogGrows(s.log, HeaterOff);
  }

  lemma MoveKeepsTraced(s: State, presets: Presets)
    requires Traced(s) && s.running && s.active.Some? && !s.step.InitStep?
    ensures Traced(MoveToNextStage(s, presets))
  {
    EndKeepsTraced(s.(index := s.index + 1));
  }

  lemma InitKeepsTraced(s: State, presets: Presets)
    requires Traced(s) && s.running && s.active.Some? && s.step.InitStep?
    ensures Traced(HandleInit(s, presets))
  {
    var stages := StagesOf(presets, s.active.value);
    if s.index < |stages| {
      LogGrows(s.log, Setpoint(s.index, stages[s.index].temperature));
    }
  }

  lemma StepKeepsTraced(s: State, presets: Presets)
    requires Traced(s)
    ensures Traced(ProcessStep(s, presets))
  {
    if s.running && s.active.Some? {
      if s.step.InitStep? {
        InitKeepsTraced(s, presets);
      } else {
        MoveKeepsTraced(s, presets);
      }
    }
  }

  lemma AdvanceKeepsTraced(s: State, presets: Presets, poll: Option<Reading>)
    requires Traced(s)
    ensures Traced(Advance(s, presets, poll))
  {
    StepKeepsTraced(s.(reading := Latest(s.reading, poll)), presets);
  }

  lemma {:induction false} RunKeepsTraced(w: World, es: seq<Event>)
    requires Invariant(w) && Traced(w.ctrl)
    ensures Traced(Run(w, es).ctrl)
    decreases |es|
  {
    if es != [] {
      var e := es[0];
      if w.ctrl.fault.None? && e.Tick? {
        DrainKeepsTraced(w.ctrl, e.batch, w.presets.Keys);
        AdvanceKeepsTraced(Drain(w.ctrl, e.batch, w.presets.Keys), w.presets, e.poll);
      }
      ApplyKeepsInvariant(w, e);
      RunKeepsTraced(Apply(w, e), es[1..]);
    }
  }

  // Every run from power-on, with any commands, edits and readings.
  lemma ReachableIsTraced(w: World, es: seq<Event>)
    requires InitialWorld(w)
    ensures Traced(Run(w, es).ctrl)
  {
    RunKeepsTraced(w, es);
  }

  // The setpoint of a stage is the temperature that stage has at that tick.
  lemma InitWritesStage(s: State, presets: Presets, poll: Option<Reading>)
    requires s.fault.None? && Startable(s, presets) && s.running && s.step.InitStep?
    requires StagesOf(presets, s.active.value) != []
    ensures s.index < |presets[s.active.value]|
    ensures Advance(s, presets, poll).log
         == s.log + [Setpoint(s.index, presets[s.active.value][s.index].temperature)]
  {
  }

  // ----- Which temperatures -----

  // The controller has just captured its active stage as `e`.
  ghost predicate Captured(w: World, e: Entry) {
    && w.ctrl.fault.None? && w.ctrl.running && w.ctrl.activeId.Some?
    && var stages := StagesOf(w.presets, w.ctrl.activeId.value);
       w.ctrl.index < |stages| && e == Setpoint(w.ctrl.index, stages[w.ctrl.index].temperature)
  }

  // Tick k of the run wrote entry b of the log.
  ghost predicate WroteAt(w: World, es: seq<Event>, k: int, b: int) {
    && 0 <= k < |es| && es[k].Tick?
    && |Run(w, es[..k]).ctrl.log| <= b < |Run(w, es[..k + 1]).ctrl.log|
  }

  lemma DrainWritesNoSetpoint(s: State, batch: seq<Command>, known: set<nat>)
    requires s.running ==> s.active.Some?
    ensures var d := Drain(s, batch, known);
      && s.log <= d.log
      && forall b :: |s.log| <= b < |d.log| ==> !d.log[b].Setpoint?
  {
    DrainRefines(s, batch, known);
    var outs := Outputs(ModeOf(s), InputsOf(batch, known));
    OutputsArePlain(ModeOf(s), InputsOf(batch, known));
    assert forall b :: |s.log| <= b < |s.log + outs| ==> (s.log + outs)[b] in outs;
  }

  lemma StepCaptures(s: State, presets: Presets, poll: Option<Reading>)
    requires s.fault.None? && Startable(s, presets)
    ensures var t := Advance(s, presets, poll);
      && s.log <= t.log
      && forall b :: |s.log| <= b < |t.log| && t.log[b].Setpoint? ==> Captured(World(t, presets), t.log[b])
  {
  }

  lemma EventCaptures(w: World, e: Event)
    requires Invariant(w)
    ensures var next := Apply(w, e);
      && w.ctrl.log <= next.ctrl.log
      && forall b :: |w.ctrl.log| <= b < |next.ctrl.log| && next.ctrl.log[b].Setpoint? ==>
           e.Tick? && Captured(next, next.ctrl.log[b])
  {
    if w.ctrl.fault.None? && e.Tick? {
      DrainKeepsStartable(w.ctrl, e.batch, w.presets);
      DrainWritesNoSetpoint(w.ctrl, e.batch, w.presets.Keys);
      var d := Drain(w.ctrl, e.batch, w.presets.Keys);
      if d.fault.None? {
        StepCaptures(d, w.presets, e.poll);
      }
    }
  }

  // In every run from power-on, each setpoint of the log was written by a tick
  // at the end of which the controller is running that stage, and holds the
  // temperature the stage had at that tick.
  lemma {:induction false} SetpointsAreStages(w: World, es: seq<Event>, b: nat) returns (k: nat)
    requires InitialWorld(w)
    requires b < |Run(w, es).ctrl.log| && Run(w, es).ctrl.log[b].Setpoint?
    ensures WroteAt(w, es, k, b)
    ensures Captured(Run(w, es[..k + 1]), Run(w, es).ctrl.log[b])
    decreases |es|
  {
    var n := |es| - 1;
    var before := Run(w, es[..n]);
    RunSnoc(w, es);
    RunKeepsInvariant(w, es[..n]);
    EventCaptures(before, es[n]);
    assert es[..n + 1] == es;
    if b < |before.ctrl.log| {
      k := SetpointsAreStages(w, es[..n], b);
      assert es[..n][..k] == es[..k] && es[..n][..k + 1] == es[..k + 1];
    } else {
      k := n;
    }
  }

  // ----- The setpoint in force -----

  lemma {:induction false} UndisturbedKeepsTarget(s: State, batch: seq<Command>, known: set<nat>)
    requires s.fault.None? && s.running && Undisturbed(batch)
    ensures LastTarget(Drain(s, batch, known).log) == LastTarget(s.log)
    decreases |batch|
  {
    if batch != [] {
      var next := Dispatch(s, batch[0], known);
      assert batch[0].SetRegulatorParams? ==> next.log[..|s.log|] == s.log;
      UndisturbedKeepsTarget(next, batch[1..], known);
    }
  }

  // Tick k captured the setpoint in force, for the stage now active.
  ghost predicate HeldSince(w: World, es: seq<Event>, k: int) {
    && 0 <= k < |es| && es[k].Tick?
    && var s, after := Run(w, es).ctrl, Run(w, es[..k + 1]);
       && after.ctrl.activeId == s.activeId && after.ctrl.index == s.index
       && LastTarget(after.ctrl.log) == LastTarget(s.log)
       && LastTarget(s.log).Some? && Captured(after, LastTarget(s.log).value)
  }

  ghost predicate PastInit(s: State) {
    s.fault.None? && s.running && !s.step.InitStep?
  }

  lemma StepHolds(s: State, presets: Presets, poll: Option<Reading>)
    requires s.fault.None? && Startable(s, presets)
    ensures var t := Advance(s, presets, poll);
      PastInit(t) ==>
        || (s.step.InitStep? && t.log != [] && Captured(World(t, presets), t.log[|t.log| - 1]))
        || (PastInit(s) && t.activeId == s.activeId && t.index == s.index && t.log == s.log)
  {
  }

  // A tick that ends past Init either captures the active stage just then or
  // finds it captured.
  lemma TickHolds(w: World, e: Event)
    requires Safe(w) && w.ctrl.fault.None? && e.Tick?
    ensures var s, t := w.ctrl, Apply(w, e).ctrl;
      PastInit(t) ==>
        || (LastTarget(t.log).Some? && Captured(Apply(w, e), LastTarget(t.log).value))
        || (PastInit(s) && t.activeId == s.activeId && t.index == s.index && LastTarget(t.log) == LastTarget(s.log))
  {
    var d := Drain(w.ctrl, e.batch, w.presets.Keys);
    DrainKeepsStartable(w.ctrl, e.batch, w.presets);
    PastInitDrain(w.ctrl, e.batch, w.presets.Keys);
    if d.fault.None? {
      StepHolds(d, w.presets, e.poll);
      if PastInit(d) {
        UndisturbedKeepsTarget(w.ctrl, e.batch, w.presets.Keys);
      }
    }
  }

  // Past Init the setpoint in force was captured by a tick of this run for the
  // stage now active.
  lemma {:induction false} SetpointInForce(w: World, es: seq<Event>) returns (k: nat)
    requires InitialWorld(w) && PastInit(Run(w, es).ctrl)
    ensures HeldSince(w, es, k)
    decreases |es|
  {
    var n := |es| - 1;
    var before, s := Run(w, es[..n]), Run(w, es).ctrl;
    RunSnoc(w, es);
    RunKeepsInvariant(w, es[..n]);
    assert es[..n + 1] == es;
    if es[n].Tick? {
      TickHolds(before, es[n]);
    }
    if es[n].Tick? && LastTarget(s.log).Some? && Captured(Run(w, es), LastTarget(s.log).value) {
      k := n;
    } else {
      k := SetpointInForce(w, es[..n]);
      assert es[..n][..k + 1] == es[..k + 1];
    }
  }
}
