// The controller seen from its users: no preset, a preset armed, or a preset
// running. The concrete controller simulates this machine, and a history
// decides which preset is running.
module ModeRefinement {
  import opened Wrappers
  import opened MachineWords
  import opened Commands
  import opened ReflowSpec
  import opened ReflowInvariants

  datatype Mode = NoPreset | Armed(id: nat) | Running(id: nat) | Halted

  function ModeOf(s: State): Mode {
    if s.fault.Some? then Halted
    else match s.active
      case None => NoPreset
      case Some(id) => if s.running then Running(id) else Armed(id)
  }

  // What the abstract machine sees. `known` says whether the id was in the
  // holder when the command was handled.
  datatype Input =
    | Start
    | Stop
    | Select(id: nat, known: bool)
    | SetRegulator(k: Word, hysteresis: UInt32)
    | Completed
    | Failed

  function Next(m: Mode, i: Input): Mode {
    if m.Halted? then m
    else match i
      case Start => if m.Armed? then Running(m.id) else m
      case Stop => if m.Running? then NoPreset else m
      case Select(id, known) => if m.Running? then m else if known then Armed(id) else Halted
      case SetRegulator(_, _) => m
      case Completed => if m.Running? then NoPreset else m
      case Failed => Halted
  }

  // Each end of a run writes one zero setpoint; nothing else does.
  function Output(m: Mode, i: Input): seq<Entry> {
    if m.Halted? then []
    else match i
      case Stop => if m.Running? then [HeaterOff] else []
      case Completed => if m.Running? then [HeaterOff] else []
      case SetRegulator(k, hysteresis) => [Regulator(k, hysteresis)]
      case _ => []
  }

  // The machine over a history, oldest input first.
  function Machine(m: Mode, h: seq<Input>): Mode {
    if h == [] then m else Next(Machine(m, h[..|h| - 1]), h[|h| - 1])
  }

  function Outputs(m: Mode, h: seq<Input>): seq<Entry> {
    if h == [] then []
    else Outputs(m, h[..|h| - 1]) + Output(Machine(m, h[..|h| - 1]), h[|h| - 1])
  }

  lemma {:induction false} MachineConcat(m: Mode, a: seq<Input>, b: seq<Input>)
    ensures Machine(m, a + b) == Machine(Machine(m, a), b)
    ensures Outputs(m, a + b) == Outputs(m, a) + Outputs(Machine(m, a), b)
    decreases |b|
  {
    if b == [] {
      assert a + b == a;
    } else {
      var b', last := b[..|b| - 1], b[|b| - 1];
      assert (a + b)[..|a + b| - 1] == a + b' && (a + b)[|a + b| - 1] == last;
      MachineConcat(m, a, b');
      var out := Output(Machine(Machine(m, a), b'), last);
      assert Outputs(m, a + b) == Outputs(m, a + b') + out;
      Associates(Outputs(m, a), Outputs(Machine(m, a), b'), out);
    }
  }

  // ----- Simulation -----

  function InputOf(c: Command, known: set<nat>): Input {
    match c
    case StartReflow => Start
    case StopReflow => Stop
    case SelectPreset(id) => Select(id, id in known)
    case SetRegulatorParams(k, hysteresis) => SetRegulator(k, hysteresis)
  }

  function InputsOf(batch: seq<Command>, known: set<nat>): seq<Input>
    decreases |batch|
  {
    if batch == [] then [] else [InputOf(batch[0], known)] + InputsOf(batch[1..], known)
  }

  // What the step of a tick contributes to the history.
  function StepInputs(before: State, after: State): seq<Input> {
    if before.fault.Some? then []
    else if after.fault.Some? then [Failed]
    else if before.running && !after.running then [Completed]
    else []
  }

  function EventInputs(w: World, e: Event): seq<Input> {
    if w.ctrl.fault.Some? || !e.Tick? then []
    else
      var d := Drain(w.ctrl, e.batch, w.presets.Keys);
      InputsOf(e.batch, w.presets.Keys) + StepInputs(d, Advance(d, w.presets, e.poll))
  }

  function History(w: World, es: seq<Event>): seq<Input>
    decreases |es|
  {
    if es == [] then [] else EventInputs(w, es[0]) + History(Apply(w, es[0]), es[1..])
  }

  // What each command does, seen in the controller's own fields.
  lemma CommandEffects(s: State, c: Command, known: set<nat>)
    requires s.fault.None? && s.active == s.activeId && (s.running ==> s.active.Some?)
    ensures var t := Dispatch(s, c, known);
      match c
      case StartReflow =>
        && t.running == s.activeId.Some? && t.activeId == s.activeId && t.log == s.log && t.fault.None?
        && (t.running ==> t.step.InitStep? && t.index == s.index)
      case StopReflow =>
        && !t.running && t.fault.None?
        && t.activeId == (if s.running then None else s.activeId)
        && t.log == s.log + (if s.running then [HeaterOff] else [])
      case SelectPreset(id) =>
        && t.running == s.running && t.log == s.log
        && t.activeId == (if s.running then s.activeId else Some(id))
        && (t.fault.Some? <==> !s.running && id !in known)
      case SetRegulatorParams(k, hysteresis) =>
        && t.running == s.running && t.activeId == s.activeId && t.fault.None?
        && t.log == s.log + [Regulator(k, hysteresis)]
  {
  }

  lemma DispatchRefines(s: State, c: Command, known: set<nat>)
    requires s.running ==> s.active.Some?
    ensures var t := Dispatch(s, c, known);
      && ModeOf(t) == Next(ModeOf(s), InputOf(c, known))
      && t.log == s.log + Output(ModeOf(s), InputOf(c, known))
      && (t.running ==> t.active.Some?)
  {
  }

  lemma Associates(x: seq<Entry>, p: seq<Entry>, q: seq<Entry>)
    ensures x + p + q == x + (p + q)
  {
  }

  lemma MachineCons(m: Mode, i: Input, rest: seq<Input>)
    ensures Machine(m, [i] + rest) == Machine(Next(m, i), rest)
    ensures Outputs(m, [i] + rest) == Output(m, i) + Outputs(Next(m, i), rest)
  {
    OneInput(m, i);
    MachineConcat(m, [i], rest);
  }

  lemma OneInput(m: Mode, i: Input)
    ensures Machine(m, [i]) == Next(m, i) && Outputs(m, [i]) == Output(m, i)
  {
  }

  // One input, then the rest: m, m' and m'' are the modes, a, b and c the logs.
  lemma RefineStep(m: Mode, m': Mode, m'': Mode, a: seq<Entry>, b: seq<Entry>, c: seq<Entry>, i: Input, rest: seq<Input>)
    requires m' == Next(m, i) && b == a + Output(m, i)
    requires m'' == Machine(m', rest) && c == b + Outputs(m', rest)
    ensures m'' == Machine(m, [i] + rest) && c == a + Outputs(m, [i] + rest)
  {
    MachineCons(m, i, rest);
    Associates(a, Output(m, i), Outputs(m', rest));
  }

  // Draining a batch is the machine's left fold over it, in state and in output.
  lemma {:induction false} DrainRefines(s: State, batch: seq<Command>, known: set<nat>)
    requires s.running ==> s.active.Some?
    ensures var d := Drain(s, batch, known);
      && (d.running ==> d.active.Some?)
      && ModeOf(d) == Machine(ModeOf(s), InputsOf(batch, known))
      && d.log == s.log + Outputs(ModeOf(s), InputsOf(batch, known))
    decreases |batch|
  {
    if batch != [] {
      var next := Dispatch(s, batch[0], known);
      DispatchRefines(s, batch[0], known);
      DrainRefines(next, batch[1..], known);
      var d := Drain(s, batch, known);
      RefineStep(ModeOf(s), ModeOf(next), ModeOf(d), s.log, next.log, d.log,
                 InputOf(batch[0], known), InputsOf(batch[1..], known));
    }
  }

  // A drain never touches the last reading, the saved deadline or the stage pointer.
  lemma {:induction false} DrainFrame(s: State, batch: seq<Command>, known: set<nat>)
    ensures var d := Drain(s, batch, known);
      d.reading == s.reading && d.deadline == s.deadline && d.stage == s.stage
    decreases |batch|
  {
    if batch != [] {
      DrainFrame(Dispatch(s, batch[0], known), batch[1..], known);
    }
  }

  // The log without its nonzero setpoints.
  function Plain(log: seq<Entry>): seq<Entry> {
    if log == [] then []
    else
      var last := log[|log| - 1];
      Plain(log[..|log| - 1]) + if last.Setpoint? then [] else [last]
  }

  lemma PlainGrows(log: seq<Entry>, e: Entry)
    ensures Plain(log + [e]) == Plain(log) + if e.Setpoint? then [] else [e]
  {
  }

  lemma {:induction false} PlainConcat(log: seq<Entry>, outs: seq<Entry>)
    requires forall e :: e in outs ==> !e.Setpoint?
    ensures Plain(log + outs) == Plain(log) + outs
    decreases |outs|
  {
    if outs == [] {
      assert log + outs == log;
    } else {
      var n := |outs| - 1;
      assert log + outs == (log + outs[..n]) + [outs[n]];
      PlainConcat(log, outs[..n]);
      PlainGrows(log + outs[..n], outs[n]);
      assert outs == outs[..n] + [outs[n]];
    }
  }

  lemma {:induction false} OutputsArePlain(m: Mode, h: seq<Input>)
    ensures forall e :: e in Outputs(m, h) ==> !e.Setpoint?
    decreases |h|
  {
    if h != [] {
      OutputsArePlain(m, h[..|h| - 1]);
    }
  }

  // The step's inputs and the write that goes with each: nothing, one setpoint,
  // or the zero that ends the run.
  ghost predicate StepWrote(m: Mode, h: seq<Input>, log: seq<Entry>, longer: seq<Entry>) {
    if h == [Completed] then m.Running? && longer == log + [HeaterOff]
    else (h == [] || h == [Failed]) && (longer == log || exists i, t :: longer == log + [Setpoint(i, t)])
  }

  lemma StepWrites(s: State, presets: Presets, poll: Option<Reading>)
    requires s.fault.None? ==> Startable(s, presets)
    ensures var t := Advance(s, presets, poll); StepWrote(ModeOf(s), StepInputs(s, t), s.log, t.log)
  {
  }

  lemma StepOutputs(m: Mode, h: seq<Input>, log: seq<Entry>, longer: seq<Entry>)
    requires StepWrote(m, h, log, longer)
    ensures Plain(longer) == Plain(log) + Outputs(m, h)
  {
    if h == [Completed] {
      OneInput(m, Completed);
      PlainGrows(log, HeaterOff);
    } else {
      OneInput(m, Failed);
      if longer != log {
        var i, t :| longer == log + [Setpoint(i, t)];
        PlainGrows(log, Setpoint(i, t));
      }
    }
  }

  lemma StepKeepsMode(s: State, presets: Presets, poll: Option<Reading>)
    requires s.fault.None? ==> Startable(s, presets)
    ensures var t := Advance(s, presets, poll); ModeOf(t) == Machine(ModeOf(s), StepInputs(s, t))
  {
  }

  // Two stretches of history, one after the other.
  lemma Join(m: Mode, m': Mode, a: seq<Input>, b: seq<Input>, x: seq<Entry>, y: seq<Entry>, z: seq<Entry>)
    requires m' == Machine(m, a) && y == x + Outputs(m, a) && z == y + Outputs(m', b)
    ensures Machine(m', b) == Machine(m, a + b) && z == x + Outputs(m, a + b)
  {
    MachineConcat(m, a, b);
    Associates(x, Outputs(m, a), Outputs(m', b));
  }

  lemma ApplyRefines(w: World, e: Event)
    requires Invariant(w)
    ensures var t := Apply(w, e).ctrl;
      && ModeOf(t) == Machine(ModeOf(w.ctrl), EventInputs(w, e))
      && Plain(t.log) == Plain(w.ctrl.log) + Outputs(ModeOf(w.ctrl), EventInputs(w, e))
  {
    if w.ctrl.fault.None? && e.Tick? {
      var d := Drain(w.ctrl, e.batch, w.presets.Keys);
      var a := InputsOf(e.batch, w.presets.Keys);
      DrainKeepsStartable(w.ctrl, e.batch, w.presets);
      DrainRefines(w.ctrl, e.batch, w.presets.Keys);
      OutputsArePlain(ModeOf(w.ctrl), a);
      PlainConcat(w.ctrl.log, Outputs(ModeOf(w.ctrl), a));
      var t := Advance(d, w.presets, e.poll);
      StepKeepsMode(d, w.presets, e.poll);
      StepWrites(d, w.presets, e.poll);
      StepOutputs(ModeOf(d), StepInputs(d, t), d.log, t.log);
      Join(ModeOf(w.ctrl), ModeOf(d), a, StepInputs(d, t), Plain(w.ctrl.log), Plain(d.log), Plain(t.log));
    }
  }

  // The whole run: the controller's mode is the machine's mode on its history,
  // and apart from nonzero setpoints it has written exactly the machine's
  // outputs: one zero for each end of a run, and the regulator commands.
  lemma {:induction false} RunRefines(w: World, es: seq<Event>)
    requires Invariant(w)
    ensures var s, h := Run(w, es).ctrl, History(w, es);
      && ModeOf(s) == Machine(ModeOf(w.ctrl), h)
      && Plain(s.log) == Plain(w.ctrl.log) + Outputs(ModeOf(w.ctrl), h)
    decreases |es|
  {
    if es != [] {
      ApplyRefines(w, es[0]);
      ApplyKeepsInvariant(w, es[0]);
      var next, last := Apply(w, es[0]), Run(w, es);
      RunRefines(next, es[1..]);
      Join(ModeOf(w.ctrl), ModeOf(next.ctrl), EventInputs(w, es[0]), History(next, es[1..]),
           Plain(w.ctrl.log), Plain(next.ctrl.log), Plain(last.ctrl.log));
    }
  }

  // ----- Which preset is running -----

  predicate Idle(m: Mode) {
    m.NoPreset? || m.Armed?
  }

  // Input i selected `id` while idle and no later input before `end` selects,
  // starts or fails.
  predicate ArmedBy(h: seq<Input>, id: nat, i: int, end: int) {
    && 0 <= i < end <= |h|
    && h[i] == Select(id, true)
    && Idle(Machine(NoPreset, h[..i]))
    && (forall k :: i < k < end ==> !h[k].Select? && !h[k].Start? && !h[k].Failed?)
  }

  // Input j started it, and nothing after j stopped, completed or failed the run.
  predicate StartedBy(h: seq<Input>, id: nat, i: int, j: int) {
    && ArmedBy(h, id, i, j) && j < |h|
    && h[j].Start?
    && (forall k :: j < k < |h| ==> !h[k].Stop? && !h[k].Completed? && !h[k].Failed?)
  }

  lemma {:induction false} ArmedExactly(h: seq<Input>, id: nat)
    ensures Machine(NoPreset, h) == Armed(id) <==> exists i :: ArmedBy(h, id, i, |h|)
    decreases |h|
  {
    if h != [] {
      var p, last := h[..|h| - 1], h[|h| - 1];
      ArmedExactly(p, id);
      if Machine(NoPreset, h) == Armed(id) {
        if last == Select(id, true) && Idle(Machine(NoPreset, p)) {
          assert ArmedBy(h, id, |p|, |h|);
        } else {
          var i :| ArmedBy(p, id, i, |p|);
          assert p[..i] == h[..i];
          assert ArmedBy(h, id, i, |h|);
        }
      }
      if i :| ArmedBy(h, id, i, |h|) {
        if i < |p| {
          assert p[..i] == h[..i];
          assert ArmedBy(p, id, i, |p|);
        }
      }
    }
  }

  // The running preset is the last one selected before the first start since
  // the run machine was last idle, and the run has not been ended since.
  lemma {:induction false} RunningExactly(h: seq<Input>, id: nat)
    ensures Machine(NoPreset, h) == Running(id) <==> exists i, j :: StartedBy(h, id, i, j)
    decreases |h|
  {
    if h != [] {
      var p, last := h[..|h| - 1], h[|h| - 1];
      RunningExactly(p, id);
      ArmedExactly(p, id);
      if Machine(NoPreset, h) == Running(id) {
        if Machine(NoPreset, p) == Running(id) {
          var i, j :| StartedBy(p, id, i, j);
          assert p[..i] == h[..i];
          assert StartedBy(h, id, i, j);
        } else {
          var i :| ArmedBy(p, id, i, |p|);
          assert p[..i] == h[..i];
          assert StartedBy(h, id, i, |p|);
        }
      }
      if i, j :| StartedBy(h, id, i, j) {
        assert p[..i] == h[..i];
        if j < |p| {
          assert StartedBy(p, id, i, j);
        } else {
          assert ArmedBy(p, id, i, |p|);
        }
      }
    }
  }

  // End to end: for every run from power-on, the controller is running `id`
  // exactly when its history armed and started it that way.
  lemma ControllerRunsExactly(w: World, es: seq<Event>, id: nat)
    requires InitialWorld(w)
    ensures var s := Run(w, es).ctrl;
      s.fault.None? && s.running && s.activeId == Some(id)
      <==> exists i, j :: StartedBy(History(w, es), id, i, j)
  {
    ReachableIsSafe(w, es);
    RunRefines(w, es);
    RunningExactly(History(w, es), id);
  }
}
