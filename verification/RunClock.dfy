// The clock of every run, and the exact length of a soak.
module RunClock {
  import opened MachineWords
  import opened Commands
  import opened ReflowSpec
  import opened ReflowInvariants

  // ----- Clock -----

  // Some moment of the drain, its ends included, is idle.
  predicate IdleDuring(s: State, batch: seq<Command>, known: set<nat>)
    decreases |batch|
  {
    !s.running || (batch != [] && IdleDuring(Dispatch(s, batch[0], known), batch[1..], known))
  }

  // Ticks completed since the run in progress left idle, given that number
  // before the event. Commands that restart a run do not reset it.
  function RunTicks(w: World, n: nat, e: Event): nat {
    if !Apply(w, e).ctrl.running then 0
    else if !e.Tick? then n
    else if IdleDuring(w.ctrl, e.batch, w.presets.Keys) then 1
    else n + 1
  }

  function CountRunTicks(w: World, n: nat, es: seq<Event>): nat
    decreases |es|
  {
    if es == [] then n else CountRunTicks(Apply(w, es[0]), RunTicks(w, n, es[0]), es[1..])
  }

  // 0 until a run has ended, 1 afterwards.
  function IdleClock(log: seq<Entry>): int {
    if HeaterOff in log then 1 else 0
  }

  predicate Clocked(s: State, n: nat) {
    (!s.running ==> n == 0) && s.clock == IdleClock(s.log) + SYSTICK_RESOLUTION * n
  }

  lemma {:induction false} DrainKeepsClocked(s: State, n: nat, batch: seq<Command>, known: set<nat>)
    requires Clocked(s, n)
    ensures Clocked(Drain(s, batch, known), if IdleDuring(s, batch, known) then 0 else n)
    decreases |batch|
  {
    if batch != [] {
      var t := Dispatch(s, batch[0], known);
      assert HeaterOff in t.log <==> HeaterOff in s.log || (s.fault.None? && s.running && batch[0].StopReflow?);
      DrainKeepsClocked(t, if t.running then n else 0, batch[1..], known);
    }
  }

  lemma {:induction false} ClockOfRun(w: World, n: nat, es: seq<Event>)
    requires Invariant(w)
    requires w.ctrl.fault.None? ==> Clocked(w.ctrl, n)
    ensures Run(w, es).ctrl.fault.None? ==> Clocked(Run(w, es).ctrl, CountRunTicks(w, n, es))
    decreases |es|
  {
    if es != [] {
      var e := es[0];
      if w.ctrl.fault.None? && e.Tick? {
        DrainKeepsStartable(w.ctrl, e.batch, w.presets);
        DrainKeepsClocked(w.ctrl, n, e.batch, w.presets.Keys);
      }
      ApplyKeepsInvariant(w, e);
      ClockOfRun(Apply(w, e), RunTicks(w, n, e), es[1..]);
    }
  }

  // From power-on: while idle the clock is 0 before any run has ended and 1
  // afterwards; while running it is that plus a second per completed tick.
  lemma ReachableClock(w: World, es: seq<Event>)
    requires InitialWorld(w)
    ensures var s := Run(w, es).ctrl;
      s.fault.None? ==>
        s.clock == IdleClock(s.log) + (if s.running then 1000 * CountRunTicks(w, 0, es) else 0)
  {
    ClockOfRun(w, 0, es);
  }

  // ----- Soak -----

  function TickCount(es: seq<Event>): nat {
    if es == [] then 0 else (if es[0].Tick? then 1 else 0) + TickCount(es[1..])
  }

  lemma {:induction false} EditsKeepController(w: World, es: seq<Event>)
    requires TickCount(es) == 0
    ensures Run(w, es).ctrl == w.ctrl
    decreases |es|
  {
    if es != [] {
      EditsKeepController(Apply(w, es[0]), es[1..]);
    }
  }

  // In InProgress with k ticks of the soak still to come: the state before the
  // tick that leaves is unchanged but for clock, reading and log.
  lemma {:induction false} SoakRemainder(w: World, es: seq<Event>, k: nat)
    requires w.ctrl.fault.None? && w.ctrl.running && w.ctrl.active.Some? && w.ctrl.stage.Some?
    requires w.ctrl.step.InProgress? && k > 0
    requires k > 1 ==> w.ctrl.deadline == w.ctrl.clock + SYSTICK_RESOLUTION * (k - 1)
    requires k == 1 ==> w.ctrl.deadline <= w.ctrl.clock
    requires AllUninterrupted(es)
    ensures var s, n := Run(w, es).ctrl, TickCount(es);
      && (n < k ==> s.step.InProgress?)
      && (n == k ==> s.step.StageCompleted?)
      && (n <= k ==> s.fault.None? && s.running && s.index == w.ctrl.index && s.deadline == w.ctrl.deadline
                     && s.clock == w.ctrl.clock + SYSTICK_RESOLUTION * n)
    decreases |es|
  {
    if es != [] {
      var w' := Apply(w, es[0]);
      if es[0].Tick? {
        UninterruptedDrain(w.ctrl, es[0].batch, w.presets.Keys);
        if k == 1 {
          if TickCount(es) == 1 {
            EditsKeepController(w', es[1..]);
          }
        } else {
          SoakRemainder(w', es[1..], k - 1);
        }
      } else {
        SoakRemainder(w', es[1..], k);
      }
    }
  }

  // A stage that enters InProgress at clock c with duration d, not interrupted
  // by Start or Stop, stays for exactly max(1, d) ticks: the last of them runs
  // at clock c + 1000 * max(1, d) and leaves. The deadline is fixed on entry,
  // whatever is edited meanwhile.
  lemma SoakIsExact(w: World, entering: Event, es: seq<Event>)
    requires Invariant(w) && w.ctrl.fault.None? && w.ctrl.running && w.ctrl.step.Preheat?
    requires entering.Tick? && Uninterrupted(entering) && AllUninterrupted(es)
    requires Apply(w, entering).ctrl.step.InProgress?
    ensures var c, d := w.ctrl.clock, w.presets[w.ctrl.active.value][w.ctrl.index].duration;
      var s, n := Run(Apply(w, entering), es).ctrl, TickCount(es);
      && (n < Max(1, d) ==> s.step.InProgress?)
      && (n == Max(1, d) ==> s.step.StageCompleted?)
      && (n <= Max(1, d) ==> s.fault.None? && s.running && s.index == w.ctrl.index
                             && s.deadline == c + 1000 * d
                             && s.clock == c + 1000 * (n + 1))
  {
    var d := w.presets[w.ctrl.active.value][w.ctrl.index].duration;
    UninterruptedDrain(w.ctrl, entering.batch, w.presets.Keys);
    SoakRemainder(Apply(w, entering), es, Max(1, d));
  }
}
