// Exactly when a tick ends the worker, and exactly which runs end on a stage
// pointer that has been left dangling.
module TickFaults {
  import opened Wrappers
  import opened Commands
  import opened PresetItems
  import opened ReflowSpec
  import opened ReflowInvariants
  import opened ModeRefinement

  // From a safe world, a tick ends the worker on an unknown id exactly when its
  // batch halts the mode machine, on a missing stage exactly when it leaves that
  // machine running an empty preset, and on a bad pointer exactly when the
  // pointer dangles and the batch neither stops nor restarts the run.
  lemma TickFaultsExactly(w: World, batch: seq<Command>, poll: Option<Reading>)
    requires w.ctrl.fault.None? && Safe(w)
    ensures var m := Machine(ModeOf(w.ctrl), InputsOf(batch, w.presets.Keys));
      var fault := Apply(w, Tick(batch, poll)).ctrl.fault;
      && (fault.Some? && fault.value.UnknownPreset? <==> m.Halted?)
      && (fault == Some(StageOutOfRange) <==> m.Running? && StagesOf(w.presets, m.id) == [])
      && (fault == Some(BadStagePointer) <==> Dangling(w.ctrl, w.presets) && Undisturbed(batch))
  {
    DrainKeepsStartable(w.ctrl, batch, w.presets);
    DrainRefines(w.ctrl, batch, w.presets.Keys);
    PastInitDrain(w.ctrl, batch, w.presets.Keys);
    if w.ctrl.running && Undisturbed(batch) {
      UninterruptedDrain(w.ctrl, batch, w.presets.Keys);
    }
  }

  // ----- Dangling stage pointers -----

  // A tick that leaves the worker alive leaves no dangling pointer.
  lemma TickIsFresh(w: World, e: Event)
    requires Invariant(w) && e.Tick?
    ensures var next := Apply(w, e); next.ctrl.fault.None? ==> !Dangling(next.ctrl, next.presets)
  {
    if w.ctrl.fault.None? {
      DrainKeepsStartable(w.ctrl, e.batch, w.presets);
    }
  }

  // The event appends to the running preset while it preheats.
  predicate GrowsLive(w: World, e: Event) {
    && w.ctrl.fault.None? && w.ctrl.running && w.ctrl.step.Preheat? && w.ctrl.active.Some?
    && e.UpdateStages? && e.id == w.ctrl.active.value
    && |StagesOf(w.presets, e.id)| < |e.stages|
  }

  // Event i did so, and no tick came between it and `end`.
  ghost predicate GrewAt(w: World, es: seq<Event>, i: int, end: int) {
    && 0 <= i < end <= |es|
    && GrowsLive(Run(w, es[..i]), es[i])
    && forall k :: i < k < end ==> !es[k].Tick?
  }

  lemma EditDangles(w: World, e: Event)
    requires Invariant(w) && w.ctrl.fault.None? && !e.Tick?
    ensures var next := Apply(w, e);
      Dangling(next.ctrl, next.presets) <==> Dangling(w.ctrl, w.presets) || GrowsLive(w, e)
  {
  }

  lemma {:induction false} DanglingExactly(w: World, es: seq<Event>)
    requires Invariant(w) && !Dangling(w.ctrl, w.presets)
    ensures var r := Run(w, es);
      r.ctrl.fault.None? && Dangling(r.ctrl, r.presets) <==> exists i :: GrewAt(w, es, i, |es|)
    decreases |es|
  {
    if es != [] {
      var n := |es| - 1;
      var before, e := Run(w, es[..n]), es[n];
      RunSnoc(w, es);
      RunKeepsInvariant(w, es[..n]);
      DanglingExactly(w, es[..n]);
      GrewSnoc(w, es);
      if e.Tick? {
        TickIsFresh(before, e);
      } else if before.ctrl.fault.None? {
        EditDangles(before, e);
      }
    }
  }

  lemma GrewSnoc(w: World, es: seq<Event>)
    requires es != []
    ensures var n := |es| - 1;
      (exists i :: GrewAt(w, es, i, |es|)) <==>
        GrowsLive(Run(w, es[..n]), es[n]) || (!es[n].Tick? && exists i :: GrewAt(w, es[..n], i, n))
  {
    var n := |es| - 1;
    if i :| GrewAt(w, es, i, |es|) {
      assert es[..n][..i] == es[..i];
      assert i < n ==> GrewAt(w, es[..n], i, n);
    }
    if !es[n].Tick? {
      if i :| GrewAt(w, es[..n], i, n) {
        assert es[..n][..i] == es[..i];
        assert GrewAt(w, es, i, |es|);
      }
    }
    if GrowsLive(Run(w, es[..n]), es[n]) {
      assert GrewAt(w, es, n, |es|);
    }
  }

  // Event j is an undisturbed tick that finds the pointer dangling.
  ghost predicate FollowedAt(w: World, es: seq<Event>, i: int, j: int) {
    GrewAt(w, es, i, j) && j < |es| && es[j].Tick? && Undisturbed(es[j].batch)
  }

  // From power-on, a run ends on a bad stage pointer if and only if an update
  // appended to the running preset while it was preheating and the next tick
  // neither stopped nor restarted the run.
  lemma {:induction false} BadPointerExactly(w: World, es: seq<Event>)
    requires InitialWorld(w)
    ensures Run(w, es).ctrl.fault == Some(BadStagePointer) <==> exists i, j :: FollowedAt(w, es, i, j)
    decreases |es|
  {
    if es != [] {
      var n := |es| - 1;
      RunSnoc(w, es);
      BadPointerExactly(w, es[..n]);
      FollowedSnoc(w, es);
      LastEventFaults(w, es);
    }
  }

  lemma FollowedSnoc(w: World, es: seq<Event>)
    requires es != []
    ensures var n := |es| - 1;
      (exists i, j :: FollowedAt(w, es, i, j)) <==>
        || (exists i, j :: FollowedAt(w, es[..n], i, j))
        || (es[n].Tick? && Undisturbed(es[n].batch) && exists i :: GrewAt(w, es[..n], i, n))
  {
    var n := |es| - 1;
    if i, j :| FollowedAt(w, es, i, j) {
      assert es[..n][..i] == es[..i];
      assert if j < n then FollowedAt(w, es[..n], i, j) else GrewAt(w, es[..n], i, n);
    }
    if i, j :| FollowedAt(w, es[..n], i, j) {
      assert es[..n][..i] == es[..i];
      assert FollowedAt(w, es, i, j);
    }
    if es[n].Tick? && Undisturbed(es[n].batch) {
      if i :| GrewAt(w, es[..n], i, n) {
        assert es[..n][..i] == es[..i];
        assert FollowedAt(w, es, i, n);
      }
    }
  }

  lemma LastEventFaults(w: World, es: seq<Event>)
    requires InitialWorld(w) && es != []
    ensures var n := |es| - 1;
      var before, e := Run(w, es[..n]), es[n];
      Apply(before, e).ctrl.fault == Some(BadStagePointer) <==>
        || before.ctrl.fault == Some(BadStagePointer)
        || (e.Tick? && Undisturbed(e.batch) && exists i :: GrewAt(w, es[..n], i, n))
  {
    var n := |es| - 1;
    var before := Run(w, es[..n]);
    RunKeepsInvariant(w, es[..n]);
    DanglingExactly(w, es[..n]);
    if before.ctrl.fault.None? && es[n].Tick? {
      TickFaultsExactly(before, es[n].batch, es[n].poll);
    }
  }

  // For instance: a stage is appended while the first one waits for data.
  lemma AppendWhilePreheating(w: World, id: nat, stages: seq<StageItem>)
    requires InitialWorld(w) && |stages| == 2
    ensures var begun := [AddPreset(id), UpdateStages(id, stages[..1]), Tick([SelectPreset(id), StartReflow], None)];
      var longer := begun + [UpdateStages(id, stages)];
      && Run(w, begun).ctrl.fault.None? && Run(w, begun).ctrl.running && Run(w, begun).ctrl.activeId == Some(id)
      && Run(w, longer + [Tick([], None)]).ctrl.fault == Some(BadStagePointer)
  {
    var begun := [AddPreset(id), UpdateStages(id, stages[..1]), Tick([SelectPreset(id), StartReflow], None)];
    var es := begun + [UpdateStages(id, stages)] + [Tick([], None)];
    var filled := World(w.ctrl, map[id := stages[..1]]);
    assert Apply(Apply(w, begun[0]), begun[1]).presets == filled.presets;
    assert Apply(filled, begun[2]).ctrl == HandleInit(
      HandleStart(HandleSelect(w.ctrl, id, {id})), filled.presets).(clock := 1000) by {
      TwoCommands(w.ctrl, SelectPreset(id), StartReflow, filled.presets.Keys);
    }
    RunThree(w, begun);
    assert es[..3] == begun && GrewAt(w, es, 3, 4);
    assert FollowedAt(w, es, 3, 4);
    BadPointerExactly(w, es);
  }

  lemma TwoCommands(s: State, a: Command, b: Command, known: set<nat>)
    ensures Drain(s, [a, b], known) == Dispatch(Dispatch(s, a, known), b, known)
  {
    assert [a, b][1..] == [b];
    assert Drain(Dispatch(s, a, known), [b], known) == Drain(Dispatch(Dispatch(s, a, known), b, known), [], known);
  }

  lemma RunThree(w: World, es: seq<Event>)
    requires |es| == 3
    ensures Run(w, es) == Apply(Apply(Apply(w, es[0]), es[1]), es[2])
  {
    RunSnoc(w, es);
    RunSnoc(w, es[..2]);
    RunSnoc(w, es[..1]);
  }
}
