// What every reachable state of the controller satisfies, and facts about runs
// that the other modules share.
module ReflowInvariants {
  import opened Wrappers
  import opened Commands
  import opened ReflowSpec

  // The preset pointer and the reported id agree and name a known preset, idle
  // means stage 0, and past Init the stage pointer was taken to the active stage.
  ghost predicate Coherent(s: State, presets: Presets) {
    && s.active == s.activeId
    && (s.active.Some? ==> s.active.value in presets)
    && (!s.running ==> s.index == 0)
    && (s.running ==> s.active.Some?)
    && (s.running && !s.step.InitStep? ==>
          && s.stage.Some?
          && s.stage == Some(StageRef(s.active.value, s.index, s.stage.value.length))
          && s.index < s.stage.value.length <= |presets[s.active.value]|)
  }

  // The next Preheat step would use a pointer to stages that have moved: the
  // active preset has grown since the pointer was taken.
  predicate Dangling(s: State, presets: Presets) {
    && s.running && s.step.Preheat? && s.active.Some? && s.stage.Some?
    && s.stage.value.length < |StagesOf(presets, s.active.value)|
  }

  // At a tick boundary a running controller is inside its preset.
  ghost predicate Safe(w: World) {
    && Coherent(w.ctrl, w.presets)
    && (w.ctrl.running ==> w.ctrl.index < |w.presets[w.ctrl.active.value]|)
  }

  // Between the drain and the step a start of an empty preset is possible.
  ghost predicate Startable(s: State, presets: Presets) {
    && Coherent(s, presets)
    && (s.running ==> s.index == 0 || s.index < |presets[s.active.value]|)
  }

  // The invariant of every reachable world. A faulted worker stopped on an
  // unknown id while idle, on the first stage of an empty preset, or in Preheat
  // on a pointer to stages that have moved.
  ghost predicate Invariant(w: World) {
    match w.ctrl.fault
    case None => Safe(w)
    case Some(UnknownPreset(_)) => !w.ctrl.running && w.ctrl.index == 0
    case Some(StageOutOfRange) => w.ctrl.running && w.ctrl.index == 0 && w.ctrl.step.InitStep?
    case Some(BadStagePointer) => Dangling(w.ctrl, w.presets)
  }

  lemma {:induction false} DrainKeepsStartable(s: State, batch: seq<Command>, presets: Presets)
    requires s.fault.None? && Startable(s, presets)
    ensures var d := Drain(s, batch, presets.Keys);
      && (d.fault.None? ==> Startable(d, presets))
      && (d.fault.Some? ==> d.fault.value.UnknownPreset? && !d.running && d.index == 0)
    decreases |batch|
  {
    if batch != [] {
      var next := Dispatch(s, batch[0], presets.Keys);
      if next.fault.None? {
        DrainKeepsStartable(next, batch[1..], presets);
      } else {
        FaultedDrainIsIdle(next, batch[1..], presets.Keys);
      }
    }
  }

  lemma {:induction false} FaultedDrainIsIdle(s: State, batch: seq<Command>, known: set<nat>)
    requires s.fault.Some?
    ensures Drain(s, batch, known) == s
    decreases |batch|
  {
    if batch != [] {
      FaultedDrainIsIdle(s, batch[1..], known);
    }
  }

  lemma StepKeepsInvariant(s: State, presets: Presets, poll: Option<Reading>)
    requires s.fault.None? && Startable(s, presets)
    ensures Invariant(World(Advance(s, presets, poll), presets))
  {
  }

  lemma ApplyKeepsInvariant(w: World, e: Event)
    requires Invariant(w)
    ensures Invariant(Apply(w, e))
  {
    if w.ctrl.fault.None? && e.Tick? {
      var d := Drain(w.ctrl, e.batch, w.presets.Keys);
      DrainKeepsStartable(w.ctrl, e.batch, w.presets);
      if d.fault.None? {
        StepKeepsInvariant(d, w.presets, e.poll);
      }
    }
  }

  lemma {:induction false} RunKeepsInvariant(w: World, es: seq<Event>)
    requires Invariant(w)
    ensures Invariant(Run(w, es))
    decreases |es|
  {
    if es != [] {
      ApplyKeepsInvariant(w, es[0]);
      RunKeepsInvariant(Apply(w, es[0]), es[1..]);
    }
  }

  // Every reachable world.
  lemma ReachableIsSafe(w: World, es: seq<Event>)
    requires InitialWorld(w)
    ensures Invariant(Run(w, es))
  {
    RunKeepsInvariant(w, es);
  }

  // ----- Undisturbed runs -----

  // No Start or Stop; selections, regulator commands and edits are allowed.
  predicate Undisturbed(batch: seq<Command>) {
    forall c :: c in batch ==> !c.StartReflow? && !c.StopReflow?
  }

  predicate Uninterrupted(e: Event) {
    e.Tick? ==> Undisturbed(e.batch)
  }

  ghost predicate AllUninterrupted(es: seq<Event>) {
    forall k :: 0 <= k < |es| ==> Uninterrupted(es[k])
  }

  // While running, such a drain only extends the log.
  lemma {:induction false} UninterruptedDrain(s: State, batch: seq<Command>, known: set<nat>)
    requires s.fault.None? && s.running && Undisturbed(batch)
    ensures Drain(s, batch, known) == s.(log := Drain(s, batch, known).log)
    decreases |batch|
  {
    if batch != [] {
      UninterruptedDrain(Dispatch(s, batch[0], known), batch[1..], known);
    }
  }

  // And only such a drain leaves the controller past Init.
  lemma {:induction false} PastInitDrain(s: State, batch: seq<Command>, known: set<nat>)
    requires s.running ==> s.active.Some?
    ensures var d := Drain(s, batch, known);
      s.fault.None? && d.fault.None? && d.running && !d.step.InitStep? ==>
        s.running && !s.step.InitStep? && Undisturbed(batch) && d == s.(log := d.log)
    decreases |batch|
  {
    if batch != [] {
      var next := Dispatch(s, batch[0], known);
      if next.fault.None? {
        PastInitDrain(next, batch[1..], known);
      } else {
        FaultedDrainIsIdle(next, batch[1..], known);
      }
    }
  }

  // ----- Presets across a run -----

  // No key is lost and no preset loses a stage, whatever happens.
  lemma {:induction false} PresetsOnlyGrow(w: World, es: seq<Event>)
    ensures var r := Run(w, es);
      forall k :: k in w.presets ==> k in r.presets && |w.presets[k]| <= |r.presets[k]|
    decreases |es|
  {
    if es != [] {
      PresetsOnlyGrow(Apply(w, es[0]), es[1..]);
      var m := Apply(w, es[0]);
      forall k | k in w.presets
        ensures k in m.presets && |w.presets[k]| <= |m.presets[k]|
      {
      }
    }
  }

  // The number of presets is the number of successful adds.
  function Adds(w: World, es: seq<Event>): nat
    decreases |es|
  {
    if es == [] then 0
    else
      (if es[0].AddPreset? && w.ctrl.fault.None? && es[0].id !in w.presets then 1 else 0)
      + Adds(Apply(w, es[0]), es[1..])
  }

  lemma {:induction false} PresetsAreAdds(w: World, es: seq<Event>)
    ensures |Run(w, es).presets| == |w.presets| + Adds(w, es)
    decreases |es|
  {
    if es != [] {
      var w' := Apply(w, es[0]);
      if es[0].AddPreset? && w.ctrl.fault.None? && es[0].id !in w.presets {
        assert w'.presets.Keys == w.presets.Keys + {es[0].id};
      } else {
        assert w'.presets.Keys == w.presets.Keys;
      }
      assert |w'.presets.Keys| == |w'.presets| && |w.presets.Keys| == |w.presets|;
      PresetsAreAdds(w', es[1..]);
    }
  }

  lemma {:induction false} RunConcat(w: World, a: seq<Event>, b: seq<Event>)
    ensures Run(w, a + b) == Run(Run(w, a), b)
    decreases |a|
  {
    if a == [] {
      assert a + b == b;
    } else {
      assert (a + b)[1..] == a[1..] + b;
      RunConcat(Apply(w, a[0]), a[1..], b);
    }
  }

  lemma RunSnoc(w: World, es: seq<Event>)
    requires es != []
    ensures Run(w, es) == Apply(Run(w, es[..|es| - 1]), es[|es| - 1])
  {
    var n := |es| - 1;
    assert es == es[..n] + [es[n]];
    RunConcat(w, es[..n], [es[n]]);
    var before := Run(w, es[..n]);
    assert Run(before, [es[n]]) == Run(Apply(before, es[n]), []);
  }
}
