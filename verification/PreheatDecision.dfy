// How a Preheat tick decides, and on which reading.
module PreheatDecision {
  import opened Wrappers
  import opened MachineWords
  import opened Commands
  import opened ReflowSpec
  import opened ReflowInvariants
  import opened ModeRefinement

  datatype Verdict = Skip | Soak | Wait

  // The intended test, over the integers: a stage at zero or at or below the
  // surroundings is skipped, one within the hysteresis of its target soaks.
  function Judge(temperature: UInt32, r: Reading): Verdict {
    if temperature == 0 || temperature <= r.surrounding then Skip
    else if r.hysteresis <= temperature && temperature - r.hysteresis <= r.table <= temperature + r.hysteresis
    then Soak
    else Wait
  }

  // The unsigned 32-bit test is the integer one, for every target and reading,
  // including a target below the hysteresis and one near 2^32.
  lemma BandUnderWraparound(temperature: UInt32, r: Reading)
    ensures InBandWrapped(temperature, r) <==>
      r.hysteresis <= temperature && temperature - r.hysteresis <= r.table <= temperature + r.hysteresis
  {
  }

  // One Preheat tick, on stages that have not moved, does what the intended
  // test says about the reading of that very tick.
  lemma PreheatTick(s: State, presets: Presets, poll: Option<Reading>)
    requires s.fault.None? && Coherent(s, presets) && s.running && s.step.Preheat? && !Dangling(s, presets)
    ensures var item := presets[s.active.value][s.index];
      var polled := s.(reading := Latest(s.reading, poll));
      Advance(s, presets, poll) ==
        match Judge(item.temperature, polled.reading)
        case Wait => polled.(clock := s.clock + SYSTICK_RESOLUTION)
        case Soak => polled.(clock := s.clock + SYSTICK_RESOLUTION, step := InProgress,
                             deadline := s.clock + SYSTICK_RESOLUTION * item.duration)
        case Skip => if s.index + 1 < |presets[s.active.value]|
                     then polled.(clock := s.clock + SYSTICK_RESOLUTION, step := InitStep, index := s.index + 1)
                     else HandleEnd(polled)
  {
    BandUnderWraparound(presets[s.active.value][s.index].temperature, Latest(s.reading, poll));
  }

  // ----- Which reading that is -----

  // The most recent successful poll of a run, or what was there before it.
  function LatestPoll(last: Reading, es: seq<Event>): Reading
    decreases |es|
  {
    if es == [] then last
    else LatestPoll(if es[0].Tick? && es[0].poll.Some? then es[0].poll.value else last, es[1..])
  }

  lemma TickReading(w: World, batch: seq<Command>, poll: Option<Reading>)
    requires Apply(w, Tick(batch, poll)).ctrl.fault.None?
    ensures Apply(w, Tick(batch, poll)).ctrl.reading == if poll.Some? then poll.value else w.ctrl.reading
  {
    DrainFrame(w.ctrl, batch, w.presets.Keys);
  }

  // Until a fault the stored reading is the most recent successful poll.
  lemma {:induction false} ReadingIsLatest(w: World, es: seq<Event>)
    requires Run(w, es).ctrl.fault.None?
    ensures Run(w, es).ctrl.reading == LatestPoll(w.ctrl.reading, es)
    decreases |es|
  {
    if es != [] {
      var next := Apply(w, es[0]);
      FaultedWorldStays(next, es[1..]);
      if es[0].Tick? {
        TickReading(w, es[0].batch, es[0].poll);
      }
      ReadingIsLatest(next, es[1..]);
    }
  }

  lemma {:induction false} FaultedWorldStays(w: World, es: seq<Event>)
    ensures w.ctrl.fault.Some? ==> Run(w, es) == w
    decreases |es|
  {
    if es != [] && w.ctrl.fault.Some? {
      FaultedWorldStays(w, es[1..]);
    }
  }

  // ----- No soak on missing data -----

  ghost predicate NoData(es: seq<Event>) {
    forall k :: 0 <= k < |es| && es[k].Tick? ==> es[k].poll.None?
  }

  ghost predicate Uninformed(s: State) {
    s.reading == NO_READING && (s.running ==> s.step.InitStep? || s.step.Preheat?)
  }

  lemma {:induction false} DrainKeepsUninformed(s: State, batch: seq<Command>, known: set<nat>)
    requires Uninformed(s)
    ensures Uninformed(Drain(s, batch, known))
    decreases |batch|
  {
    if batch != [] {
      DrainKeepsUninformed(Dispatch(s, batch[0], known), batch[1..], known);
    }
  }

  lemma UninformedTick(w: World, e: Event)
    requires Invariant(w) && w.ctrl.fault.None? && Uninformed(w.ctrl)
    requires e.Tick? && e.poll.None?
    ensures Uninformed(Apply(w, e).ctrl)
  {
    var d := Drain(w.ctrl, e.batch, w.presets.Keys);
    DrainKeepsUninformed(w.ctrl, e.batch, w.presets.Keys);
    DrainKeepsStartable(w.ctrl, e.batch, w.presets);
    if d.fault.None? && d.running && d.step.Preheat? && !Dangling(d, w.presets) {
      PreheatTick(d, w.presets, e.poll);
    }
  }

  // Whatever is commanded or edited, no run soaks before the first successful
  // register read.
  lemma {:induction false} NoSoakWithoutData(w: World, es: seq<Event>)
    requires Invariant(w) && Uninformed(w.ctrl) && NoData(es)
    ensures Uninformed(Run(w, es).ctrl)
    decreases |es|
  {
    if es != [] {
      if w.ctrl.fault.None? && es[0].Tick? {
        UninformedTick(w, es[0]);
      }
      ApplyKeepsInvariant(w, es[0]);
      NoSoakWithoutData(Apply(w, es[0]), es[1..]);
    }
  }

  // The event leaves stage `index` of preset `id` nonzero, and its number of
  // stages at `length`.
  predicate KeepsHot(e: Event, id: nat, index: nat, length: nat) {
    e.UpdateStages? && e.id == id ==>
      |e.stages| <= length && (index < |e.stages| ==> e.stages[index].temperature != 0)
  }

  // Preheating a nonzero stage that no reading has been seen for.
  ghost predicate Cold(w: World, id: nat, index: nat, length: nat) {
    && w.ctrl.fault.None? && w.ctrl.running && w.ctrl.step.Preheat? && !Dangling(w.ctrl, w.presets)
    && w.ctrl.activeId == Some(id) && w.ctrl.index == index && w.ctrl.reading == NO_READING
    && |StagesOf(w.presets, id)| == length
    && index < length && w.presets[id][index].temperature != 0
  }

  lemma EventKeepsCold(w: World, e: Event, id: nat, index: nat, length: nat)
    requires Invariant(w) && Cold(w, id, index, length)
    requires Uninterrupted(e) && KeepsHot(e, id, index, length)
    requires e.Tick? ==> e.poll.None?
    ensures Cold(Apply(w, e), id, index, length)
  {
    if e.Tick? {
      UninterruptedDrain(w.ctrl, e.batch, w.presets.Keys);
      PreheatTick(Drain(w.ctrl, e.batch, w.presets.Keys), w.presets, e.poll);
    }
  }

  // And a stage with a nonzero temperature does not leave Preheat at all, over
  // any ticks without Start, Stop or data, any new presets, and any edits but
  // those that append to the running preset or zero that stage.
  lemma {:induction false} PreheatHoldsWithoutData(w: World, es: seq<Event>, id: nat, index: nat, length: nat)
    requires Invariant(w) && Cold(w, id, index, length)
    requires NoData(es) && AllUninterrupted(es)
    requires forall k :: 0 <= k < |es| ==> KeepsHot(es[k], id, index, length)
    ensures Cold(Run(w, es), id, index, length)
    decreases |es|
  {
    if es != [] {
      ApplyKeepsInvariant(w, es[0]);
      EventKeepsCold(w, es[0], id, index, length);
      PreheatHoldsWithoutData(Apply(w, es[0]), es[1..], id, index, length);
    }
  }
}
