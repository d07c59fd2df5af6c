// A measure that every command-free running tick decreases, unless the table
// is out of band.
module ProgressMeasure {
  import opened Wrappers
  import opened ReflowSpec
  import opened ReflowInvariants
  import opened PreheatDecision

  datatype Measure = Measure(stages: nat, phase: nat, ticks: nat)

  predicate Less(a: Measure, b: Measure) {
    || a.stages < b.stages
    || (a.stages == b.stages && a.phase < b.phase)
    || (a.stages == b.stages && a.phase == b.phase && a.ticks < b.ticks)
  }

  function Rank(p: Phase): nat {
    match p
    case InitStep => 3
    case Preheat => 2
    case InProgress => 1
    case StageCompleted => 0
  }

  // Ticks until the saved deadline, rounded up.
  function TicksLeft(s: State): nat {
    if s.clock >= s.deadline then 0 else (s.deadline - s.clock + SYSTICK_RESOLUTION - 1) / SYSTICK_RESOLUTION
  }

  function MeasureOf(s: State, presets: Presets): Measure
    requires s.running ==> s.active.Some? && s.index <= |StagesOf(presets, s.active.value)|
  {
    if !s.running then Measure(0, 0, 0)
    else Measure(|StagesOf(presets, s.active.value)| - s.index, Rank(s.step),
                 if s.step.InProgress? then TicksLeft(s) else 0)
  }

  // The tick waits: Preheat, on a reading out of band.
  predicate Waits(s: State, presets: Presets, poll: Option<Reading>)
    requires s.active.Some? && s.index < |StagesOf(presets, s.active.value)|
  {
    s.step.Preheat?
    && Judge(StagesOf(presets, s.active.value)[s.index].temperature, Latest(s.reading, poll)) == Wait
  }

  lemma QuietTickProgress(s: State, presets: Presets, poll: Option<Reading>)
    requires s.fault.None? && Safe(World(s, presets)) && s.running && !Dangling(s, presets)
    ensures var t := Advance(s, presets, poll);
      && Safe(World(t, presets)) && !Dangling(t, presets)
      && (Less(MeasureOf(t, presets), MeasureOf(s, presets)) <==> !Waits(s, presets, poll))
      && (Waits(s, presets, poll) ==> MeasureOf(t, presets) == MeasureOf(s, presets))
  {
    if s.step.Preheat? {
      PreheatTick(s, presets, poll);
    }
  }
}
