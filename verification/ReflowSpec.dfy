// The reflow controller as a step function on values: one command, one tick,
// one event, one run.
module ReflowSpec {
  import opened Wrappers
  import opened MachineWords
  import opened Commands
  import opened PresetItems

  const SYSTICK_RESOLUTION: int := 1000

  datatype Phase = InitStep | Preheat | InProgress | StageCompleted

  datatype Reading = Reading(surrounding: Word, table: Word, hysteresis: Word, k: Word)

  const NO_READING: Reading := Reading(0, 0, 0, 0)

  // Why an exception, or the use of a stage pointer that no longer points to a
  // stage, ended the worker.
  datatype Fault = UnknownPreset(id: nat) | StageOutOfRange | BadStagePointer

  // One scheduled register write, labelled with what it was for.
  datatype Entry =
    | Setpoint(index: nat, temperature: UInt32)
    | HeaterOff
    | Regulator(k: Word, hysteresis: UInt32)

  // A pointer into the stages of a preset, and how many there were when it was
  // taken: appending a stage may move them all and leave it dangling.
  datatype StageRef = StageRef(preset: nat, index: nat, length: nat)

  // A preset object is named by its key in the holder (see PresetsHolder.Valid).
  // `log` is history: every write the controller has scheduled so far.
  datatype State = State(
    running: bool,
    active: Option<nat>,
    activeId: Option<nat>,
    index: nat,
    stage: Option<StageRef>,
    step: Phase,
    deadline: int,
    clock: int,
    reading: Reading,
    fault: Option<Fault>,
    log: seq<Entry>)

  type Presets = map<nat, seq<StageItem>>

  // A freshly constructed controller; its saved deadline is uninitialised.
  ghost predicate Initial(s: State) {
    && !s.running && s.active.None? && s.activeId.None? && s.index == 0
    && s.stage.None? && s.step.InitStep? && s.clock == 0 && s.reading == NO_READING
    && s.fault.None? && s.log == []
  }

  function StagesOf(presets: Presets, id: nat): seq<StageItem> {
    if id in presets then presets[id] else []
  }

  // ----- Commands -----

  function HandleStart(s: State): State {
    if s.active.None? then s else s.(step := InitStep, running := true)
  }

  function HandleEnd(s: State): State {
    if !s.running then s
    else s.(log := s.log + [HeaterOff], index := 0, step := StageCompleted,
            active := None, activeId := None, running := false, clock := 1)
  }

  function HandleSelect(s: State, id: nat, known: set<nat>): State {
    if s.running then s
    else if id in known then s.(activeId := Some(id), active := Some(id))
    else s.(activeId := Some(id), fault := Some(UnknownPreset(id)))
  }

  function HandleRegulator(s: State, k: Word, hysteresis: UInt32): State {
    s.(log := s.log + [Regulator(k, hysteresis)])
  }

  function Dispatch(s: State, c: Command, known: set<nat>): State {
    if s.fault.Some? then s
    else match c
      case StartReflow => HandleStart(s)
      case StopReflow => HandleEnd(s)
      case SelectPreset(id) => HandleSelect(s, id, known)
      case SetRegulatorParams(k, hysteresis) => HandleRegulator(s, k, hysteresis)
  }

  function Drain(s: State, batch: seq<Command>, known: set<nat>): State
    decreases |batch|
  {
    if batch == [] then s else Drain(Dispatch(s, batch[0], known), batch[1..], known)
  }

  // ----- One stage-machine step -----

  // The band test as the code computes it: both ends wrap at 32 bits.
  predicate InBandWrapped(temperature: UInt32, r: Reading) {
    Wrap32(temperature - r.hysteresis) <= r.table && Wrap32(temperature + r.hysteresis) >= r.table
  }

  function MoveToNextStage(s: State, presets: Presets): State
    requires s.active.Some?
  {
    var moved := s.(index := s.index + 1);
    if moved.index >= |StagesOf(presets, s.active.value)| then HandleEnd(moved)
    else moved.(step := InitStep)
  }

  function HandleInit(s: State, presets: Presets): State
    requires s.active.Some?
  {
    var stages := StagesOf(presets, s.active.value);
    if s.index >= |stages| then s.(fault := Some(StageOutOfRange))
    else s.(stage := Some(StageRef(s.active.value, s.index, |stages|)), step := Preheat,
            log := s.log + [Setpoint(s.index, stages[s.index].temperature)])
  }

  // The pointer still points to a stage.
  predicate PointsToStage(ref: StageRef, presets: Presets) {
    ref.index < ref.length == |StagesOf(presets, ref.preset)|
  }

  function HandlePreheat(s: State, presets: Presets): State
    requires s.active.Some?
  {
    if s.stage.None? || !PointsToStage(s.stage.value, presets)
    then s.(fault := Some(BadStagePointer))
    else
      var item := StagesOf(presets, s.stage.value.preset)[s.stage.value.index];
      if item.temperature == 0 then MoveToNextStage(s, presets)
      else if item.temperature <= s.reading.surrounding then MoveToNextStage(s, presets)
      else if InBandWrapped(item.temperature, s.reading)
      then s.(deadline := s.clock + SYSTICK_RESOLUTION * item.duration, step := InProgress)
      else s
  }

  function HandleInProgress(s: State): State {
    if s.stage.None? then s
    else if s.clock >= s.deadline then s.(step := StageCompleted)
    else s
  }

  function ProcessStep(s: State, presets: Presets): State {
    if s.active.None? || !s.running then s
    else match s.step
      case InitStep => HandleInit(s, presets)
      case Preheat => HandlePreheat(s, presets)
      case InProgress => HandleInProgress(s)
      case StageCompleted => MoveToNextStage(s, presets)
  }

  function Latest(last: Reading, poll: Option<Reading>): Reading {
    if poll.Some? then poll.value else last
  }

  // What a tick does after its queue drain: poll, step, advance the clock.
  function Advance(s: State, presets: Presets, poll: Option<Reading>): State {
    if s.fault.Some? then s
    else
      var t := ProcessStep(s.(reading := Latest(s.reading, poll)), presets);
      if t.fault.None? && t.running then t.(clock := t.clock + SYSTICK_RESOLUTION) else t
  }

  function TickState(s: State, presets: Presets, batch: seq<Command>, poll: Option<Reading>): State {
    Advance(Drain(s, batch, presets.Keys), presets, poll)
  }

  // ----- Whole runs -----

  datatype World = World(ctrl: State, presets: Presets)

  datatype Event =
    | Tick(batch: seq<Command>, poll: Option<Reading>)
    | AddPreset(id: nat)
    | UpdateStages(id: nat, stages: seq<StageItem>)

  // Once the worker has faulted the process is gone and nothing changes any more.
  function Apply(w: World, e: Event): World {
    if w.ctrl.fault.Some? then w
    else match e
      case Tick(batch, poll) => w.(ctrl := TickState(w.ctrl, w.presets, batch, poll))
      case AddPreset(id) => if id in w.presets then w else w.(presets := w.presets[id := []])
      case UpdateStages(id, stages) =>
        if id in w.presets then w.(presets := w.presets[id := Overlay(w.presets[id], stages)]) else w
  }

  function Run(w: World, es: seq<Event>): World
    decreases |es|
  {
    if es == [] then w else Run(Apply(w, es[0]), es[1..])
  }

  ghost predicate InitialWorld(w: World) {
    Initial(w.ctrl) && w.presets == map[]
  }
}
