// The controller as an object: one method per function of the program, each
// tied to the step function of ReflowSpec.
module ReflowController {
  import opened Wrappers
  import opened MachineWords
  import opened Commands
  import opened Modbus
  import opened PresetsHolder
  import opened RequestsQueue
  import opened HeaterRegister
  import opened ReflowInvariants
  import opened ReflowSpec
  import opened QueueDrain

  // StageItem*, into the vector of a preset, and the length the vector had when
  // the pointer was taken: it points to a stage only as long as that is unchanged.
  datatype StagePointer = StagePointer(preset: Preset, index: nat, length: nat)

  datatype ReflowProcessData = ReflowProcessData(
    activeStageIndex: nat,
    activePresetState: Option<StagePointer>,
    reflowStep: Phase,
    stageCompletionTimepoint: int)

  lemma ReplayGrows(link: Link, log: seq<Entry>, e: Entry)
    ensures Replay(link, log + [e]) == Deliver(link, Replay(link, log), WriteOf(e))
  {
  }

  // The preset pointer denotes the object its key does.
  ghost predicate Denotes(storage: map<nat, Preset>, key: Option<nat>, pointer: Preset?) {
    match key
    case None => pointer == null
    case Some(k) => k in storage && storage[k] == pointer
  }

  // And so does the stage pointer.
  ghost predicate StageDenotes(storage: map<nat, Preset>, key: Option<StageRef>, pointer: Option<StagePointer>) {
    match key
    case None => pointer.None?
    case Some(ref) => ref.preset in storage && pointer == Some(StagePointer(storage[ref.preset], ref.index, ref.length))
  }

  // The registers hold what the scheduled writes put there.
  ghost predicate Delivered(link: Link, log: seq<Entry>, wire: Wire) {
    wire == Replay(link, log)
  }

  // Every write scheduled so far, as ghost history.
  class WriteLog {
    ghost var entries: seq<Entry>

    constructor ()
      ensures entries == []
    {
      entries := [];
    }
  }

  class ReflowProcessController {
    const proxy: ModbusRequestsProxy
    const presetsHolder: PresetsHolder
    const requestsQueue: RequestsQueue

    var isReflowRunning: bool
    var activePreset: Preset?
    var activePresetId: Option<nat>
    var process: ReflowProcessData
    var sysTickTime: int
    var lastModbusData: Reading

    // An exception that left the worker, or the use of a dangling pointer;
    // nothing runs after it.
    var fault: Option<Fault>

    ghost var activeKey: Option<nat>        // the key of activePreset
    ghost var stageKey: Option<StageRef>    // the key of activePresetState
    const writes: WriteLog

    ghost function Abs(): State
      reads this, writes
    {
      State(isReflowRunning, activeKey, activePresetId, process.activeStageIndex, stageKey, process.reflowStep,
            process.stageCompletionTimepoint, sysTickTime, lastModbusData, fault, writes.entries)
    }

    ghost predicate Linked()
      reads this, presetsHolder, writes, proxy.device
    {
      && Denotes(presetsHolder.presetsStorage, activeKey, activePreset)
      && StageDenotes(presetsHolder.presetsStorage, stageKey, process.activePresetState)
      && Delivered(proxy.device.link, writes.entries, proxy.device.Contents())
    }

    ghost predicate Valid()
      reads this, presetsHolder, presetsHolder.presetsStorage.Values, writes, proxy.device
    {
      presetsHolder.Valid() && Linked() && Invariant(World(Abs(), presetsHolder.Stages()))
    }

    constructor (presetsHolder: PresetsHolder, proxy: ModbusRequestsProxy)
      requires presetsHolder.Valid()
      requires proxy.device.bank == map[] && proxy.device.used == 0
      ensures Valid() && Initial(Abs())
      ensures this.presetsHolder == presetsHolder && this.proxy == proxy
      ensures fresh(requestsQueue) && fresh(writes) && requestsQueue.Valid()
      ensures requestsQueue.requests == [] && requestsQueue.posted == []
    {
      this.presetsHolder := presetsHolder;
      this.proxy := proxy;
      requestsQueue := new RequestsQueue();
      isReflowRunning, activePreset, activePresetId := false, null, None;
      var uninitialised: int := *;
      process := ReflowProcessData(0, None, InitStep, uninitialised);
      sysTickTime, lastModbusData, fault := 0, NO_READING, None;
      activeKey, stageKey := None, None;
      writes := new WriteLog();
    }

    // A register write, recorded in the log.
    method Schedule(address: Word, words: seq<Word>, ghost entry: Entry)
      requires Delivered(proxy.device.link, writes.entries, proxy.device.Contents())
      requires WriteOf(entry) == Write(address, words)
      modifies writes, proxy.device
      ensures Delivered(proxy.device.link, writes.entries, proxy.device.Contents())
      ensures writes.entries == old(writes.entries) + [entry]
    {
      ReplayGrows(proxy.device.link, writes.entries, entry);
      var _ := proxy.ScheduleRegistersWrite(address, words);
      writes.entries := writes.entries + [entry];
    }

    // The reported id is there exactly when a preset is held, and names it.
    method GetActiveReflowPresetId() returns (id: Option<nat>)
      requires Valid() && fault.None?
      ensures id.Some? <==> activePreset != null
      ensures id.Some? ==>
        id.value in presetsHolder.presetsStorage && presetsHolder.presetsStorage[id.value] == activePreset
    {
      return activePresetId;
    }

    // ----- Commands -----

    method DispatchCommand(command: Command)
      requires Linked() && fault.None?
      modifies this, writes, proxy.device
      ensures Linked()
      ensures Abs() == Dispatch(old(Abs()), command, presetsHolder.presetsStorage.Keys)
    {
      match command
      case StartReflow => HandleReflowStart();
      case StopReflow => HandleReflowEnd();
      case SelectPreset(presetId) => HandlePresetSelection(presetId);
      case SetRegulatorParams(k, hysteresis) => SetRegulatorParams(k, hysteresis);
    }

    // Other threads push pushes[i] just before the i-th getOperation call, and
    // what is left of `pushes` later in the tick. Which commands are handled, and
    // in which order, is determined.
    method DispatchCommandsQueue(pushes: seq<seq<Command>>) returns (ghost handled: seq<Command>)
      requires Linked() && fault.None? && requestsQueue.Valid()
      modifies this, writes, proxy.device, requestsQueue
      ensures Linked() && requestsQueue.Valid()
      ensures Drained(handled, requestsQueue.requests)
           == DrainQueue(old(Abs()), old(requestsQueue.requests), pushes, presetsHolder.presetsStorage.Keys)
      ensures Abs() == Drain(old(Abs()), handled, presetsHolder.presetsStorage.Keys)
      ensures requestsQueue.taken == old(requestsQueue.taken) + handled
      ensures requestsQueue.posted == old(requestsQueue.posted) + Flatten(pushes)
    {
      ghost var start, queued, taken := Abs(), requestsQueue.requests, requestsQueue.taken;
      var coming;
      handled, coming := DrainLoop(pushes);
      requestsQueue.PushAll(Flatten(coming));
      DrainLosesNothing(start, queued, pushes, presetsHolder.presetsStorage.Keys);
      PostedThen(taken, handled, requestsQueue.requests, queued, Flatten(pushes));
    }

    // The loop, with the pushes that come after it.
    method DrainLoop(pushes: seq<seq<Command>>) returns (ghost handled: seq<Command>, coming: seq<seq<Command>>)
      requires Linked() && fault.None? && requestsQueue.Valid()
      modifies this, writes, proxy.device, requestsQueue
      ensures Linked() && requestsQueue.Valid()
      ensures Drained(handled, requestsQueue.requests + Flatten(coming))
           == DrainQueue(old(Abs()), old(requestsQueue.requests), pushes, presetsHolder.presetsStorage.Keys)
      ensures Abs() == Drain(old(Abs()), handled, presetsHolder.presetsStorage.Keys)
      ensures requestsQueue.taken == old(requestsQueue.taken) + handled
    {
      handled, coming := [], pushes;
      ghost var known := presetsHolder.presetsStorage.Keys;
      ghost var start, queued, taken := Abs(), requestsQueue.requests, requestsQueue.taken;
      while fault.None?
        invariant Linked() && requestsQueue.Valid()
        invariant Draining(start, queued, pushes, known, Abs(), requestsQueue.requests, coming, handled)
        invariant requestsQueue.taken == taken + handled
        invariant presetsHolder.presetsStorage.Keys == known
        decreases |coming|, |requestsQueue.requests|
      {
        ghost var s, requests := Abs(), requestsQueue.requests;
        var operation := HandleNext(Arriving(coming));
        if operation.None? {
          DrainedNow(start, queued, pushes, known, s, requests, coming, handled);
          coming := Later(coming);
          return;
        }
        DrainingNext(start, queued, pushes, known, s, requests, coming, handled, operation.value, requestsQueue.requests);
        HandledNext(taken, handled, operation.value);
        handled := handled + [operation.value];
        coming := Later(coming);
      }
    }

    // One pass of the loop: getOperation, just before which other threads push
    // `arriving`, and the handler of what it returns.
    method HandleNext(arriving: seq<Command>) returns (operation: Option<Command>)
      requires Linked() && fault.None? && requestsQueue.Valid()
      modifies this, writes, proxy.device, requestsQueue
      ensures Linked() && requestsQueue.Valid()
      ensures requestsQueue.posted == old(requestsQueue.posted) + arriving
      ensures operation.None? <==> old(requestsQueue.requests) + arriving == []
      ensures operation.None? ==>
        && requestsQueue.requests == [] && requestsQueue.taken == old(requestsQueue.taken)
        && Abs() == old(Abs())
      ensures operation.Some? ==>
        && old(requestsQueue.requests) + arriving == [operation.value] + requestsQueue.requests
        && requestsQueue.taken == old(requestsQueue.taken) + [operation.value]
        && Abs() == Dispatch(old(Abs()), operation.value, presetsHolder.presetsStorage.Keys)
    {
      operation := requestsQueue.GetOperationAfter(arriving);
      if operation.Some? {
        DispatchCommand(operation.value);
      }
    }

    method HandleReflowStart()
      requires Linked()
      modifies this
      ensures Linked() && Abs() == HandleStart(old(Abs()))
    {
      if activePreset == null {
        return;
      }
      process := process.(reflowStep := InitStep);
      isReflowRunning := true;
    }

    method HandleReflowEnd()
      requires Linked()
      modifies this, writes, proxy.device
      ensures Linked() && Abs() == HandleEnd(old(Abs()))
    {
      if !isReflowRunning {
        return;
      }
      DisableHeating();
      ResetProcess();
    }

    // What the end of a run resets.
    method ResetProcess()
      requires Linked()
      modifies this
      ensures Linked()
      ensures Abs() == old(Abs()).(index := 0, step := StageCompleted, active := None, activeId := None,
                                   running := false, clock := 1)
    {
      process := process.(activeStageIndex := 0, reflowStep := StageCompleted);
      activePreset, activeKey := null, None;
      activePresetId := None;
      isReflowRunning := false;
      sysTickTime := 1;
    }

    method HandlePresetSelection(presetId: nat)
      requires Linked() && fault.None?
      modifies this
      ensures Linked()
      ensures Abs() == HandleSelect(old(Abs()), presetId, presetsHolder.presetsStorage.Keys)
    {
      if isReflowRunning {
        return;
      }
      activePresetId := Some(presetId);
      var preset := presetsHolder.GetPresetById(presetId);
      if preset.None? {
        fault := Some(UnknownPreset(presetId));
        return;
      }
      activePreset, activeKey := preset.value, Some(presetId);
    }

    method SetRegulatorParams(k: Word, hysteresis: UInt32)
      requires Linked()
      modifies writes, proxy.device
      ensures Linked() && Abs() == HandleRegulator(old(Abs()), k, hysteresis)
    {
      var paramsData := [k, ToWord(hysteresis)];
      Schedule(FACTOR_ADDR, paramsData, Regulator(k, hysteresis));
    }

    method DisableHeating()
      requires Linked()
      modifies writes, proxy.device
      ensures Linked() && Abs() == old(Abs()).(log := old(writes.entries) + [HeaterOff])
    {
      Schedule(TARGET_TEMPERATURE_ADDR, [0], HeaterOff);
    }

    // ----- The stage machine -----

    method ProcessReflowStep()
      requires Linked() && fault.None? && Startable(Abs(), presetsHolder.Stages())
      modifies this, writes, proxy.device
      ensures Linked() && Abs() == ProcessStep(old(Abs()), presetsHolder.Stages())
    {
      if activePreset == null {
        return;
      }
      if !isReflowRunning {
        return;
      }
      match process.reflowStep
      case InitStep => HandleInitStep();
      case Preheat => HandlePreheatState();
      case InProgress => HandleInProgressState();
      case StageCompleted => MoveToNextStage();
    }

    method HandleInitStep()
      requires Linked() && activePreset != null
      modifies this, writes, proxy.device
      ensures Linked() && Abs() == HandleInit(old(Abs()), presetsHolder.Stages())
    {
      var item := activePreset.GetStageItem(process.activeStageIndex);
      if item.None? {
        fault := Some(StageOutOfRange);
        return;
      }
      var pointer := StagePointer(activePreset, process.activeStageIndex, activePreset.NumStages());
      process := process.(activePresetState := Some(pointer), reflowStep := Preheat);
      stageKey := Some(StageRef(activeKey.value, pointer.index, pointer.length));
      Schedule(TARGET_TEMPERATURE_ADDR, [ToWord(item.value.temperature)],
               Setpoint(process.activeStageIndex, item.value.temperature));
    }

    method HandlePreheatState()
      requires Linked() && Coherent(Abs(), presetsHolder.Stages())
      requires isReflowRunning && process.reflowStep.Preheat?
      modifies this, writes, proxy.device
      ensures Linked() && Abs() == HandlePreheat(old(Abs()), presetsHolder.Stages())
    {
      var pointer := process.activePresetState.value;
      if pointer.length != pointer.preset.NumStages() {
        fault := Some(BadStagePointer);
        return;
      }
      var item := pointer.preset.presetItems[pointer.index];
      var hysteresis := lastModbusData.hysteresis;
      var presetExpectedTemperature := item.temperature;
      if presetExpectedTemperature == 0 {
        MoveToNextStage();
        return;
      }
      if presetExpectedTemperature <= lastModbusData.surrounding {
        MoveToNextStage();
        return;
      }
      var canCompletePreheatStage :=
        Wrap32(presetExpectedTemperature - hysteresis) <= lastModbusData.table &&
        Wrap32(presetExpectedTemperature + hysteresis) >= lastModbusData.table;
      if canCompletePreheatStage {
        process := process.(stageCompletionTimepoint := sysTickTime + SYSTICK_RESOLUTION * item.duration,
                            reflowStep := InProgress);
      }
    }

    method HandleInProgressState()
      requires Linked()
      modifies `process
      ensures Linked() && Abs() == HandleInProgress(old(Abs()))
    {
      if process.activePresetState.None? {
        return;
      }
      if sysTickTime >= process.stageCompletionTimepoint {
        process := process.(reflowStep := StageCompleted);
      }
    }

    method MoveToNextStage()
      requires Linked() && activePreset != null
      modifies this, writes, proxy.device
      ensures Linked() && Abs() == ReflowSpec.MoveToNextStage(old(Abs()), presetsHolder.Stages())
    {
      process := process.(activeStageIndex := process.activeStageIndex + 1);
      var isReflowCompleted := process.activeStageIndex >= activePreset.NumStages();
      if isReflowCompleted {
        HandleReflowEnd();
        return;
      } else {
        process := process.(reflowStep := InitStep);
      }
    }

    method RequestModbusData(modbusData: Option<Block>)
      requires Linked()
      modifies `lastModbusData
      ensures Linked()
      ensures Abs() == old(Abs()).(reading := Latest(old(lastModbusData), Polled(modbusData)))
      ensures modbusData.None? ==> lastModbusData == old(lastModbusData)
      ensures modbusData.Some? ==>
        && lastModbusData.surrounding == modbusData.value[0] && lastModbusData.table == modbusData.value[1]
        && lastModbusData.hysteresis == modbusData.value[2] && lastModbusData.k == modbusData.value[3]
    {
      if modbusData.None? {
        return;
      }
      var data := modbusData.value;
      lastModbusData := Reading(data[0], data[1], data[2], data[3]);
    }

    // One tick of the worker. `modbusData` is what the register read returns.
    // It is the Tick of ReflowSpec on the batch the drain takes.
    method Runnable(pushes: seq<seq<Command>>, modbusData: Option<Block>) returns (ghost handled: seq<Command>)
      requires Valid() && fault.None? && requestsQueue.Valid()
      modifies this, writes, proxy.device, requestsQueue
      ensures Valid() && requestsQueue.Valid()
      ensures Drained(handled, requestsQueue.requests)
           == DrainQueue(old(Abs()), old(requestsQueue.requests), pushes, presetsHolder.presetsStorage.Keys)
      ensures Abs() == TickState(old(Abs()), presetsHolder.Stages(), handled, Polled(modbusData))
      ensures fault.None? ==> Stored(old(lastModbusData), modbusData, lastModbusData)
      ensures requestsQueue.taken == old(requestsQueue.taken) + handled
      ensures requestsQueue.posted == old(requestsQueue.posted) + Flatten(pushes)
    {
      ghost var before := World(Abs(), presetsHolder.Stages());
      assert before.presets.Keys == presetsHolder.presetsStorage.Keys;
      handled := DispatchCommandsQueue(pushes);
      assert presetsHolder.Stages() == before.presets;
      DrainKeepsStartable(before.ctrl, handled, before.presets);
      if fault.None? {
        PollAndStep(modbusData);
      }
      assert Abs() == TickState(before.ctrl, before.presets, handled, Polled(modbusData));
      ApplyKeepsInvariant(before, Tick(handled, Polled(modbusData)));
      TickStores(before.ctrl, before.presets, handled, modbusData);
    }

    // The rest of a tick once the queue is drained.
    method PollAndStep(modbusData: Option<Block>)
      requires Linked() && fault.None? && Startable(Abs(), presetsHolder.Stages())
      modifies this, writes, proxy.device
      ensures Linked() && Abs() == Advance(old(Abs()), presetsHolder.Stages(), Polled(modbusData))
    {
      ghost var s, presets := Abs(), presetsHolder.Stages();
      RequestModbusData(modbusData);
      assert Abs() == s.(reading := Latest(s.reading, Polled(modbusData)));
      assert presetsHolder.Stages() == presets;
      ProcessReflowStep();
      assert presetsHolder.Stages() == presets;
      if fault.None? && isReflowRunning {
        sysTickTime := sysTickTime + SYSTICK_RESOLUTION;
      }
    }
  }
}
