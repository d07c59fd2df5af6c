// The whole table: HTTP requests and worker ticks on shared objects, in any
// order. What a history does to the objects is what TableRuns says it amounts to.
module SolderingTable {
  import opened Wrappers
  import opened Commands
  import opened Modbus
  import opened PresetItems
  import opened PresetsHolder
  import opened StageRequests
  import opened ReflowInvariants
  import opened SetpointTrace
  import opened HeaterRegister
  import opened QueueDrain
  import opened ReflowController
  import opened ReflowSpec
  import opened TableRuns

  class Table {
    const presetsHolder: PresetsHolder
    const reflowController: ReflowProcessController

    ghost predicate Valid()
      reads this, reflowController, presetsHolder, presetsHolder.presetsStorage.Values,
            reflowController.writes, reflowController.proxy.device, reflowController.requestsQueue
    {
      && reflowController.presetsHolder == presetsHolder
      && reflowController.Valid()
      && reflowController.requestsQueue.Valid()
    }

    ghost function Now(): World
      reads reflowController, presetsHolder, presetsHolder.presetsStorage.Values, reflowController.writes
    {
      World(reflowController.Abs(), presetsHolder.Stages())
    }

    ghost function Here(): Site
      reads reflowController, presetsHolder, presetsHolder.presetsStorage.Values, reflowController.writes,
            reflowController.requestsQueue
    {
      Site(Now(), presetsHolder.Names(), reflowController.requestsQueue.requests)
    }

    constructor (hash: Hash, link: Link)
      ensures Valid() && InitialWorld(Now())
      ensures fresh(presetsHolder) && fresh(reflowController) && fresh(reflowController.writes)
      ensures fresh(reflowController.proxy.device) && fresh(reflowController.requestsQueue)
      ensures presetsHolder.hash == hash && presetsHolder.presetsStorage == map[]
      ensures reflowController.proxy.device.link == link
      ensures reflowController.requestsQueue.requests == [] && reflowController.requestsQueue.posted == []
    {
      var holder := new PresetsHolder(hash);
      var device := new Device(link);
      var proxy := new ModbusRequestsProxy(device);
      presetsHolder := holder;
      reflowController := new ReflowProcessController(holder, proxy);
    }

    method CreatePreset(name: string) returns (id: Option<nat>)
      requires Valid() && reflowController.fault.None?
      modifies presetsHolder
      ensures Valid()
      ensures Now() == Apply(old(Now()), AddPreset(presetsHolder.hash(name)))
      ensures presetsHolder.Names() == if presetsHolder.hash(name) in old(presetsHolder.presetsStorage)
                                       then old(presetsHolder.Names())
                                       else old(presetsHolder.Names())[presetsHolder.hash(name) := name]
      ensures id == if presetsHolder.hash(name) in old(presetsHolder.presetsStorage) then None
                    else Some(presetsHolder.hash(name))
      ensures forall k :: k in old(presetsHolder.presetsStorage) ==>
        k in presetsHolder.presetsStorage && presetsHolder.presetsStorage[k] == old(presetsHolder.presetsStorage)[k]
      ensures |presetsHolder.presetsStorage| == |old(presetsHolder.presetsStorage)| + (if id.Some? then 1 else 0)
      ensures forall p :: p in presetsHolder.presetsStorage.Values ==>
        p in old(presetsHolder.presetsStorage).Values || fresh(p)
    {
      ghost var before := Now();
      id := presetsHolder.AddNewPreset(name);
      ApplyKeepsInvariant(before, AddPreset(presetsHolder.hash(name)));
    }

    // An unknown id is rejected before the body is looked at. A rename sets the
    // name of that preset; a stages request overlays its stages; anything else
    // changes nothing.
    method UpdatePreset(presetId: nat, body: Json) returns (outcome: Option<Request>)
      requires Valid() && reflowController.fault.None?
      modifies presetsHolder.presetsStorage.Values
      ensures Valid()
      ensures outcome == if presetId in presetsHolder.presetsStorage then Some(RequestOf(body)) else None
      ensures Now() == if outcome.Some? && outcome.value.NewStages?
                       then Apply(old(Now()), UpdateStages(presetId, outcome.value.stages))
                       else old(Now())
      ensures outcome.Some? ==> Means(body, outcome.value)
      ensures presetsHolder.Names() == if outcome.Some? && outcome.value.Rename?
                                       then old(presetsHolder.Names())[presetId := outcome.value.name]
                                       else old(presetsHolder.Names())
    {
      var preset := presetsHolder.GetPresetById(presetId);
      if preset.None? {
        return None;
      }
      var request := ParsePresetUpdateRequest(body);
      VisitRequest(presetId, preset.value, request);
      return Some(request);
    }

    // The visitor.
    method VisitRequest(presetId: nat, preset: Preset, request: Request)
      requires Valid() && reflowController.fault.None?
      requires presetId in presetsHolder.presetsStorage && presetsHolder.presetsStorage[presetId] == preset
      modifies preset
      ensures Valid()
      ensures Now() == if request.NewStages? then Apply(old(Now()), UpdateStages(presetId, request.stages))
                       else old(Now())
      ensures presetsHolder.Names() == if request.Rename? then old(presetsHolder.Names())[presetId := request.name]
                                       else old(presetsHolder.Names())
    {
      if request.Rename? {
        RenamePreset(presetId, preset, request.name);
      } else if request.NewStages? {
        EditStages(presetId, preset, request.stages);
      }
    }

    // Only the preset under that id changes.
    method RenamePreset(presetId: nat, preset: Preset, name: string)
      requires Valid()
      requires presetId in presetsHolder.presetsStorage && presetsHolder.presetsStorage[presetId] == preset
      modifies preset`presetName
      ensures Valid() && Now() == old(Now())
      ensures presetsHolder.Names() == old(presetsHolder.Names())[presetId := name]
    {
      ghost var before := Now();
      preset.SetName(name);
      assert presetsHolder.Stages() == before.presets;
    }

    method EditStages(presetId: nat, preset: Preset, stages: seq<StageItem>)
      requires Valid() && reflowController.fault.None?
      requires presetId in presetsHolder.presetsStorage && presetsHolder.presetsStorage[presetId] == preset
      modifies preset`presetItems
      ensures Valid() && Now() == Apply(old(Now()), UpdateStages(presetId, stages))
      ensures presetsHolder.Names() == old(presetsHolder.Names())
    {
      ghost var before := Now();
      ReplaceStages(preset, stages);
      assert presetsHolder.Stages() == before.presets[presetId := Overlay(before.presets[presetId], stages)];
      ApplyKeepsInvariant(before, UpdateStages(presetId, stages));
    }

    // A tick of the worker thread.
    method Work(pushes: seq<seq<Command>>, modbusData: Option<Block>)
      requires Valid() && reflowController.fault.None?
      modifies reflowController, reflowController.writes, reflowController.proxy.device,
               reflowController.requestsQueue
      ensures Valid() && presetsHolder.presetsStorage == old(presetsHolder.presetsStorage)
      ensures var d := DrainAt(old(Here()), pushes);
        && Here() == Site(Apply(old(Now()), Tick(d.handled, Polled(modbusData))), old(presetsHolder.Names()), d.left)
        && reflowController.requestsQueue.taken == old(reflowController.requestsQueue.taken) + d.handled
      ensures reflowController.requestsQueue.posted == old(reflowController.requestsQueue.posted) + Flatten(pushes)
    {
      ghost var before, names := Now(), presetsHolder.Names();
      assert before.presets.Keys == presetsHolder.presetsStorage.Keys;
      ghost var handled := reflowController.Runnable(pushes, modbusData);
      assert presetsHolder.Stages() == before.presets && presetsHolder.Names() == names;
    }

    // One request or tick.
    method Happen(h: Happening)
      requires Valid() && reflowController.fault.None?
      modifies reflowController, reflowController.writes, reflowController.proxy.device,
               reflowController.requestsQueue, presetsHolder, presetsHolder.presetsStorage.Values
      ensures Valid() && Here() == Step(old(Here()), h, presetsHolder.hash)
      ensures reflowController.requestsQueue.posted == old(reflowController.requestsQueue.posted) + PostsOf(h)
      ensures reflowController.requestsQueue.taken
           == old(reflowController.requestsQueue.taken) + Handled(EventsOf(old(Here()), h, presetsHolder.hash))
      ensures forall k :: k in old(presetsHolder.presetsStorage) ==>
        k in presetsHolder.presetsStorage && presetsHolder.presetsStorage[k] == old(presetsHolder.presetsStorage)[k]
      ensures forall p :: p in presetsHolder.presetsStorage.Values ==>
        p in old(presetsHolder.presetsStorage).Values || fresh(p)
    {
      StepIs(Here(), h, presetsHolder.hash);
      match h
      case WorkerTick(pushes, modbusData) => Work(pushes, modbusData);
      case CreatePresetRequest(name) => var _ := CreatePreset(name);
      case UpdatePresetRequest(presetId, body) => var _ := UpdatePreset(presetId, body);
      case PushCommandRequest(command) => reflowController.requestsQueue.PushOperation(command);
    }

    // Any history of requests and ticks, until the worker is ended by a fault.
    // Controller, presets and queue end up as the history says, and so do the
    // commands posted and handled; every key keeps its object, with no fewer
    // stages.
    method Serve(history: seq<Happening>)
      requires Valid() && reflowController.fault.None?
      modifies reflowController, reflowController.writes, reflowController.proxy.device,
               reflowController.requestsQueue, presetsHolder, presetsHolder.presetsStorage.Values
      ensures Valid() && Here() == ServeAll(old(Here()), history, presetsHolder.hash)
      ensures reflowController.requestsQueue.posted
           == old(reflowController.requestsQueue.posted) + Posted(old(Here()), history, presetsHolder.hash)
      ensures reflowController.requestsQueue.taken
           == old(reflowController.requestsQueue.taken) + Handled(Events(old(Here()), history, presetsHolder.hash))
      ensures forall k :: k in old(presetsHolder.presetsStorage) ==>
        && k in presetsHolder.presetsStorage
        && presetsHolder.presetsStorage[k] == old(presetsHolder.presetsStorage)[k]
        && |old(presetsHolder.Stages())[k]| <= |presetsHolder.Stages()[k]|
    {
      ghost var start, hash, storage := Here(), presetsHolder.hash, presetsHolder.presetsStorage;
      ghost var taken, handled := reflowController.requestsQueue.taken, [];
      var n := 0;
      assert history[0..] == history;
      while n < |history| && reflowController.fault.None?
        invariant n <= |history| && Valid()
        invariant Serving(start, history, hash, Here(), history[n..], handled)
        invariant reflowController.requestsQueue.taken == taken + handled
        invariant forall k :: k in storage ==>
          k in presetsHolder.presetsStorage && presetsHolder.presetsStorage[k] == storage[k]
        invariant forall p :: p in presetsHolder.presetsStorage.Values ==> p in storage.Values || fresh(p)
      {
        ServingNext(start, history, hash, Here(), history[n..], handled, taken);
        ghost var now := Handled(EventsOf(Here(), history[n], hash));
        Happen(history[n]);
        handled := handled + now;
        n := n + 1;
      }
      ServingEnds(start, history, hash, Here(), history[n..], handled);
      PostedThen(taken, handled, Here().queue, start.queue, Posted(start, history, hash));
      PresetsOnlyGrow(start.world, Events(start, history, hash));
    }
  }

  // A table from power-on, where w is the world then. After any history it is
  // where that history leads. When no run is in progress, the heater register,
  // 0x2013, of the real device is zero unless the last disable lost all four of its
  // attempts; past Init of a run it holds the temperature captured for the active
  // stage, with the same proviso.
  method PowerOnAndServe(hash: Hash, link: Link, history: seq<Happening>) returns (table: Table, ghost w: World)
    ensures table.Valid() && fresh(table) && InitialWorld(w)
    ensures table.reflowController.proxy.device.link == link
    ensures table.Here() == ServeAll(Site(w, map[], []), history, hash)
    ensures table.reflowController.requestsQueue.posted == Posted(Site(w, map[], []), history, hash)
    ensures table.reflowController.requestsQueue.taken == Handled(Events(Site(w, map[], []), history, hash))
    ensures var heater := At(table.reflowController.proxy.device.bank, 0x2013);
      var log := table.reflowController.writes.entries;
      var es := Events(Site(w, map[], []), history, hash);
      && (!table.reflowController.isReflowRunning ==> heater == 0 || LastWriteLost(link, log))
      && (PastInit(table.Now().ctrl) ==> exists k :: HoldsCaptured(w, es, k, link, heater))
  {
    table := new Table(hash, link);
    w := table.Now();
    table.Serve(history);
    ghost var es := Events(Site(w, map[], []), history, hash);
    ServedIsRun(Site(w, map[], []), history, hash);
    IdleMeansHeaterOff(w, es, link);
    if PastInit(table.Now().ctrl) {
      ghost var k := RunningHoldsSetpoint(w, es, link);
    }
  }
}
