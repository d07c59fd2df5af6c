// What a history of requests and worker ticks amounts to, on values: the events
// of a run, and what becomes of every command posted.
module TableRuns {
  import opened Wrappers
  import opened Commands
  import opened PresetItems
  import opened StageRequests
  import opened HeaterRegister
  import opened ReflowSpec
  import opened ReflowInvariants
  import opened QueueDrain

  datatype Happening =
    | WorkerTick(pushes: seq<seq<Command>>, modbusData: Option<Block>)
    | CreatePresetRequest(name: string)
    | UpdatePresetRequest(presetId: nat, body: Json)
    | PushCommandRequest(command: Command)

  // std::hash on preset names
  type Hash = string -> nat

  // Everything a request or a tick can see or change but the device.
  datatype Site = Site(world: World, names: map<nat, string>, queue: seq<Command>)

  function DrainAt(site: Site, pushes: seq<seq<Command>>): Drained {
    DrainQueue(site.world.ctrl, site.queue, pushes, site.world.presets.Keys)
  }

  function EventsOf(site: Site, h: Happening, hash: Hash): seq<Event> {
    match h
    case WorkerTick(pushes, modbusData) => [Tick(DrainAt(site, pushes).handled, Polled(modbusData))]
    case CreatePresetRequest(name) => [AddPreset(hash(name))]
    case UpdatePresetRequest(presetId, body) =>
      var request := RequestOf(body);
      if request.NewStages? then [UpdateStages(presetId, request.stages)] else []
    case PushCommandRequest(_) => []
  }

  function QueueAfter(site: Site, h: Happening): seq<Command> {
    match h
    case WorkerTick(pushes, _) => DrainAt(site, pushes).left
    case PushCommandRequest(command) => site.queue + [command]
    case _ => site.queue
  }

  function NamesAfter(site: Site, h: Happening, hash: Hash): map<nat, string> {
    match h
    case CreatePresetRequest(name) =>
      if hash(name) in site.names then site.names else site.names[hash(name) := name]
    case UpdatePresetRequest(presetId, body) =>
      var request := RequestOf(body);
      if presetId in site.names && request.Rename? then site.names[presetId := request.name] else site.names
    case _ => site.names
  }

  function PostsOf(h: Happening): seq<Command> {
    match h
    case WorkerTick(pushes, _) => Flatten(pushes)
    case PushCommandRequest(command) => [command]
    case _ => []
  }

  function Step(site: Site, h: Happening, hash: Hash): Site {
    Site(Run(site.world, EventsOf(site, h, hash)), NamesAfter(site, h, hash), QueueAfter(site, h))
  }

  // A history, served until the worker is ended by a fault.
  function ServeAll(site: Site, history: seq<Happening>, hash: Hash): Site
    decreases |history|
  {
    if history == [] || site.world.ctrl.fault.Some? then site
    else ServeAll(Step(site, history[0], hash), history[1..], hash)
  }

  function Events(site: Site, history: seq<Happening>, hash: Hash): seq<Event>
    decreases |history|
  {
    if history == [] || site.world.ctrl.fault.Some? then []
    else EventsOf(site, history[0], hash) + Events(Step(site, history[0], hash), history[1..], hash)
  }

  function Posted(site: Site, history: seq<Happening>, hash: Hash): seq<Command>
    decreases |history|
  {
    if history == [] || site.world.ctrl.fault.Some? then []
    else PostsOf(history[0]) + Posted(Step(site, history[0], hash), history[1..], hash)
  }

  // ----- What one request or tick does -----

  lemma RunOne(w: World, e: Event)
    ensures Run(w, [e]) == Apply(w, e)
  {
  }

  // A create request adds an empty preset under the name's hash, unless the hash
  // is taken, and touches nothing else.
  lemma StepCreates(site: Site, name: string, hash: Hash)
    requires site.world.ctrl.fault.None? && site.names.Keys == site.world.presets.Keys
    ensures var next, id := Step(site, CreatePresetRequest(name), hash), hash(name);
      && next.world.ctrl == site.world.ctrl && next.queue == site.queue
      && next.world.presets.Keys == next.names.Keys == site.names.Keys + {id}
      && (id !in site.names ==> next.world.presets[id] == [] && next.names[id] == name)
      && forall k :: k in site.names ==>
           next.world.presets[k] == site.world.presets[k] && next.names[k] == site.names[k]
  {
    RunOne(site.world, AddPreset(hash(name)));
  }

  // A list of stages laid over another: position by position the new stage, or
  // beyond the new ones the old.
  ghost predicate LaidOver(was: seq<StageItem>, stages: seq<StageItem>, now: seq<StageItem>) {
    && |now| == (if |stages| < |was| then |was| else |stages|)
    && forall k :: 0 <= k < |now| ==> now[k] == (if k < |stages| then stages[k] else was[k])
  }

  // An update of a known preset does what its body means, to that preset alone;
  // an update of an unknown one does nothing.
  lemma StepUpdates(site: Site, presetId: nat, body: Json, request: Request, hash: Hash)
    requires site.world.ctrl.fault.None? && site.names.Keys == site.world.presets.Keys
    requires Means(body, request)
    ensures var next := Step(site, UpdatePresetRequest(presetId, body), hash);
      && next.world.ctrl == site.world.ctrl && next.queue == site.queue
      && next.world.presets.Keys == next.names.Keys == site.names.Keys
      && (forall k :: k in site.names && k != presetId ==>
            next.world.presets[k] == site.world.presets[k] && next.names[k] == site.names[k])
      && (presetId in site.names ==>
            && next.names[presetId] == (if request.Rename? then request.name else site.names[presetId])
            && if request.NewStages?
               then LaidOver(site.world.presets[presetId], request.stages, next.world.presets[presetId])
               else next.world.presets[presetId] == site.world.presets[presetId])
  {
    RequestExactly(body, request);
    if request.NewStages? {
      RunOne(site.world, UpdateStages(presetId, request.stages));
    }
  }

  // A command request puts its command at the back of the queue.
  lemma StepPosts(site: Site, command: Command, hash: Hash)
    ensures Step(site, PushCommandRequest(command), hash) == site.(queue := site.queue + [command])
  {
  }

  // A tick changes no preset. Without a fault it has handled everything that was
  // queued and then everything that arrived before some moment of the tick, the
  // rest is queued, and the words of its block read are the reading.
  lemma StepTicks(site: Site, pushes: seq<seq<Command>>, modbusData: Option<Block>, hash: Hash) returns (n: nat)
    requires site.world.ctrl.fault.None?
    ensures n <= |pushes|
    ensures var next := Step(site, WorkerTick(pushes, modbusData), hash);
      && next.world.presets == site.world.presets && next.names == site.names
      && (next.world.ctrl.fault.None? ==>
            && Stored(site.world.ctrl.reading, modbusData, next.world.ctrl.reading)
            && next.queue == Flatten(pushes[n..])
            && var handled := site.queue + Flatten(pushes[..n]);
               next.world.ctrl == TickState(site.world.ctrl, site.world.presets, handled, Polled(modbusData)))
  {
    var s, presets := site.world.ctrl, site.world.presets;
    n := DrainTakesAll(s, site.queue, pushes, presets.Keys);
    var handled := DrainAt(site, pushes).handled;
    RunOne(site.world, Tick(handled, Polled(modbusData)));
    TickStores(s, presets, handled, modbusData);
  }

  // At most one event.
  lemma StepIs(site: Site, h: Happening, hash: Hash)
    ensures var es := EventsOf(site, h, hash);
      && Step(site, h, hash)
         == Site(if es == [] then site.world else Apply(site.world, es[0]), NamesAfter(site, h, hash), QueueAfter(site, h))
      && Handled(es) == (if h.WorkerTick? then DrainAt(site, h.pushes).handled else [])
  {
    var es := EventsOf(site, h, hash);
    if es != [] {
      RunOne(site.world, es[0]);
      assert Handled(es[1..]) == [];
    }
  }

  // ----- What becomes of the commands -----

  // The commands a run handled, in order.
  function Handled(es: seq<Event>): seq<Command> {
    if es == [] then [] else (if es[0].Tick? then es[0].batch else []) + Handled(es[1..])
  }

  lemma {:induction false} HandledConcat(a: seq<Event>, b: seq<Event>)
    ensures Handled(a + b) == Handled(a) + Handled(b)
    decreases |a|
  {
    if a == [] {
      assert a + b == b;
    } else {
      assert (a + b)[1..] == a[1..] + b;
      HandledConcat(a[1..], b);
      var first := if a[0].Tick? then a[0].batch else [];
      assert first + (Handled(a[1..]) + Handled(b)) == first + Handled(a[1..]) + Handled(b);
    }
  }

  // Serving a history is a run of its events.
  lemma {:induction false} ServedIsRun(site: Site, history: seq<Happening>, hash: Hash)
    ensures ServeAll(site, history, hash).world == Run(site.world, Events(site, history, hash))
    decreases |history|
  {
    if history != [] && site.world.ctrl.fault.None? {
      var next := Step(site, history[0], hash);
      ServedIsRun(next, history[1..], hash);
      RunConcat(site.world, EventsOf(site, history[0], hash), Events(next, history[1..], hash));
    }
  }

  lemma StepLosesNothing(site: Site, h: Happening, hash: Hash)
    ensures Handled(EventsOf(site, h, hash)) + QueueAfter(site, h) == site.queue + PostsOf(h)
  {
    if h.WorkerTick? {
      DrainLosesNothing(site.world.ctrl, site.queue, h.pushes, site.world.presets.Keys);
      assert Handled(EventsOf(site, h, hash)) == DrainAt(site, h.pushes).handled;
    }
  }

  // A history leads, step by step, to where its happenings do; once a fault has
  // ended the worker nothing more is served.
  lemma {:induction false} ServeSnoc(site: Site, history: seq<Happening>, h: Happening, hash: Hash)
    ensures ServeAll(site, [], hash) == site
    ensures var last := ServeAll(site, history, hash);
      ServeAll(site, history + [h], hash) == if last.world.ctrl.fault.Some? then last else Step(last, h, hash)
    decreases |history|
  {
    if history == [] {
      assert history + [h] == [h] && [h][1..] == [];
    } else {
      assert (history + [h])[1..] == history[1..] + [h];
      if site.world.ctrl.fault.None? {
        ServeSnoc(Step(site, history[0], hash), history[1..], h, hash);
      }
    }
  }

  lemma Joined(a: seq<Command>, b: seq<Command>, q: seq<Command>, q': seq<Command>, q'': seq<Command>,
               p: seq<Command>, r: seq<Command>)
    requires a + q' == q + p && b + q'' == q' + r
    ensures a + b + q'' == q + (p + r)
  {
    assert a + b + q'' == a + (b + q'') == a + q' + r;
    assert q + p + r == q + (p + r);
  }

  // Whatever is served, the commands its ticks handled followed by those still
  // queued are the commands that were queued followed by those posted.
  lemma {:induction false} ServedLosesNothing(site: Site, history: seq<Happening>, hash: Hash)
    ensures Handled(Events(site, history, hash)) + ServeAll(site, history, hash).queue
         == site.queue + Posted(site, history, hash)
    decreases |history|
  {
    if history != [] && site.world.ctrl.fault.None? {
      var next := Step(site, history[0], hash);
      var a, b := EventsOf(site, history[0], hash), Events(next, history[1..], hash);
      StepLosesNothing(site, history[0], hash);
      ServedLosesNothing(next, history[1..], hash);
      HandledConcat(a, b);
      Joined(Handled(a), Handled(b), site.queue, next.queue, ServeAll(site, history, hash).queue,
             PostsOf(history[0]), Posted(next, history[1..], hash));
    }
  }

  // ----- Part of the way through -----

  // Having handled `handled`, a table at `site` with `rest` still to serve is on
  // its way to where the history leads.
  ghost predicate Serving(start: Site, history: seq<Happening>, hash: Hash,
                          site: Site, rest: seq<Happening>, handled: seq<Command>)
  {
    && ServeAll(start, history, hash) == ServeAll(site, rest, hash)
    && Handled(Events(start, history, hash)) == handled + Handled(Events(site, rest, hash))
  }

  lemma ServingNext(start: Site, history: seq<Happening>, hash: Hash,
                    site: Site, rest: seq<Happening>, handled: seq<Command>, taken: seq<Command>)
    requires Serving(start, history, hash, site, rest, handled)
    requires rest != [] && site.world.ctrl.fault.None?
    ensures var now := Handled(EventsOf(site, rest[0], hash));
      && Serving(start, history, hash, Step(site, rest[0], hash), rest[1..], handled + now)
      && taken + handled + now == taken + (handled + now)
  {
    var now, later := EventsOf(site, rest[0], hash), Events(Step(site, rest[0], hash), rest[1..], hash);
    HandledConcat(now, later);
    assert handled + (Handled(now) + Handled(later)) == handled + Handled(now) + Handled(later);
  }

  lemma ServingEnds(start: Site, history: seq<Happening>, hash: Hash,
                    site: Site, rest: seq<Happening>, handled: seq<Command>)
    requires Serving(start, history, hash, site, rest, handled)
    requires rest == [] || site.world.ctrl.fault.Some?
    ensures site == ServeAll(start, history, hash) && handled == Handled(Events(start, history, hash))
    ensures handled + site.queue == start.queue + Posted(start, history, hash)
    ensures site.world == Run(start.world, Events(start, history, hash))
  {
    ServedIsRun(start, history, hash);
    ServedLosesNothing(start, history, hash);
  }
}
