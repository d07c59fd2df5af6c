// Updating a preset over HTTP: from a JSON request to the preset's stages.
module StageRequests {
  import opened Wrappers
  import opened MachineWords
  import opened PresetItems
  import opened PresetsHolder

  // A parsed JSON value. An integer is held as the signed or unsigned 64-bit
  // value it parsed to; a floating-point number as its conversion to 32 bits.
  datatype Json =
    | JNull
    | JBool(b: bool)
    | JInteger(i: int)
    | JFloat(asUInt32: UInt32)
    | JString(s: string)
    | JArray(items: seq<Json>)
    | JObject(fields: map<string, Json>)
  {
    predicate IsNumber() {
      JInteger? || JFloat?
    }

    // get<std::uint32_t>()
    function ToUInt32(): UInt32
      requires IsNumber()
    {
      match this
      case JInteger(i) => Wrap32(i)
      case JFloat(x) => x
    }
  }

  // ----- What a stages array means -----

  predicate FieldOk(fields: map<string, Json>, name: string) {
    name in fields ==> fields[name].JInteger? || fields[name].JFloat?
  }

  function FieldValue(fields: map<string, Json>, name: string): UInt32
    requires FieldOk(fields, name)
  {
    if name in fields then fields[name].ToUInt32() else 0
  }

  predicate StageOk(item: Json) {
    item.JObject? && FieldOk(item.fields, "temperature") && FieldOk(item.fields, "duration")
  }

  function StageOf(item: Json): StageItem
    requires StageOk(item)
  {
    StageItem(FieldValue(item.fields, "temperature"), FieldValue(item.fields, "duration"))
  }

  predicate StagesOk(items: seq<Json>) {
    items != [] && forall k :: 0 <= k < |items| ==> StageOk(items[k])
  }

  function ParsedStages(items: seq<Json>): seq<StageItem>
    requires StagesOk(items)
  {
    seq(|items|, k requires 0 <= k < |items| => StageOf(items[k]))
  }

  // x is what a field of an object stands for: 0 if it is absent, an integer modulo
  // 2^32, a floating-point number as converted.
  predicate FieldIs(fields: map<string, Json>, name: string, x: int) {
    && (name !in fields ==> x == 0)
    && (name in fields && fields[name].JInteger? ==>
          && x == fields[name].i % 0x1_0000_0000
          && (0 <= fields[name].i < 0x1_0000_0000 ==> x == fields[name].i))
    && (name in fields && fields[name].JFloat? ==> x == fields[name].asUInt32)
  }

  // The stages of an array, item by item.
  predicate StagesAre(items: seq<Json>, stages: seq<StageItem>) {
    |stages| == |items| && forall k :: 0 <= k < |items| ==>
      && StageOk(items[k])
      && FieldIs(items[k].fields, "temperature", stages[k].temperature)
      && FieldIs(items[k].fields, "duration", stages[k].duration)
  }

  // An array means some stages exactly when every item does, and then no others.
  lemma ParsedStagesExactly(items: seq<Json>, stages: seq<StageItem>)
    requires items != []
    ensures StagesOk(items) && stages == ParsedStages(items) <==> StagesAre(items, stages)
  {
    if StagesAre(items, stages) {
      forall k | 0 <= k < |items|
        ensures StageOk(items[k]) && stages[k] == StageOf(items[k])
      {
      }
      assert StagesOk(items);
      assert stages == ParsedStages(items);
    }
  }

  // An array parses exactly when it is not empty and every item is an object
  // whose two fields, where present, are numbers. Items keep their positions;
  // absent fields are 0 and other fields are ignored.
  method ParseStagesArray(stagesArray: seq<Json>) returns (stages: Option<seq<StageItem>>)
    ensures stages == if StagesOk(stagesArray) then Some(ParsedStages(stagesArray)) else None
    ensures stages.Some? <==> stagesArray != [] && forall k :: 0 <= k < |stagesArray| ==> StageOk(stagesArray[k])
    ensures stages.Some? ==> StagesAre(stagesArray, stages.value)
  {
    var stagesContainer: seq<StageItem> := [];
    for n := 0 to |stagesArray|
      invariant |stagesContainer| == n
      invariant forall k :: 0 <= k < n ==> StageOk(stagesArray[k]) && stagesContainer[k] == StageOf(stagesArray[k])
    {
      var item := stagesArray[n];
      if !item.JObject? {
        return None;
      }
      var stageItem := StageItem(0, 0);
      if "temperature" in item.fields {
        if !item.fields["temperature"].IsNumber() {
          return None;
        }
        stageItem := stageItem.(temperature := item.fields["temperature"].ToUInt32());
      }
      if "duration" in item.fields {
        if !item.fields["duration"].IsNumber() {
          return None;
        }
        stageItem := stageItem.(duration := item.fields["duration"].ToUInt32());
      }
      stagesContainer := stagesContainer + [stageItem];
    }
    if |stagesContainer| == 0 {
      return None;
    }
    assert stagesContainer == ParsedStages(stagesArray);
    ParsedStagesExactly(stagesArray, stagesContainer);
    return Some(stagesContainer);
  }

  // ----- What an update request means -----

  datatype Request = Rename(name: string) | NewStages(stages: seq<StageItem>) | Nothing | Throws

  // A name, even next to stages, makes the request a rename.
  function RequestOf(body: Json): Request {
    if !body.JObject? then Nothing
    else if "name" in body.fields then
      if body.fields["name"].JString? then Rename(body.fields["name"].s) else Throws
    else if "stages" in body.fields && body.fields["stages"].JArray? && StagesOk(body.fields["stages"].items) then
      NewStages(ParsedStages(body.fields["stages"].items))
    else Nothing
  }

  // What a request says about the body it came from.
  predicate Means(body: Json, request: Request) {
    var named := body.JObject? && "name" in body.fields;
    var staged := body.JObject? && "stages" in body.fields && body.fields["stages"].JArray?;
    match request
    case Rename(name) => named && body.fields["name"] == JString(name)
    case Throws => named && !body.fields["name"].JString?
    case NewStages(stages) =>
      !named && staged && stages != [] && StagesAre(body.fields["stages"].items, stages)
    case Nothing =>
      !named && (staged ==>
        var items := body.fields["stages"].items;
        items == [] || exists k :: 0 <= k < |items| && !StageOk(items[k]))
  }

  // Every body means exactly one request.
  lemma RequestExactly(body: Json, request: Request)
    ensures request == RequestOf(body) <==> Means(body, request)
  {
    if body.JObject? && "name" !in body.fields && "stages" in body.fields && body.fields["stages"].JArray? {
      var items := body.fields["stages"].items;
      if items != [] && request.NewStages? {
        ParsedStagesExactly(items, request.stages);
      }
    }
  }

  method ParsePresetUpdateRequest(body: Json) returns (request: Request)
    ensures request == RequestOf(body) && Means(body, request)
  {
    if !body.JObject? {
      return Nothing;
    }
    if "name" in body.fields {
      if body.fields["name"].JString? {
        return Rename(body.fields["name"].s);
      }
      return Throws;
    } else if "stages" in body.fields {
      if !body.fields["stages"].JArray? {
        return Nothing;
      }
      var parseResult := ParseStagesArray(body.fields["stages"].items);
      if parseResult.Some? {
        return NewStages(parseResult.value);
      }
    }
    return Nothing;
  }

  // A push lands at its own index because everything before it is there already.
  lemma OverlayStep(items: seq<StageItem>, stages: seq<StageItem>, n: nat)
    requires n < |stages|
    ensures ReplaceItem(Overlay(items, stages[..n]), n, stages[n]) == Overlay(items, stages[..n + 1])
  {
  }

  // One replacement per index overlays the stages.
  method ReplaceStages(preset: Preset, stages: seq<StageItem>)
    modifies preset`presetItems
    ensures preset.presetItems == Overlay(old(preset.presetItems), stages)
  {
    for n := 0 to |stages|
      invariant preset.presetItems == Overlay(old(preset.presetItems), stages[..n])
    {
      OverlayStep(old(preset.presetItems), stages, n);
      preset.ReplaceStageItem(n, stages[n]);
    }
    assert stages[..|stages|] == stages;
  }

  // Overlays compose: a second request only hides the part of the first it covers.
  lemma OverlayTwice(items: seq<StageItem>, a: seq<StageItem>, b: seq<StageItem>)
    ensures Overlay(Overlay(items, a), b) == Overlay(items, Overlay(a, b))
  {
  }
}
