// Presets as objects, and the holder that hands them out.
module PresetsHolder {
  import opened Wrappers
  import opened PresetItems

  class Preset {
    var presetName: string
    var presetItems: seq<StageItem>

    constructor (presetName: string)
      ensures this.presetName == presetName && presetItems == []
    {
      this.presetName := presetName;
      presetItems := [];
    }

    method SetName(presetName: string)
      modifies this`presetName
      ensures this.presetName == presetName
    {
      this.presetName := presetName;
    }

    method AddStageItem(stageItem: StageItem)
      modifies this`presetItems
      ensures presetItems == old(presetItems) + [stageItem]
    {
      presetItems := presetItems + [stageItem];
    }

    // An index past the end appends, wherever it points.
    method ReplaceStageItem(stageItemIdx: nat, stageItem: StageItem)
      modifies this`presetItems
      ensures presetItems == ReplaceItem(old(presetItems), stageItemIdx, stageItem)
      ensures stageItemIdx >= |old(presetItems)| ==> presetItems == old(presetItems) + [stageItem]
      ensures stageItemIdx < |old(presetItems)| ==>
        && |presetItems| == |old(presetItems)| && presetItems[stageItemIdx] == stageItem
        && forall k :: 0 <= k < |presetItems| && k != stageItemIdx ==> presetItems[k] == old(presetItems)[k]
    {
      var hasToPush := if |presetItems| == 0 then true else stageItemIdx > |presetItems| - 1;
      if hasToPush {
        presetItems := presetItems + [stageItem];
      } else {
        presetItems := presetItems[stageItemIdx := stageItem];
      }
    }

    function NumStages(): nat
      reads this
    {
      |presetItems|
    }

    // None stands for the exception `at` throws.
    function GetStageItem(stageItemIdx: nat): Option<StageItem>
      reads this
    {
      if stageItemIdx < |presetItems| then Some(presetItems[stageItemIdx]) else None
    }
  }

  class PresetsHolder {
    const hash: string -> nat
    var presetsStorage: map<nat, Preset>

    // No object is held under two keys, so a key names its object.
    ghost predicate Valid()
      reads this
    {
      forall a, b :: a in presetsStorage && b in presetsStorage && presetsStorage[a] == presetsStorage[b] ==> a == b
    }

    ghost function Stages(): map<nat, seq<StageItem>>
      reads this, presetsStorage.Values
    {
      map k | k in presetsStorage :: presetsStorage[k].presetItems
    }

    ghost function Names(): map<nat, string>
      reads this, presetsStorage.Values
    {
      map k | k in presetsStorage :: presetsStorage[k].presetName
    }

    constructor (hash: string -> nat)
      ensures this.hash == hash && presetsStorage == map[] && Valid()
    {
      this.hash := hash;
      presetsStorage := map[];
    }

    // A name whose hash is taken is rejected, whoever holds it; otherwise a new,
    // empty preset is held under the hash and every other key keeps its object.
    method AddNewPreset(presetName: string) returns (id: Option<nat>)
      requires Valid()
      modifies this
      ensures Valid()
      ensures hash(presetName) in old(presetsStorage) ==>
                id.None? && presetsStorage == old(presetsStorage)
      ensures hash(presetName) !in old(presetsStorage) ==>
                && id == Some(hash(presetName)) && id.value in presetsStorage
                && fresh(presetsStorage[id.value])
                && presetsStorage[id.value].presetName == presetName
                && presetsStorage[id.value].presetItems == []
                && presetsStorage == old(presetsStorage)[id.value := presetsStorage[id.value]]
                && |presetsStorage| == |old(presetsStorage)| + 1
      ensures Stages() == if id.Some? then old(Stages())[id.value := []] else old(Stages())
      ensures Names() == if id.Some? then old(Names())[id.value := presetName] else old(Names())
    {
      var presetHash := hash(presetName);
      if presetHash in presetsStorage {
        return None;
      }
      var preset := new Preset(presetName);
      presetsStorage := presetsStorage[presetHash := preset];
      return Some(presetHash);
    }

    // None stands for the exception thrown for an unknown id.
    method GetPresetById(presetId: nat) returns (preset: Option<Preset>)
      ensures preset == if presetId in presetsStorage then Some(presetsStorage[presetId]) else None
    {
      if presetId in presetsStorage {
        return Some(presetsStorage[presetId]);
      }
      return None;
    }
  }
}
