// The stages of a preset, as values.
module PresetItems {
  import opened MachineWords

  // `duration` is in seconds.
  datatype StageItem = StageItem(temperature: UInt32, duration: int)

  // One replaceStageItem call: past the end it appends, wherever the index points.
  function ReplaceItem(items: seq<StageItem>, i: nat, item: StageItem): seq<StageItem> {
    if i < |items| then items[i := item] else items + [item]
  }

  // What a stages request is meant to do: the new stages, then whatever the
  // preset already had beyond them.
  function Overlay(items: seq<StageItem>, stages: seq<StageItem>): seq<StageItem> {
    if |stages| <= |items| then stages + items[|stages|..] else stages
  }
}
