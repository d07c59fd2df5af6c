// The commands HTTP threads post to the controller.
module Commands {
  import opened MachineWords

  // `k` is the register word its floating-point value is cast to.
  datatype Command =
    | StartReflow
    | StopReflow
    | SelectPreset(presetId: nat)
    | SetRegulatorParams(k: Word, hysteresis: UInt32)
}
