# Reflow table server: verification model

A Dafny 4.11 model of the reflow soldering table server, with proofs about its
process controller and what it relies on, and about its IIO sensor-format parser.
`dafny verify dfyconfig.toml` checks the project.

## What is modelled

- **The controller** (`ReflowSpec`, `ReflowController`). A worker tick drains the
  command queue, polls the registers, steps the Init / Preheat / InProgress /
  StageCompleted machine and advances the clock. `ReflowSpec` is the step function
  on values; `ReflowController` is the class with the program's fields and one
  method per function of the program, each tied to the step function. An exception
  that leaves the worker (unknown preset id, empty preset), or the use of a dangling
  stage pointer, is a `fault` after which nothing changes, so the invariants over
  runs need neither known ids nor non-empty presets. `QueueDrain` says which
  commands a tick handles while other threads keep pushing.
- **Whole runs.** `Run` folds ticks (with any batch of commands and any successful
  or failed poll), preset creations and stage updates. The theorems in
  `ReflowInvariants`, `TickFaults`, `ModeRefinement`, `SetpointTrace`, `HeaterRegister`,
  `RunClock`, `PreheatDecision`, `RunLength` and `ProgressMeasure` are about every
  such run.
- **Objects shared with HTTP** (`RequestsQueue`, `PresetsHolder`, `StageRequests`,
  `TableRuns`, `SolderingTable`). `TableRuns` says what a history of requests and
  ticks amounts to: the events of a run, and what becomes of every posted command.
  `SolderingTable.Table.Serve` serves the history on the real objects with exactly
  that effect, so the run theorems hold of the objects, down to the device register
  (`PowerOnAndServe`).
- **The Modbus link** (`Modbus`). Each attempt may be acknowledged, carried out with
  the reply lost, or dropped; the outcomes are an arbitrary function of the attempt
  number, over which every theorem quantifies.
- **The IIO format parser** (`IioFormat`, `IioValue`, `BitArithmetic`). The cursor
  parser, the accepted language, and the mask-and-shift arithmetic over integers
  stored as bytes in either order.

## What the code does that one might not expect

- Regulator parameters read back swapped: the writer puts k at 0x2011 and the
  hysteresis at 0x2012, the reader takes them the other way round. The REST test
  that sets hysteresis 3 and k 1 expects them back unchanged
  (`HeaterRegister.RegulatorReadsBackExactly`, `RegulatorReadsBackSwapped`).
- The retry loop reports an error after a first attempt that succeeded
  (`Modbus.ModbusRequestsProxy.ScheduleRegistersWrite`).
- The value extraction masks before it shifts and drops the sign of any value
  narrower than its storage. The `_type` rule of the kernel's sysfs-bus-iio ABI
  shifts first and then keeps and sign-extends the value bits. The model follows the
  code; `IioValue.AgreesWithAbiExactly` gives the exact condition for agreement.
- Only the last digit of a shift is read, so `>>10` means no shift
  (`IioFormat.ParseInvertsPrint`).
- Updating the running preset is allowed at any time. One that appends a stage may
  move the stages in memory while the controller still holds a pointer to the one
  it preheats, and the next tick that does not stop or restart the run reads through
  it. The model ends the worker there;
  `TickFaults.BadPointerExactly` says which runs do this and
  `TickFaults.AppendWhilePreheating` is one.
- Selecting an unknown id stores the id before the exception
  (`ReflowSpec.HandleSelect`).

## Model

| member | source | states |
|---|---|---|
| `ReflowController.ReflowProcessController.Runnable` | reflow_controller/reflow_controller.cpp:79-87 | A tick on the objects is the Tick of the step function on the batch the drain takes, determined by the queue and by what is pushed when; without a fault the words of the block read are the reading, or the old reading stays if the read failed; it keeps the invariant, the pointers and the register contents |
| `ReflowController.ReflowProcessController.DispatchCommandsQueue` | reflow_controller/reflow_controller.cpp:118-135 | With other threads pushing before any pop, the commands handled, their order and those left over are the ones QueueDrain determines from the state, the queue and the pushes; taken and posted are accounted for, and the loop terminates |
| `QueueDrain.DrainTakesAll` | reflow_controller/reflow_controller.cpp:118-135 | Unless a command ends the worker, a drain handles all that was queued and then all that arrived before one of its pops, and leaves the rest |
| `QueueDrain.DrainLosesNothing` | reflow_controller/reflow_controller.cpp:118-135 | In every drain, faulted or not, what is handled followed by what is left is what was queued followed by what was pushed |
| `QueueDrain.FlattenConcat` | reflow_controller/inc/reflow_controller/requests_queue.hpp:27-31 | What several bursts of pushes amount to is their concatenation |
| `ReflowController.ReflowProcessController.DispatchCommand` | reflow_controller/reflow_controller.cpp:120-129 | Each command reaches its handler |
| `ModeRefinement.CommandEffects` | reflow_controller/reflow_controller.cpp:137-173 | In the controller's own fields: Start runs a held preset from Init, Stop ends a run with one zero and no preset, Select matters only while idle and faults exactly on an unknown id, and regulator parameters are only logged |
| `ReflowController.ReflowProcessController.HandleReflowStart` | reflow_controller/reflow_controller.cpp:137-149 | Start without a preset changes nothing; otherwise the current stage starts over from Init |
| `ReflowController.ReflowProcessController.HandleReflowEnd` | reflow_controller/reflow_controller.cpp:151-165 | Only a running controller is ended: one zero setpoint, stage 0, no preset, clock 1 |
| `ReflowController.ReflowProcessController.HandlePresetSelection` | reflow_controller/reflow_controller.cpp:167-173 | Ignored while running; an unknown id stores the id and faults; a known one is armed and the pointer denotes its object |
| `ReflowController.ReflowProcessController.SetRegulatorParams` | reflow_controller/reflow_controller.cpp:314-325 | Schedules k and hysteresis at 0x2011 and 0x2012 and touches nothing else |
| `ReflowController.ReflowProcessController.ProcessReflowStep` | reflow_controller/reflow_controller.cpp:175-196 | One step of the stage machine, from any state a drain can leave |
| `ReflowController.ReflowProcessController.HandleInitStep` | reflow_controller/reflow_controller.cpp:204-215 | Points at the active stage and writes its temperature modulo 2^16, or faults past the end |
| `ReflowController.ReflowProcessController.HandlePreheatState` | reflow_controller/reflow_controller.cpp:216-255 | Skips, enters the soak with its deadline, or waits, by the wrapped 32-bit test; a stage pointer left dangling by an append is a fault |
| `ReflowController.ReflowProcessController.HandleInProgressState` | reflow_controller/reflow_controller.cpp:257-270 | Leaves the soak once the clock has reached the deadline |
| `ReflowController.ReflowProcessController.MoveToNextStage` | reflow_controller/reflow_controller.cpp:297-311 | The next stage's Init, or the end of the run after the last |
| `ReflowController.ReflowProcessController.RequestModbusData` | reflow_controller/reflow_controller.cpp:272-295 | Words 0, 1, 2 and 3 of a successful read become the surrounding temperature, the table temperature, the hysteresis and k; a failed read changes nothing |
| `ReflowController.ReflowProcessController.GetActiveReflowPresetId` | reflow_controller/reflow_controller.cpp:73-76 | The reported id is present exactly when a preset is held, and maps to that object |
| `ReflowInvariants.ReachableIsSafe` | reflow_controller/reflow_controller.cpp:137-216 | In every reachable state running means a held preset and an index inside it, idle means index 0, past Init the stage pointer was taken to the active stage, and a worker that ended did so on an unknown id while idle, on an empty preset, or in Preheat on a dangling stage pointer |
| `ReflowInvariants.DrainKeepsStartable` | reflow_controller/reflow_controller.cpp:118-173 | Any batch keeps the state coherent, and only an unknown id while idle can fault it |
| `TickFaults.TickFaultsExactly` | reflow_controller/reflow_controller.cpp:118-255 | A tick ends the worker on an unknown id if and only if its batch halts the mode machine, on a missing stage if and only if it leaves that machine running an empty preset, on a bad pointer if and only if the pointer dangles and the batch has no Start or Stop |
| `TickFaults.DanglingExactly` | reflow_controller/reflow_controller.cpp:204-228 | In every run the stage pointer dangles if and only if an update appended to the running preset while it preheated and no tick came since |
| `TickFaults.BadPointerExactly` | reflow_controller/reflow_controller.cpp:204-228 | From power-on a run ends on a bad stage pointer if and only if an update appended to the running preset while it preheated and the next tick had no Start or Stop in its batch |
| `TickFaults.AppendWhilePreheating` | presets/presets_holder.cpp:24-35 | A concrete run of this kind: a stage is appended while the first one waits for data |
| `ReflowInvariants.PresetsOnlyGrow` | presets/presets_holder.cpp:19-35 | Over any run no key is lost and no preset loses a stage |
| `ReflowInvariants.PresetsAreAdds` | presets/presets_holder.cpp:46-55 | Over any run the number of presets grows by the number of successful adds |
| `ModeRefinement.DrainRefines` | reflow_controller/reflow_controller.cpp:118-173 | Draining a batch is a left fold of the machine NoPreset / Armed / Running over it, in state and in writes |
| `ModeRefinement.RunRefines` | reflow_controller/reflow_controller.cpp:118-173 | Over a whole run the controller simulates that machine; apart from setpoints it writes exactly one zero per end of a run and the regulator commands |
| `ModeRefinement.ArmedExactly` | reflow_controller/reflow_controller.cpp:167-173 | A history leaves id armed if and only if it is the last selection made while idle, with no start since |
| `ModeRefinement.RunningExactly` | reflow_controller/reflow_controller.cpp:137-173 | A history leaves id running if and only if it was the last selection before the first start, and nothing ended the run since |
| `ModeRefinement.ControllerRunsExactly` | reflow_controller/reflow_controller.cpp:118-173 | The same, from power-on, of the controller's running flag and reported id |
| `SetpointTrace.ReachableIsTraced` | reflow_controller/reflow_controller.cpp:151-165 | In every run setpoints start at stage 0 after a zero, repeat the stage or move on by one, and idle means the last target write was a zero |
| `SetpointTrace.InitWritesStage` | reflow_controller/reflow_controller.cpp:204-215 | The setpoint written is the temperature the active stage has at that tick |
| `SetpointTrace.SetpointsAreStages` | reflow_controller/reflow_controller.cpp:204-215 | In every run from power-on each setpoint of the log was written by a tick that left the controller running that stage, and is the temperature the stage of the active preset had at that tick |
| `SetpointTrace.SetpointInForce` | reflow_controller/reflow_controller.cpp:204-215 | Past Init the last target write is the setpoint that a tick of this run captured for the stage and preset now active |
| `HeaterRegister.HeaterHolds` | modbus_proxy/modbus_proxy.cpp:117-133 | The heater register holds the last target write that got through, whatever regulator writes came in between |
| `HeaterRegister.HeaterNeverSet` | modbus_proxy/modbus_proxy.cpp:117-133 | With every target write lost it keeps its initial zero |
| `HeaterRegister.IdleMeansHeaterOff` | reflow_controller/reflow_controller.cpp:151-165 | In every reachable idle state register 0x2013 is 0 unless all four attempts of the last disable were dropped |
| `HeaterRegister.RunningHoldsSetpoint` | reflow_controller/reflow_controller.cpp:204-215 | Past Init register 0x2013 holds, modulo 2^16, the temperature that the active stage of the active preset had when a tick of the run captured it, with the same proviso |
| `HeaterRegister.RegulatorReadsBackExactly` | reflow_controller/reflow_controller.cpp:272-325 | Parameters set and then polled on a faithful device come back swapped, so unchanged if and only if hysteresis and k are the same number; the temperatures and register 0x2013 are untouched by the write |
| `HeaterRegister.RegulatorCommandReaches` | reflow_controller/reflow_controller.cpp:314-325 | From command to registers: k at 0x2011, the hysteresis modulo 2^16 at 0x2012 and nothing else, unless all four attempts were dropped, and then nothing |
| `HeaterRegister.BlockIsConsecutive` | modbus_proxy/inc/modbus_proxy/modbus_address_constants.hpp:6-13 | Word i of the block read is register 0x200F + i, for the five registers up to 0x2013 |
| `HeaterRegister.TickStores` | reflow_controller/reflow_controller.cpp:79-87 | Whatever a tick handles, if it does not end the worker its poll is stored word by word, or the old reading kept after a failed one |
| `HeaterRegister.RegulatorReadsBackSwapped` | testing_rest_client/tests/rest_api_test.py:57-63 | Hysteresis 3 and k 1 come back as 1 and 3 |
| `Modbus.Device.WriteRegisters` | modbus_proxy/modbus_proxy.cpp:121-125 | One attempt: registers stored unless dropped, failure reported unless acknowledged |
| `Modbus.ModbusRequestsProxy.ScheduleRegistersWrite` | modbus_proxy/modbus_proxy.cpp:117-133 | One to four attempts, none after an acknowledged one and fewer than four only because of one; the words are stored if and only if one of four outcomes is not dropped; when the error is reported |
| `Modbus.AttemptsMadeExactly` | modbus_proxy/modbus_proxy.cpp:119-130 | At most four attempts, none after an acknowledged one, fewer than four only because of one |
| `Modbus.LostExactly` | modbus_proxy/modbus_proxy.cpp:119-130 | A write reaches the registers if and only if one of the four outcomes from the first attempt on is not dropped |
| `Modbus.StoreAt` | modbus_proxy/modbus_proxy.cpp:125 | A block write changes exactly the registers of its block |
| `RunClock.ReachableClock` | reflow_controller/reflow_controller.cpp:85-86 | Idle, the clock is 0 before any run has ended and 1 afterwards; running, it is that plus 1000 per tick since idle, whatever restarts happen |
| `RunClock.SoakIsExact` | reflow_controller/reflow_controller.cpp:249-267 | Without Start or Stop a soak entered at clock c lasts exactly max(1, d) ticks and is left at clock c + 1000 max(1, d), whatever is edited meanwhile |
| `PreheatDecision.BandUnderWraparound` | reflow_controller/reflow_controller.cpp:244-245 | The wrapped unsigned band test is the integer one for every target and reading |
| `PreheatDecision.PreheatTick` | reflow_controller/reflow_controller.cpp:216-255 | A Preheat tick, its stages not moved, skips, soaks or waits by the integer test on the reading of that tick |
| `PreheatDecision.ReadingIsLatest` | reflow_controller/reflow_controller.cpp:272-287 | The stored reading is the most recent successful poll of the run |
| `PreheatDecision.NoSoakWithoutData` | reflow_controller/reflow_controller.cpp:216-255 | Before the first successful poll no run soaks, whatever is commanded or edited |
| `PreheatDecision.PreheatHoldsWithoutData` | reflow_controller/reflow_controller.cpp:216-255 | And a nonzero stage does not leave Preheat over any ticks without Start or Stop, any preset creations, and any edits but those that append to the running preset or zero that stage |
| `RunLength.VisitLength` | reflow_controller/reflow_controller.cpp:175-311 | A stage takes exactly 2 + w ticks when skipped and 3 + w + max(1, d) when soaked |
| `RunLength.PlannedRun` | reflow_controller/reflow_controller.cpp:175-311 | Readings that fit a plan end the run exactly at its total, having written every remaining temperature in order and one zero |
| `RunLength.EndedRunWasPlanned` | reflow_controller/reflow_controller.cpp:175-311 | A run that ended followed such a plan |
| `RunLength.RunLengthExactly` | reflow_controller/reflow_controller.cpp:175-311 | A run left alone is over after n ticks if and only if the readings fit a plan of total at most n |
| `RunLength.FairRunEnds` | reflow_controller/reflow_controller.cpp:175-311 | If every stage the run comes to decides within K waiting ticks of being entered, the run ends within the sum of 3 + K + max(1, d), the whole profile written |
| `RunLength.EndsExactlyWhenFair` | reflow_controller/reflow_controller.cpp:175-311 | A run left alone ends if and only if there is such a K |
| `RunLength.StartedRunCompletes` | reflow_controller/reflow_controller.cpp:137-149 | From an armed idle controller, the Start tick counted, the whole profile is played and logged |
| `RunLength.StartedRunEnds` | reflow_controller/reflow_controller.cpp:137-149 | The same with the bound: started under such readings and left alone, the controller is idle again by it |
| `ProgressMeasure.QuietTickProgress` | reflow_controller/reflow_controller.cpp:175-311 | With no dangling pointer, stages left, phase and soak ticks left decrease lexicographically on a command-free running tick if and only if it is not an out-of-band Preheat tick, which leaves them unchanged |
| `RequestsQueue.RequestsQueue.GetOperation` | reflow_controller/inc/reflow_controller/requests_queue.hpp:14-25 | Takes the front element, or nothing from an empty queue |
| `RequestsQueue.RequestsQueue.PushOperation` | reflow_controller/inc/reflow_controller/requests_queue.hpp:27-31 | Appends at the back |
| `RequestsQueue.Conservation` | reflow_controller/inc/reflow_controller/requests_queue.hpp:14-31 | Under every interleaving what was handled followed by what is queued is what was posted |
| `RequestsQueue.ThreadOrder` | reflow_controller/inc/reflow_controller/requests_queue.hpp:14-31 | Each thread's commands are handled in the order it sent them, with none skipped |
| `RequestsQueue.Interleave` | reflow_controller/inc/reflow_controller/requests_queue.hpp:14-31 | The queue object, taken through any interleaving, holds and has handed out what those two results speak of |
| `PresetsHolder.Preset.AddStageItem` | presets/presets_holder.cpp:19-22 | Appends a stage |
| `PresetsHolder.Preset.ReplaceStageItem` | presets/presets_holder.cpp:24-35 | Replaces in place, every other stage and the length kept, or appends for any index past the end |
| `PresetsHolder.PresetsHolder.AddNewPreset` | presets/presets_holder.cpp:46-55 | A taken hash is rejected; otherwise a new empty preset is held and every key keeps its object |
| `PresetsHolder.PresetsHolder.GetPresetById` | presets/presets_holder.cpp:56-62 | The object held under the id, or the exception |
| `StageRequests.ParseStagesArray` | http_requests_handler/request_utils.cpp:7-36 | Parses if and only if non-empty with every item an object of numeric fields; item k gives stage k, "temperature" its temperature and "duration" its duration, an integer modulo 2^32, an absent field 0 |
| `StageRequests.ParsedStagesExactly` | http_requests_handler/request_utils.cpp:7-36 | An array means some stages if and only if they are, field by field, what its items hold |
| `StageRequests.ParsePresetUpdateRequest` | http_requests_handler/request_utils.cpp:41-68 | Which request a body is: a rename, a stages update and its stages, nothing, or an exception; a name takes precedence |
| `StageRequests.RequestExactly` | http_requests_handler/request_utils.cpp:41-68 | Every body means exactly one request |
| `StageRequests.ReplaceStages` | http_requests_handler/soldering_table_responses_handler.cpp:117-123 | The loop turns stages old into new ++ old[len(new)..] |
| `StageRequests.OverlayStep` | presets/presets_holder.cpp:24-35 | In that loop every push lands at its own index |
| `StageRequests.OverlayTwice` | http_requests_handler/soldering_table_responses_handler.cpp:117-123 | A second update hides only the part of the first it covers |
| `SolderingTable.Table.CreatePreset` | http_requests_handler/soldering_table_responses_handler.cpp:50-65 | Adds a preset without disturbing any other or the controller |
| `SolderingTable.Table.UpdatePreset` | http_requests_handler/soldering_table_responses_handler.cpp:104-130 | An unknown id is rejected first; a body with a name renames that preset only; one whose stages parse overlays them on that preset only; any other changes nothing |
| `SolderingTable.Table.Serve` | http_requests_handler/soldering_table_responses_handler.cpp:50-165 | Serving any history of requests and ticks on the objects leaves controller, presets, their names, queue, posted and handled commands as the history says; every key keeps its object with no fewer stages |
| `TableRuns.ServedIsRun` | http_requests_handler/soldering_table_responses_handler.cpp:50-165 | What a history leads to is the run of its ticks, creations and parsed stage updates |
| `TableRuns.StepCreates` | http_requests_handler/soldering_table_responses_handler.cpp:50-65 | A create request leaves the hash of the name held, empty and so named if it was new, and every other preset, the controller and the queue as they were |
| `TableRuns.StepUpdates` | http_requests_handler/soldering_table_responses_handler.cpp:104-130 | An update of a known preset renames it or lays the body's stages over its own position by position; nothing else changes, and nothing at all for an unknown one |
| `TableRuns.StepPosts` | http_requests_handler/soldering_table_responses_handler.cpp:148-165 | A command request puts its command at the back of the queue and changes nothing else |
| `TableRuns.StepTicks` | reflow_controller/reflow_controller.cpp:79-87 | A tick changes no preset; without a fault it handles what was queued and then what arrived up to some pop, leaves the rest queued, and stores the words of its block |
| `TableRuns.ServeSnoc` | http_requests_handler/soldering_table_responses_handler.cpp:50-165 | A history is served happening by happening, up to the fault that ends the worker |
| `TableRuns.ServedLosesNothing` | http_requests_handler/soldering_table_responses_handler.cpp:148-165 | Over any history the commands handled by its ticks followed by those still queued are those queued before followed by those posted |
| `SolderingTable.PowerOnAndServe` | reflow_controller/reflow_controller.cpp:151-215 | From power-on, any history is served as it says; then idle means register 0x2013 of the device is 0 unless the last disable was lost, and past Init it holds the captured temperature of the active stage unless that write was lost |
| `IioFormat.FormatParser.SetFormat` | platform/iio_format_parser.hpp:74-111 | Total on every string, every chunk starting inside it; stores the format read, and none after a rejection |
| `IioFormat.FormatParser.ReadFromSign` | platform/iio_format_parser.hpp:94-108 | The part of setFormat that reads the three numbers in order, giving up at the first that fails |
| `IioFormat.FormatParser.GetEndian` | platform/iio_format_parser.hpp:138-159 | Accepts exactly be and le and moves the cursor onto the e |
| `IioFormat.FormatParser.IsSigned` | platform/iio_format_parser.hpp:161-177 | Any separator; signed exactly for s |
| `IioFormat.FormatParser.GetValueBits` | platform/iio_format_parser.hpp:179-195 | The width read, and the chunk left to read at the slash |
| `IioFormat.FormatParser.GetTotalBits` | platform/iio_format_parser.hpp:197-207 | The width read, and the chunk left to read at the first > |
| `IioFormat.AcceptsExactly` | platform/iio_format_parser.hpp:138-233 | A string is accepted with given fields if and only if it is a legal text of them |
| `IioFormat.AcceptedShift` | platform/iio_format_parser.hpp:209-233 | Every accepted shift is in 0..9 |
| `IioFormat.ParseInvertsPrint` | platform/iio_format_parser.hpp:138-233 | Parsing a printed format returns its fields, with the shift modulo 10 |
| `IioFormat.ThermocoupleFormat` | devices_layer/implementations/arm_target/thermocouple_sysfs_impl.cpp:48 | be:s13/16>>3 is read as big-endian, signed, 13, 16, 3 |
| `IioFormat.ThermocoupleReading` | tests/iio_parser_tests/iio_parser_test.cpp:7-17 | Raw 172 in that format is the text 21 |
| `IioFormat.FormatParser.ParseValue` | platform/iio_format_parser.hpp:113-118 | Nothing without a format or for another storage width; otherwise the decimal text of the extracted value, minus sign included, the same for both byte orders |
| `IioFormat.IntTextExactly` | platform/iio_format_parser.hpp:308-316 | A string is what an integer is formatted as if and only if it is a numeral without leading zeros, after a minus sign when negative, that reads back as the integer |
| `BitArithmetic.SignedExactly` | platform/iio_format_parser.hpp:308-316 | The signed reading of a bit pattern is the one integer in range congruent to it |
| `IioFormat.FormatParser.ProcessConcreteTag` | platform/iio_format_parser.hpp:308-316 | Mask, shift and conversion through the stored bytes give the extracted value |
| `IioValue.CreateBitmask` | platform/iio_format_parser.hpp:318-326 | The loop computes 2^n - 1 for n up to 32 |
| `IioValue.LoadStore` | platform/iio_format_parser.hpp:43-65 | What is stored in either byte order is what is loaded |
| `IioValue.ExtractionIsExact` | platform/iio_format_parser.hpp:255-316 | ((v mod 2^T) mod 2^V) div 2^S when unsigned or V < T, the floor of two's-complement v over 2^S when signed and V >= T |
| `IioValue.AgreesWithAbiExactly` | platform/iio_format_parser.hpp:308-316 | For every format and raw value it agrees with the kernel's shift-then-mask rule if and only if, for V < T, the bits the field is taken from stay below 2^max(V, S) and clear of an unshifted sign bit, and for V >= T, the value is unsigned, the whole word, or not negative |
| `IioValue.ThermocoupleAgreesExactly` | devices_layer/implementations/arm_target/thermocouple_sysfs_impl.cpp:48 | For the thermocouple that is below 2^13; its readings are never negative |

## Left out

- HTTP routing, response building, the JSON text parser and the command parser: the model starts from parsed JSON values and typed commands.
- The post-time check that refuses regulator parameters while running: it is made before the command is queued, so it says nothing about when the command is handled.
- Modbus set-up and reads: a poll is any sequence of at least four words, or a failure.
- Spare capacity of a preset's stages: every append is taken to move them, so an append that happens to fit where they are still leaves the stage pointer dangling.
- Requests inside a tick: only queue pushes interleave with a drain; preset creations and updates fall between ticks, and data races on presets are not modelled.
- Overlapping ticks: one worker thread, as in executor/async_executor.cpp.
- Clock overflow and the width of preset ids: unbounded integers.
- The floating-point k: an opaque 16-bit word. A floating-point JSON number is held as its 32-bit conversion.
- `std::hash`: an arbitrary function; a collision is rejected like a repeated name.
- ParseValue: requires a value width of at most 32 for the supported storage widths, because the program's shift is undefined beyond.
- GPIO, sysfs files, device stubs, configuration and logging, except for the error report of the write loop.
