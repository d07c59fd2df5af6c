// What the target-temperature register of the table holds after every run,
// through a link that may lose writes.
module HeaterRegister {
  import opened Wrappers
  import opened MachineWords
  import opened Commands
  import opened Modbus
  import opened ReflowSpec
  import opened ModeRefinement
  import opened SetpointTrace

  // The write an entry of the log stands for.
  function WriteOf(e: Entry): Write {
    match e
    case Setpoint(_, temperature) => Write(TARGET_TEMPERATURE_ADDR, [ToWord(temperature)])
    case HeaterOff => Write(TARGET_TEMPERATURE_ADDR, [0])
    case Regulator(k, hysteresis) => Write(FACTOR_ADDR, [k, ToWord(hysteresis)])
  }

  const POWER_ON: Wire := Wire(map[], 0)

  // The device after all writes of a log, oldest first.
  function Replay(link: Link, log: seq<Entry>): Wire {
    if log == [] then POWER_ON
    else Deliver(link, Replay(link, log[..|log| - 1]), WriteOf(log[|log| - 1]))
  }

  function Heater(link: Link, log: seq<Entry>): Word {
    At(Replay(link, log).bank, TARGET_TEMPERATURE_ADDR)
  }

  // All four attempts at entry j were dropped.
  ghost predicate Lost(link: Link, log: seq<Entry>, j: int) {
    && 0 <= j < |log|
    && var start := Replay(link, log[..j]).used;
       link(start).Dropped? && link(start + 1).Dropped? && link(start + 2).Dropped? && link(start + 3).Dropped?
  }

  // Entry j is the last target write that was not lost.
  ghost predicate LastInForce(link: Link, log: seq<Entry>, j: int) {
    && 0 <= j < |log| && IsTarget(log[j]) && !Lost(link, log, j)
    && forall i :: j < i < |log| && IsTarget(log[i]) ==> Lost(link, log, i)
  }

  lemma TargetWrites(link: Link, wire: Wire, e: Entry)
    ensures At(Deliver(link, wire, WriteOf(e)).bank, TARGET_TEMPERATURE_ADDR)
         == if IsTarget(e) && Reached(link, wire.used) then WriteOf(e).words[0]
            else At(wire.bank, TARGET_TEMPERATURE_ADDR)
  {
    StoreAt(wire.bank, WriteOf(e).address, WriteOf(e).words, TARGET_TEMPERATURE_ADDR);
  }

  // A later write does not change which were lost.
  lemma LostStays(link: Link, log: seq<Entry>, e: Entry, j: nat)
    requires j < |log|
    ensures Lost(link, log + [e], j) <==> Lost(link, log, j)
  {
    assert (log + [e])[..j] == log[..j];
  }

  lemma LostNow(link: Link, log: seq<Entry>, e: Entry)
    ensures Lost(link, log + [e], |log|) <==> !Reached(link, Replay(link, log).used)
  {
    assert (log + [e])[..|log|] == log;
    LostExactly(link, Replay(link, log).used);
  }

  lemma LostAt(link: Link, log: seq<Entry>, e: Entry)
    ensures forall j :: 0 <= j < |log| ==> (Lost(link, log + [e], j) <==> Lost(link, log, j))
    ensures Lost(link, log + [e], |log|) <==> !Reached(link, Replay(link, log).used)
  {
    forall j | 0 <= j < |log|
      ensures Lost(link, log + [e], j) <==> Lost(link, log, j)
    {
      LostStays(link, log, e, j);
    }
    LostNow(link, log, e);
  }

  // The register after one more write.
  lemma HeaterStep(link: Link, log: seq<Entry>, e: Entry)
    ensures Heater(link, log + [e])
         == if IsTarget(e) && !Lost(link, log + [e], |log|) then WriteOf(e).words[0] else Heater(link, log)
  {
    assert (log + [e])[..|log|] == log;
    TargetWrites(link, Replay(link, log), e);
    LostAt(link, log, e);
  }

  // The register holds the last target write that got through; regulator
  // writes never touch it.
  lemma {:induction false} HeaterHolds(link: Link, log: seq<Entry>, j: int)
    requires LastInForce(link, log, j)
    ensures Heater(link, log) == WriteOf(log[j]).words[0]
    decreases |log|
  {
    var prefix, e := log[..|log| - 1], log[|log| - 1];
    assert log == prefix + [e];
    HeaterStep(link, prefix, e);
    if j < |prefix| {
      LostAt(link, prefix, e);
      assert LastInForce(link, prefix, j);
      HeaterHolds(link, prefix, j);
    }
  }

  // With every target write lost it keeps its initial zero.
  lemma {:induction false} HeaterNeverSet(link: Link, log: seq<Entry>)
    requires forall j :: 0 <= j < |log| && IsTarget(log[j]) ==> Lost(link, log, j)
    ensures Heater(link, log) == 0
    decreases |log|
  {
    if log != [] {
      var prefix, e := log[..|log| - 1], log[|log| - 1];
      assert log == prefix + [e];
      HeaterStep(link, prefix, e);
      LostAt(link, prefix, e);
      forall j | 0 <= j < |prefix| && IsTarget(prefix[j])
        ensures Lost(link, prefix, j)
      {
        assert IsTarget(log[j]);
      }
      HeaterNeverSet(link, prefix);
    }
  }

  // Entry j is the last target write of the log.
  ghost predicate LastWrite(log: seq<Entry>, j: int) {
    && 0 <= j < |log| && IsTarget(log[j])
    && forall i :: j < i < |log| ==> !IsTarget(log[i])
  }

  lemma {:induction false} LastTargetAt(log: seq<Entry>)
    ensures LastTarget(log).None? <==> forall i :: 0 <= i < |log| ==> !IsTarget(log[i])
    ensures LastTarget(log).Some? ==> exists j :: LastWrite(log, j) && log[j] == LastTarget(log).value
    decreases |log|
  {
    if log != [] {
      var prefix := log[..|log| - 1];
      LastTargetAt(prefix);
      if IsTarget(log[|log| - 1]) {
        assert LastWrite(log, |log| - 1);
      } else if LastTarget(prefix).Some? {
        var j :| LastWrite(prefix, j) && prefix[j] == LastTarget(prefix).value;
        assert LastWrite(log, j) && log[j] == LastTarget(log).value;
      }
    }
  }

  // The last target write, if any, was lost in all four of its attempts.
  ghost predicate LastWriteLost(link: Link, log: seq<Entry>) {
    exists j :: LastWrite(log, j) && Lost(link, log, j)
  }

  lemma HeaterFollowsLastTarget(link: Link, log: seq<Entry>)
    ensures match LastTarget(log)
      case None => Heater(link, log) == 0
      case Some(e) => Heater(link, log) == WriteOf(e).words[0] || LastWriteLost(link, log)
  {
    LastTargetAt(log);
    if LastTarget(log).Some? {
      var j :| LastWrite(log, j) && log[j] == LastTarget(log).value;
      if !Lost(link, log, j) {
        HeaterHolds(link, log, j);
      }
    } else {
      HeaterNeverSet(link, log);
    }
  }

  // In every reachable idle state the heater register, 0x2013, is zero, unless the
  // four attempts of the last disable were all dropped.
  lemma IdleMeansHeaterOff(w: World, es: seq<Event>, link: Link)
    requires InitialWorld(w)
    ensures var s := Run(w, es).ctrl;
      !s.running ==> At(Replay(link, s.log).bank, 0x2013) == 0 || LastWriteLost(link, s.log)
  {
    ReachableIsTraced(w, es);
    HeaterFollowsLastTarget(link, Run(w, es).ctrl.log);
  }

  // Tick k of the run captured the stage now active, and the register holds the
  // temperature the stage had then, unless the last write to it was lost.
  ghost predicate HoldsCaptured(w: World, es: seq<Event>, k: int, link: Link, heater: Word) {
    && HeldSince(w, es, k)
    && var s, captured := Run(w, es).ctrl, Run(w, es[..k + 1]);
       || heater == captured.presets[s.activeId.value][s.index].temperature % 0x1_0000
       || LastWriteLost(link, s.log)
  }

  // So it is in every run past Init.
  lemma RunningHoldsSetpoint(w: World, es: seq<Event>, link: Link) returns (k: nat)
    requires InitialWorld(w) && PastInit(Run(w, es).ctrl)
    ensures HoldsCaptured(w, es, k, link, At(Replay(link, Run(w, es).ctrl.log).bank, 0x2013))
  {
    k := SetpointInForce(w, es);
    HeaterFollowsLastTarget(link, Run(w, es).ctrl.log);
  }

  // ----- Polling the registers -----

  // What a successful block read returns: the four registers used, at least.
  type Block = words: seq<Word> | |words| >= 4 witness [0, 0, 0, 0]

  // The block read of a tick, on a device that answers with its registers.
  function ReadBlock(bank: Bank): Block {
    [At(bank, SURROUNDING_TEMP_ADDR), At(bank, THERMOCOUPLE_ADDR), At(bank, FACTOR_ADDR),
     At(bank, HYSTERESIS_ADDR), At(bank, TARGET_TEMPERATURE_ADDR)]
  }

  // Five consecutive registers from 0x200F.
  lemma BlockIsConsecutive(bank: Bank)
    ensures |ReadBlock(bank)| == 5
    ensures forall i :: 0 <= i < 5 ==> ReadBlock(bank)[i] == At(bank, 0x200F + i)
  {
  }

  // A failed read gives no reading. The controller takes offset 2 as the
  // hysteresis and offset 3 as k.
  function Polled(modbusData: Option<Block>): Option<Reading> {
    match modbusData
    case None => None
    case Some(data) => Some(Reading(data[0], data[1], data[2], data[3]))
  }

  // A reading after a poll, in terms of the words of the block: a successful read
  // is stored word by word, a failed one keeps the last reading.
  predicate Stored(last: Reading, modbusData: Option<Block>, r: Reading) {
    && (modbusData.None? ==> r == last)
    && (modbusData.Some? ==>
          && r.surrounding == modbusData.value[0] && r.table == modbusData.value[1]
          && r.hysteresis == modbusData.value[2] && r.k == modbusData.value[3])
  }

  // Any tick that does not end the worker stores its poll, whatever it handles.
  lemma TickStores(s: State, presets: Presets, batch: seq<Command>, modbusData: Option<Block>)
    ensures var t := TickState(s, presets, batch, Polled(modbusData));
      t.fault.None? ==> Stored(s.reading, modbusData, t.reading)
  {
    DrainFrame(s, batch, presets.Keys);
  }

  // ----- Setting and reading back the regulator -----

  // The writer puts k first and the hysteresis second, so reading parameters
  // back gives what was set exactly when the two words are the same number (and
  // the hysteresis fits its register). The temperatures read, and the target
  // register, are what they were before.
  lemma RegulatorReadsBackExactly(bank: Bank, k: Word, hysteresis: UInt32)
    ensures var w := WriteOf(Regulator(k, hysteresis));
      var after := Store(bank, w.address, w.words);
      var polled := Polled(Some(ReadBlock(after)));
      && polled.Some? && var r := polled.value;
         && r.hysteresis == k && r.k == hysteresis % 0x1_0000
         && (r.hysteresis == hysteresis && r.k == k <==> hysteresis == k)
         && r.surrounding == At(bank, 0x200F) && r.table == At(bank, 0x2010)
         && At(after, 0x2013) == At(bank, 0x2013)
  {
    var w := WriteOf(Regulator(k, hysteresis));
    StoreAt(bank, w.address, w.words, SURROUNDING_TEMP_ADDR);
    StoreAt(bank, w.address, w.words, THERMOCOUPLE_ADDR);
    StoreAt(bank, w.address, w.words, FACTOR_ADDR);
    StoreAt(bank, w.address, w.words, HYSTERESIS_ADDR);
    StoreAt(bank, w.address, w.words, TARGET_TEMPERATURE_ADDR);
  }

  // From the command to the registers: handling it writes k at 0x2011 and the
  // hysteresis at 0x2012 and nothing else, unless all four attempts are dropped,
  // and then it writes nothing.
  lemma RegulatorCommandReaches(link: Link, s: State, known: set<nat>, k: Word, hysteresis: UInt32, a: int)
    requires s.fault.None?
    ensures var before := Replay(link, s.log);
      var log := Dispatch(s, SetRegulatorParams(k, hysteresis), known).log;
      At(Replay(link, log).bank, a) ==
        if Lost(link, log, |s.log|) then At(before.bank, a)
        else if a == 0x2011 then k
        else if a == 0x2012 then hysteresis % 0x1_0000
        else At(before.bank, a)
  {
    var e := Regulator(k, hysteresis);
    assert (s.log + [e])[..|s.log|] == s.log;
    LostNow(link, s.log, e);
    StoreAt(Replay(link, s.log).bank, WriteOf(e).address, WriteOf(e).words, a);
  }

  // The round trip of the REST test, hysteresis 3 and k 1, comes back swapped.
  lemma RegulatorReadsBackSwapped()
    ensures var w := WriteOf(Regulator(1, 3));
      var polled := Polled(Some(ReadBlock(Store(map[], w.address, w.words))));
      polled.Some? && polled.value.hysteresis == 1 && polled.value.k == 3
  {
  }
}
