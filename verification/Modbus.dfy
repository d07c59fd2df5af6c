// The Modbus registers of the table, reached over a link on which any attempt
// may fail, and the proxy that retries a write.
module Modbus {
  import opened MachineWords

  const SURROUNDING_TEMP_ADDR: Word := 0x200F
  const THERMOCOUPLE_ADDR: Word := 0x2010
  const FACTOR_ADDR: Word := 0x2011
  const HYSTERESIS_ADDR: Word := 0x2012
  const TARGET_TEMPERATURE_ADDR: Word := 0x2013

  // Retries after a first attempt that failed.
  const MODBUS_ATTEMPTS: nat := 3

  // One attempt on the wire: acknowledged, carried out but the reply was lost,
  // or lost altogether. The caller sees the last two as the same failure.
  datatype Attempt = Acked | AppliedNoReply | Dropped

  // The outcome of the n-th attempt since power-on.
  type Link = nat -> Attempt

  // A register that was never written reads as zero.
  type Bank = map<int, Word>

  function At(bank: Bank, address: int): Word {
    if address in bank then bank[address] else 0
  }

  function Store(bank: Bank, address: int, words: seq<Word>): Bank
    decreases |words|
  {
    if words == [] then bank else Store(bank[address := words[0]], address + 1, words[1..])
  }

  lemma {:induction false} StoreAt(bank: Bank, address: int, words: seq<Word>, a: int)
    ensures At(Store(bank, address, words), a)
         == if address <= a < address + |words| then words[a - address] else At(bank, a)
    decreases |words|
  {
    if words != [] {
      StoreAt(bank[address := words[0]], address + 1, words[1..], a);
    }
  }

  lemma {:induction false} StoreTwice(bank: Bank, address: int, words: seq<Word>)
    ensures Store(Store(bank, address, words), address, words) == Store(bank, address, words)
  {
    var once := Store(bank, address, words);
    var twice := Store(once, address, words);
    StoreKeys(bank, address, words);
    StoreKeys(once, address, words);
    assert forall a :: a in twice <==> a in once;
    forall a | a in once
      ensures twice[a] == once[a]
    {
      StoreAt(bank, address, words, a);
      StoreAt(once, address, words, a);
    }
  }

  lemma {:induction false} StoreKeys(bank: Bank, address: int, words: seq<Word>)
    ensures forall a :: a in Store(bank, address, words) <==> a in bank || address <= a < address + |words|
    decreases |words|
  {
    if words != [] {
      StoreKeys(bank[address := words[0]], address + 1, words[1..]);
    }
  }

  // ----- One scheduled write -----

  datatype Write = Write(address: Word, words: seq<Word>)

  datatype Wire = Wire(bank: Bank, used: nat)

  // The proxy stops at the first acknowledged attempt and gives up after four.
  function AttemptsMade(link: Link, used: nat): nat {
    if link(used).Acked? then 1
    else if link(used + 1).Acked? then 2
    else if link(used + 2).Acked? then 3
    else 4
  }

  // Some of n attempts got through to the registers.
  predicate GotThrough(link: Link, from: nat, n: nat)
    decreases n
  {
    n > 0 && (!link(from).Dropped? || GotThrough(link, from + 1, n - 1))
  }

  predicate Reached(link: Link, used: nat) {
    GotThrough(link, used, AttemptsMade(link, used))
  }

  function Deliver(link: Link, wire: Wire, w: Write): Wire {
    Wire(if Reached(link, wire.used) then Store(wire.bank, w.address, w.words) else wire.bank,
         wire.used + AttemptsMade(link, wire.used))
  }

  lemma {:induction false} GotThroughExactly(link: Link, from: nat, n: nat)
    ensures GotThrough(link, from, n) <==> exists a :: from <= a < from + n && !link(a).Dropped?
    decreases n
  {
    if n > 0 {
      GotThroughExactly(link, from + 1, n - 1);
    }
  }

  // The number of attempts is determined: at most four, none after an
  // acknowledged one, and fewer than four only because of one.
  lemma AttemptsMadeExactly(link: Link, used: nat, n: nat)
    ensures n == AttemptsMade(link, used) <==>
      && 1 <= n <= 4
      && (forall a :: used <= a < used + n - 1 ==> !link(a).Acked?)
      && (n < 4 ==> link(used + n - 1).Acked?)
  {
  }

  // A write reaches the registers exactly when one of four attempts is not dropped.
  lemma LostExactly(link: Link, used: nat)
    ensures Reached(link, used) <==>
      !link(used).Dropped? || !link(used + 1).Dropped? || !link(used + 2).Dropped? || !link(used + 3).Dropped?
  {
    var n := AttemptsMade(link, used);
    GotThroughExactly(link, used, n);
    if n < 4 {
      var last := used + n - 1;
      assert !link(last).Dropped?;
    }
  }

  // The registers and the cable.
  class Device {
    const link: Link
    var bank: Bank
    var used: nat

    constructor (link: Link)
      ensures this.link == link && bank == map[] && used == 0
    {
      this.link := link;
      bank, used := map[], 0;
    }

    ghost function Contents(): Wire
      reads this
    {
      Wire(bank, used)
    }

    // modbus_write_registers: a negative result is a failure.
    method WriteRegisters(address: Word, words: seq<Word>) returns (errCode: int)
      modifies this
      ensures used == old(used) + 1
      ensures bank == if link(old(used)).Dropped? then old(bank) else Store(old(bank), address, words)
      ensures errCode < 0 <==> !link(old(used)).Acked?
    {
      var attempt := link(used);
      if !attempt.Dropped? {
        bank := Store(bank, address, words);
      }
      used := used + 1;
      errCode := if attempt.Acked? then |words| else -1;
    }
  }

  class ModbusRequestsProxy {
    const device: Device

    constructor (device: Device)
      ensures this.device == device
    {
      this.device := device;
    }

    predicate IsFailed(errorCode: int) {
      errorCode < 0
    }

    // At most four attempts, none after an acknowledged one; the registers hold
    // the words if any attempt got through and are untouched otherwise. The error
    // is reported when every attempt failed, and also when the first succeeded.
    method ScheduleRegistersWrite(address: Word, words: seq<Word>) returns (reported: bool)
      modifies device
      ensures device.Contents() == Deliver(device.link, old(device.Contents()), Write(address, words))
      ensures reported <==>
              || device.link(old(device.used)).Acked?
              || forall a :: old(device.used) <= a < old(device.used) + 4 ==> !device.link(a).Acked?
      ensures old(device.used) < device.used <= old(device.used) + 4
      ensures forall a :: old(device.used) <= a < device.used - 1 ==> !device.link(a).Acked?
      ensures device.used < old(device.used) + 4 ==> device.link(device.used - 1).Acked?
      ensures device.bank ==
        if exists a :: old(device.used) <= a < old(device.used) + 4 && !device.link(a).Dropped?
        then Store(old(device.bank), address, words) else old(device.bank)
    {
      var numAttempts := MODBUS_ATTEMPTS;
      ghost var start, before := device.used, device.bank;
      StoreTwice(before, address, words);

      var errCode := device.WriteRegisters(address, words);
      var isFailedWrite := IsFailed(errCode);
      while isFailedWrite && numAttempts != 0
        invariant 0 <= numAttempts <= MODBUS_ATTEMPTS
        invariant device.used == start + 1 + (MODBUS_ATTEMPTS - numAttempts)
        invariant isFailedWrite <==> !device.link(start).Acked?
        invariant isFailedWrite ==> forall a :: start <= a < device.used ==> !device.link(a).Acked?
        invariant !isFailedWrite ==> numAttempts == MODBUS_ATTEMPTS
        invariant device.bank == if exists a :: start <= a < device.used && !device.link(a).Dropped?
                                 then Store(before, address, words) else before
      {
        errCode := device.WriteRegisters(address, words);
        if !IsFailed(errCode) {
          AttemptsMadeExactly(device.link, start, device.used - start);
          GotThroughExactly(device.link, start, device.used - start);
          return false;
        }
        numAttempts := numAttempts - 1;
      }
      AttemptsMadeExactly(device.link, start, device.used - start);
      GotThroughExactly(device.link, start, device.used - start);
      return true;
    }
  }
}
