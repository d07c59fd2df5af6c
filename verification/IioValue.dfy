// Extracting a sensor value: endian-aware integers, masking and shifting.
module IioValue {
  import opened BitArithmetic

  // std::uint8_t
  type Byte = x: int | 0 <= x < 256

  datatype Endian = Big | Little

  // ----- Integers stored in a byte order -----

  // A Boost endian integer: its bytes in memory order.
  datatype Cell = Cell(order: Endian, bytes: seq<Byte>)

  function Reverse(s: seq<Byte>): (r: seq<Byte>)
    ensures |r| == |s| && forall k :: 0 <= k < |s| ==> r[k] == s[|s| - 1 - k]
  {
    if s == [] then [] else Reverse(s[1..]) + [s[0]]
  }

  // Least significant byte first.
  function ToBytes(pattern: nat, count: nat): (s: seq<Byte>)
    ensures |s| == count
  {
    if count == 0 then [] else [pattern % 256] + ToBytes(pattern / 256, count - 1)
  }

  function FromBytes(s: seq<Byte>): nat {
    if s == [] then 0 else s[0] + 256 * FromBytes(s[1..])
  }

  // The low `bits` bits of a value, in that order.
  function Store(order: Endian, bits: nat, value: int): Cell {
    var little := ToBytes(value % Pow2(bits), bits / 8);
    Cell(order, if order.Little? then little else Reverse(little))
  }

  function Load(c: Cell): nat {
    FromBytes(if c.order.Little? then c.bytes else Reverse(c.bytes))
  }

  // One byte at a time.
  lemma ModByByte(x: nat, m: nat)
    requires m > 0
    ensures x % (256 * m) == x % 256 + 256 * ((x / 256) % m)
  {
    var q, r := (x / 256) / m, (x / 256) % m;
    assert x / 256 == m * q + r;
    assert x == 256 * m * q + (x % 256 + 256 * r) by {
      assert 256 * (m * q) == 256 * m * q;
    }
    DivModUnique(x, 256 * m, q, x % 256 + 256 * r);
  }

  lemma {:induction false} BytesRoundTrip(pattern: nat, count: nat)
    ensures FromBytes(ToBytes(pattern, count)) == pattern % Pow2(8 * count)
    decreases count
  {
    if count > 0 {
      BytesRoundTrip(pattern / 256, count - 1);
      assert ToBytes(pattern, count)[1..] == ToBytes(pattern / 256, count - 1);
      var rest := 8 * (count - 1);
      Pow2Add(8, rest);
      assert Pow2(8) == 256;
      ModByByte(pattern, Pow2(rest));
      assert 8 * count == 8 + rest;
    }
  }

  lemma ReverseTwice(s: seq<Byte>)
    ensures Reverse(Reverse(s)) == s
  {
  }

  // What is stored is what is loaded, in either byte order.
  lemma LoadStore(order: Endian, bits: nat, value: int)
    requires bits % 8 == 0
    ensures Load(Store(order, bits, value)) == value % Pow2(bits)
  {
    var pattern, count := value % Pow2(bits), bits / 8;
    assert bits == 8 * count;
    BytesRoundTrip(pattern, count);
    ReverseTwice(ToBytes(pattern, count));
    DivModUnique(pattern, Pow2(bits), 0, pattern);
  }

  // value(): the stored pattern as the cell's integer type reads it.
  function ValueOf(c: Cell, bits: nat, isSigned: bool): int
    requires bits > 0
  {
    if isSigned then Signed(Load(c), bits) else Load(c)
  }

  // ----- Masking and shifting -----

  // Both operands of & are promoted to 32 bits; >> is arithmetic on signed
  // operands; each result is stored back at the width of the cell.
  function MaskShift(order: Endian, bits: nat, isSigned: bool, value: nat, mask: nat, shift: nat): int
    requires bits > 0
  {
    var bitValue := Store(order, bits, value);
    var converted := ValueOf(Store(order, bits, mask), bits, isSigned);
    var masked := Store(order, bits,
      And(ValueOf(bitValue, bits, isSigned) % Pow2(32), converted % Pow2(32)));
    var shifted := Store(order, bits, ValueOf(masked, bits, isSigned) / Pow2(shift));
    ValueOf(shifted, bits, isSigned)
  }

  // The integer a stored value stands for.
  function ReadAs(value: int, bits: nat, isSigned: bool): int
    requires bits > 0
  {
    if isSigned then Signed(value % Pow2(bits), bits) else value % Pow2(bits)
  }

  // Reading keeps the pattern.
  lemma ReadKeepsBits(value: int, bits: nat, isSigned: bool)
    requires bits > 0
    ensures ReadAs(value, bits, isSigned) % Pow2(bits) == value % Pow2(bits)
    ensures ReadAs(ReadAs(value, bits, isSigned), bits, isSigned) == ReadAs(value, bits, isSigned)
  {
    var m, p := Pow2(bits), value % Pow2(bits);
    DivModUnique(p, m, 0, p);
    DivModUnique(p - m, m, -1, p);
  }

  // The range of the type.
  predicate Fits(x: int, bits: nat, isSigned: bool)
    requires bits > 0
  {
    if isSigned then 0 - Pow2(bits - 1) <= x < Pow2(bits - 1) else 0 <= x < Pow2(bits)
  }

  lemma FittingReadsBack(x: int, bits: nat, isSigned: bool)
    requires bits > 0 && Fits(x, bits, isSigned)
    ensures ReadAs(x, bits, isSigned) == x
  {
    var m := Pow2(bits);
    assert m == 2 * Pow2(bits - 1);
    if x >= 0 {
      DivModUnique(x, m, 0, x);
    } else {
      DivModUnique(x, m, -1, x + m);
    }
  }

  lemma ReadFits(value: int, bits: nat, isSigned: bool)
    requires bits > 0
    ensures Fits(ReadAs(value, bits, isSigned), bits, isSigned)
  {
  }

  lemma DivOfNatural(x: nat, d: nat)
    requires d > 0
    ensures 0 <= x / d <= x
  {
    var q, r := x / d, x % d;
    assert x == d * q + r;
    MulBounds(d, q);
  }

  // Rounding down, a negative number stays between itself and -1.
  lemma DivOfNegative(x: int, d: nat)
    requires d > 0 && x < 0
    ensures x <= x / d < 0
  {
    var y := -x - 1;
    var q, r := y / d, y % d;
    assert y == d * q + r;
    DivOfNatural(y, d);
    assert x == d * (-q - 1) + (d - 1 - r) by {
      assert d * (-q - 1) == -(d * q) - d;
    }
    DivModUnique(x, d, -q - 1, d - 1 - r);
  }

  lemma ShiftFits(x: int, d: nat, bits: nat, isSigned: bool)
    requires bits > 0 && d > 0 && Fits(x, bits, isSigned)
    ensures Fits(x / d, bits, isSigned)
  {
    if x >= 0 {
      DivOfNatural(x, d);
    } else {
      DivOfNegative(x, d);
    }
  }

  // Through the byte order: neither operand nor result depends on it.
  lemma MaskShiftValue(order: Endian, bits: nat, isSigned: bool, value: nat, mask: nat, shift: nat)
    requires bits > 0 && bits % 8 == 0 && bits <= 32
    ensures MaskShift(order, bits, isSigned, value, mask, shift)
         == ReadAs(And(value % Pow2(bits), mask % Pow2(bits)), bits, isSigned) / Pow2(shift)
  {
    var v, y := ReadAs(value, bits, isSigned), ReadAs(mask, bits, isSigned);
    var both := And(v % Pow2(32), y % Pow2(32));
    LoadStore(order, bits, value);
    LoadStore(order, bits, mask);
    LoadStore(order, bits, both);
    AndMod(v % Pow2(32), y % Pow2(32), bits);
    ModMod(v, bits, 32);
    ModMod(y, bits, 32);
    ReadKeepsBits(value, bits, isSigned);
    ReadKeepsBits(mask, bits, isSigned);
    assert both % Pow2(bits) == And(value % Pow2(bits), mask % Pow2(bits));
    SmallRead(value % Pow2(bits), mask % Pow2(bits), bits);
    var masked := ReadAs(both, bits, isSigned);
    var d := Pow2(shift);
    LoadStore(order, bits, masked / d);
    ReadFits(both, bits, isSigned);
    ShiftFits(masked, d, bits, isSigned);
    FittingReadsBack(masked / d, bits, isSigned);
  }

  lemma SmallRead(a: nat, b: nat, bits: nat)
    requires a < Pow2(bits) && b < Pow2(bits)
    ensures And(a, b) % Pow2(bits) == And(a, b)
  {
    AndMod(a, b, bits);
    DivModUnique(a, Pow2(bits), 0, a);
    DivModUnique(b, Pow2(bits), 0, b);
  }

  // ----- The mask -----

  // 1 << mask for every mask below valueBits. At 32 and above the program's
  // shift is undefined.
  method CreateBitmask(valueBits: Byte) returns (bitmask: nat)
    requires valueBits <= 32
    ensures bitmask == Pow2(valueBits) - 1
  {
    bitmask := 0;
    for mask := 0 to valueBits
      invariant bitmask == Pow2(mask) - 1
    {
      OrNextBit(mask);
      bitmask := Or(bitmask, Pow2(mask));
    }
  }

  // ----- What is extracted -----

  // The low `bits` bits of the raw value, cut to the value width and divided by
  // 2^shift. The sign survives only when the value width is the storage width
  // or more.
  function Extracted(bits: nat, isSigned: bool, value: nat, valueBits: nat, shift: nat): int
    requires bits > 0
  {
    var stored := value % Pow2(bits);
    if isSigned && valueBits >= bits then Signed(stored, bits) / Pow2(shift)
    else (stored % Pow2(valueBits)) / Pow2(shift)
  }

  lemma OnesOf(valueBits: nat, bits: nat)
    ensures (Pow2(valueBits) - 1) % Pow2(bits) == Pow2(if valueBits < bits then valueBits else bits) - 1
  {
    if valueBits < bits {
      Pow2Grows(valueBits, bits);
      DivModUnique(Pow2(valueBits) - 1, Pow2(bits), 0, Pow2(valueBits) - 1);
    } else {
      Pow2Add(bits, valueBits - bits);
      var m, k := Pow2(bits), Pow2(valueBits - bits);
      LastOfGroups(m, k);
      DivModUnique(Pow2(valueBits) - 1, m, k - 1, m - 1);
    }
  }

  lemma LastOfGroups(m: nat, k: nat)
    ensures m * k - 1 == m * (k - 1) + (m - 1)
  {
  }

  // Masking with 2^valueBits - 1 keeps the low bits of what is stored.
  lemma MaskKeeps(stored: nat, valueBits: nat, bits: nat)
    requires stored < Pow2(bits)
    ensures And(stored, (Pow2(valueBits) - 1) % Pow2(bits))
         == if valueBits < bits then stored % Pow2(valueBits) else stored
    ensures valueBits >= bits ==> stored % Pow2(valueBits) == stored
  {
    OnesOf(valueBits, bits);
    AndOnes(stored, if valueBits < bits then valueBits else bits);
    if valueBits >= bits {
      DivModUnique(stored, Pow2(bits), 0, stored);
      Pow2Grows(bits, valueBits);
      DivModUnique(stored, Pow2(valueBits), 0, stored);
    }
  }

  // Narrower than the type, a value reads as itself.
  lemma NarrowReads(x: nat, valueBits: nat, bits: nat, isSigned: bool)
    requires valueBits < bits
    ensures ReadAs(x % Pow2(valueBits), bits, isSigned) == x % Pow2(valueBits)
  {
    Pow2Grows(valueBits, bits - 1);
    assert Pow2(bits) == 2 * Pow2(bits - 1);
    FittingReadsBack(x % Pow2(valueBits), bits, isSigned);
  }

  lemma ReadMasked(masked: nat, bits: nat, isSigned: bool, value: nat, valueBits: nat, d: nat)
    requires bits > 0 && d > 0
    requires masked == And(value % Pow2(bits), (Pow2(valueBits) - 1) % Pow2(bits))
    ensures ReadAs(masked, bits, isSigned) / d
         == if isSigned && valueBits >= bits then Signed(value % Pow2(bits), bits) / d
            else ((value % Pow2(bits)) % Pow2(valueBits)) / d
  {
    var stored := value % Pow2(bits);
    MaskKeeps(stored, valueBits, bits);
    if valueBits < bits {
      NarrowReads(stored, valueBits, bits, isSigned);
    } else {
      DivModUnique(stored, Pow2(bits), 0, stored);
    }
  }

  // Masking and shifting extracts exactly that, in either byte order.
  lemma ExtractionIsExact(order: Endian, bits: nat, isSigned: bool, value: nat, valueBits: nat, mask: nat, shift: nat)
    requires bits > 0 && bits % 8 == 0 && bits <= 32
    requires mask == Pow2(valueBits) - 1
    ensures MaskShift(order, bits, isSigned, value, mask, shift)
         == Extracted(bits, isSigned, value, valueBits, shift)
  {
    MaskShiftValue(order, bits, isSigned, value, mask, shift);
    ReadMasked(And(value % Pow2(bits), mask % Pow2(bits)), bits, isSigned, value, valueBits, Pow2(shift));
  }

  // ----- Against the kernel's rule -----

  // The sysfs-bus-iio rule: shift first, then keep `valueBits` bits and extend
  // their sign, if there are any.
  function ShiftFirst(stored: nat, isSigned: bool, valueBits: nat, shift: nat): int {
    var field := (stored / Pow2(shift)) % Pow2(valueBits);
    if isSigned && valueBits > 0 then Signed(field, valueBits) else field
  }

  function AbiValue(bits: nat, isSigned: bool, value: nat, valueBits: nat, shift: nat): int {
    ShiftFirst(value % Pow2(bits), isSigned, valueBits, shift)
  }

  lemma DivIsBelow(y: nat, m: nat, k: nat)
    requires m > 0
    ensures y / m < k <==> y < m * k
  {
    var q := y / m;
    assert y == m * q + y % m;
    assert m * (q - k) == m * q - m * k;
    MulBounds(m, q - k);
  }

  // Dropping low digits first or cutting high digits first is the same.
  lemma ShiftThenCut(x: nat, m: nat, n: nat, mn: nat)
    requires m > 0 && n > 0 && mn == m * n && mn > 0
    ensures (x / m) % n == (x % mn) / m
  {
    var q, y := x / mn, x % mn;
    assert x == mn * q + y;
    DivIsBelow(y, m, n);
    var a, b := y / m, y % m;
    assert y == m * a + b;
    MulGroups(m, n, q);
    assert m * (n * q + a) == m * (n * q) + m * a;
    DivModUnique(x, m, n * q + a, b);
    DivModUnique(x / m, n, q, a);
  }

  lemma MulGroups(m: nat, k: nat, q: nat)
    ensures (m * k) * q == m * (k * q)
  {
  }

  // Cutting y to n = m * k before dividing by m changes the quotient unless
  // there is nothing to cut.
  lemma CutShows(y: nat, m: nat, k: nat, n: nat)
    requires m > 0 && k > 0 && n == m * k && n > 0
    ensures y / m == (y % n) / m <==> y < n
    ensures (y % n) / m < k
  {
    DivIsBelow(y, m, k);
    DivIsBelow(y % n, m, k);
    if y < n {
      DivModUnique(y, n, 0, y);
    }
  }

  // y are the bits the kernel's field is taken from.
  lemma FieldOf(stored: nat, valueBits: nat, shift: nat, y: nat)
    requires y == stored % Pow2(shift + valueBits)
    ensures (stored / Pow2(shift)) % Pow2(valueBits) == y / Pow2(shift)
    ensures stored % Pow2(valueBits) == y % Pow2(valueBits)
  {
    Pow2Add(shift, valueBits);
    ShiftThenCut(stored, Pow2(shift), Pow2(valueBits), Pow2(shift + valueBits));
    ModMod(stored, valueBits, shift + valueBits);
  }

  // What masking first keeps of them.
  lemma KeptOf(y: nat, valueBits: nat, shift: nat)
    requires shift <= valueBits
    ensures var kept := (y % Pow2(valueBits)) / Pow2(shift);
      && (y / Pow2(shift) == kept <==> y < Pow2(valueBits))
      && kept < Pow2(valueBits - shift)
  {
    Pow2Add(shift, valueBits - shift);
    CutShows(y, Pow2(shift), Pow2(valueBits - shift), Pow2(valueBits));
  }

  lemma SignMatters(isSigned: bool, field: nat, kept: nat, y: nat, k: nat, shift: nat, valueBits: nat)
    requires valueBits > 0 && field < Pow2(valueBits) && kept < k
    requires field == kept <==> y < Pow2(valueBits)
    requires if shift == 0 then field == kept == y else k <= Pow2(valueBits - 1)
    ensures (if isSigned then Signed(field, valueBits) else field) == kept
      <==> y < Pow2(valueBits) && (isSigned && shift == 0 ==> y < Pow2(valueBits - 1))
  {
  }

  lemma NothingShifted(y: nat, valueBits: nat)
    requires y / Pow2(0) < Pow2(valueBits)
    ensures y / Pow2(0) == y && (y % Pow2(valueBits)) / Pow2(0) == y
  {
    assert Pow2(0) == 1;
    DivModUnique(y, Pow2(valueBits), 0, y);
  }

  lemma Narrower(valueBits: nat, shift: nat)
    requires 0 < shift <= valueBits
    ensures Pow2(valueBits - shift) <= Pow2(valueBits - 1)
  {
    Pow2Grows(valueBits - shift, valueBits - 1);
  }

  lemma Compare(isSigned: bool, y: nat, valueBits: nat, shift: nat, field: nat, kept: nat)
    requires 0 < valueBits && shift <= valueBits && field < Pow2(valueBits)
    requires field == y / Pow2(shift) && kept == (y % Pow2(valueBits)) / Pow2(shift)
    ensures (if isSigned then Signed(field, valueBits) else field) == kept
      <==> y < Pow2(valueBits) && (isSigned && shift == 0 ==> y < Pow2(valueBits - 1))
  {
    KeptOf(y, valueBits, shift);
    if shift > 0 {
      Narrower(valueBits, shift);
    } else {
      NothingShifted(y, valueBits);
    }
    SignMatters(isSigned, field, kept, y, Pow2(valueBits - shift), shift, valueBits);
  }

  lemma MaskFirstAgrees(stored: nat, isSigned: bool, valueBits: nat, shift: nat, y: nat)
    requires 0 < valueBits && shift <= valueBits && y == stored % Pow2(shift + valueBits)
    ensures (stored % Pow2(valueBits)) / Pow2(shift) == ShiftFirst(stored, isSigned, valueBits, shift)
      <==> y < Pow2(valueBits) && (isSigned && shift == 0 ==> y < Pow2(valueBits - 1))
  {
    var field, kept := (stored / Pow2(shift)) % Pow2(valueBits), (stored % Pow2(valueBits)) / Pow2(shift);
    FieldOf(stored, valueBits, shift, y);
    Compare(isSigned, y, valueBits, shift, field, kept);
  }

  // A field above the mask: nothing of it is left.
  lemma MaskedAwayAgrees(stored: nat, isSigned: bool, valueBits: nat, shift: nat, y: nat)
    requires valueBits < shift && y == stored % Pow2(shift + valueBits)
    ensures (stored % Pow2(valueBits)) / Pow2(shift) == 0
    ensures ShiftFirst(stored, isSigned, valueBits, shift) == 0 <==> y < Pow2(shift)
  {
    Pow2Grows(valueBits, shift);
    DivModUnique(stored % Pow2(valueBits), Pow2(shift), 0, stored % Pow2(valueBits));
    FieldOf(stored, valueBits, shift, y);
    DivIsBelow(y, Pow2(shift), 1);
  }

  // No value bits at all: both are zero.
  lemma NothingAgrees(stored: nat, isSigned: bool, shift: nat)
    ensures (stored % Pow2(0)) / Pow2(shift) == 0 == ShiftFirst(stored, isSigned, 0, shift)
    ensures stored % Pow2(shift) < Pow2(shift)
  {
    DivModUnique(0, Pow2(shift), 0, 0);
  }

  lemma QuotientBelow(x: nat, d: nat)
    requires d > 0
    ensures x / d <= x && (d == 1 ==> x / d == x)
  {
    var q := x / d;
    assert x == d * q + x % d;
    MulBounds(d, q);
  }

  // A value as wide as its storage or wider loses nothing in the kernel's rule.
  lemma WideField(stored: nat, bits: nat, valueBits: nat, shift: nat)
    requires 0 < bits <= valueBits && stored < Pow2(bits)
    ensures stored % Pow2(valueBits) == stored
    ensures var field := stored / Pow2(shift);
      && field % Pow2(valueBits) == field
      && (bits < valueBits || shift > 0 ==> field < Pow2(valueBits - 1))
      && (shift == 0 ==> field == stored)
  {
    var field := stored / Pow2(shift);
    Pow2Grows(bits, valueBits);
    DivModUnique(stored, Pow2(valueBits), 0, stored);
    QuotientBelow(stored, Pow2(shift));
    DivModUnique(field, Pow2(valueBits), 0, field);
    if bits < valueBits {
      Pow2Grows(bits, valueBits - 1);
    } else if shift > 0 {
      ShiftHalves(stored, shift, bits);
    }
  }

  lemma ShiftHalves(stored: nat, shift: nat, bits: nat)
    requires shift > 0 && bits > 0 && stored < Pow2(bits)
    ensures stored / Pow2(shift) < Pow2(bits - 1)
  {
    ModDoubled(stored, Pow2(shift - 1));
    var half, m := stored / 2, Pow2(shift - 1);
    assert half < Pow2(bits - 1);
    var q := half / m;
    assert half == m * q + half % m;
    MulBounds(m, q);
  }

  // A negative number stays negative under the program's arithmetic shift.
  lemma SignSurvives(stored: nat, bits: nat, shift: nat)
    requires bits > 0 && stored < Pow2(bits)
    ensures Signed(stored, bits) / Pow2(shift) >= 0 <==> stored < Pow2(bits - 1)
  {
    var m, x := Pow2(shift), Signed(stored, bits);
    var q := x / m;
    assert x == m * q + x % m;
    MulBounds(m, q);
    assert Pow2(bits) == 2 * Pow2(bits - 1);
  }

  lemma WideAgrees(bits: nat, isSigned: bool, stored: nat, valueBits: nat, shift: nat)
    requires 0 < bits <= valueBits && stored < Pow2(bits)
    ensures (if isSigned then Signed(stored, bits) / Pow2(shift) else (stored % Pow2(valueBits)) / Pow2(shift))
         == ShiftFirst(stored, isSigned, valueBits, shift)
      <==> !isSigned || (valueBits == bits && shift == 0) || stored < Pow2(bits - 1)
  {
    WideField(stored, bits, valueBits, shift);
    SignSurvives(stored, bits, shift);
    if shift == 0 {
      DivModUnique(Signed(stored, bits), Pow2(0), Signed(stored, bits), 0);
    }
  }

  // When the program reads what the kernel's rule gives. A value narrower than
  // its storage: y, the bits the field is taken from, must not reach above the
  // mask (or, for a field above the mask, into it), and with no shift to clear
  // the sign bit it must be below 2^(valueBits - 1) if the value is signed. A
  // wider one: unsigned, exactly the whole word, or not negative.
  predicate ReadsAsAbi(bits: nat, isSigned: bool, stored: nat, valueBits: nat, shift: nat)
    requires bits > 0
  {
    if valueBits < bits then
      var y := stored % Pow2(shift + valueBits);
      && y < Pow2(if shift <= valueBits then valueBits else shift)
      && (isSigned && shift == 0 && valueBits > 0 ==> y < Pow2(valueBits - 1))
    else !isSigned || (valueBits == bits && shift == 0) || stored < Pow2(bits - 1)
  }

  // For every format and every raw value.
  lemma AgreesWithAbiExactly(bits: nat, isSigned: bool, value: nat, valueBits: nat, shift: nat)
    requires bits > 0
    ensures Extracted(bits, isSigned, value, valueBits, shift) == AbiValue(bits, isSigned, value, valueBits, shift)
      <==> ReadsAsAbi(bits, isSigned, value % Pow2(bits), valueBits, shift)
  {
    var stored := value % Pow2(bits);
    var y := stored % Pow2(shift + valueBits);
    if bits <= valueBits {
      WideAgrees(bits, isSigned, stored, valueBits, shift);
    } else if valueBits == 0 {
      NothingAgrees(stored, isSigned, shift);
    } else if shift <= valueBits {
      MaskFirstAgrees(stored, isSigned, valueBits, shift, y);
    } else {
      MaskedAwayAgrees(stored, isSigned, valueBits, shift, y);
    }
  }

  // The thermocouple's format be:s13/16>>3: readings of 2^13 and above come out
  // wrong, so no negative temperature is ever read.
  lemma ThermocoupleAgreesExactly(value: nat)
    ensures Extracted(16, true, value, 13, 3) == AbiValue(16, true, value, 13, 3)
      <==> value % Pow2(16) < Pow2(13)
    ensures Extracted(16, true, value, 13, 3) >= 0
  {
    AgreesWithAbiExactly(16, true, value, 13, 3);
    DivModUnique(value % Pow2(16), Pow2(16), 0, value % Pow2(16));
    assert Pow2(3) == 8 && Pow2(13) == 8192 && Pow2(16) == 65536;
  }
}
