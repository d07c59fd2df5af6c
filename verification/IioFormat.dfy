// The sensor format string, such as be:s13/16>>3: what the parser accepts and
// what it stores. (The `_type` attributes of the kernel's sysfs-bus-iio ABI.)
module IioFormat {
  import opened Wrappers
  import opened MachineWords
  import opened BitArithmetic
  import opened IioValue

  datatype Format = Format(endian: Endian, isSigned: bool, valueBits: Byte, totalBits: Byte, shift: Byte)

  // ----- The library functions the parser uses -----

  predicate IsDigit(c: char) {
    '0' <= c <= '9'
  }

  function DigitValue(c: char): (d: nat)
    ensures d < 10
  {
    if IsDigit(c) then c as int - '0' as int else 0
  }

  predicate AllDigits(s: string) {
    forall k :: 0 <= k < |s| ==> IsDigit(s[k])
  }

  function NumberOf(s: string): nat {
    if s == [] then 0 else NumberOf(s[..|s| - 1]) * 10 + DigitValue(s[|s| - 1])
  }

  // The length of the longest prefix of digits.
  function DigitRun(s: string): (n: nat)
    ensures n <= |s|
  {
    if s == [] || !IsDigit(s[0]) then 0 else 1 + DigitRun(s[1..])
  }

  lemma {:induction false} DigitRunStops(s: string)
    ensures AllDigits(s[..DigitRun(s)])
    ensures DigitRun(s) < |s| ==> !IsDigit(s[DigitRun(s)])
    decreases |s|
  {
    if s != [] && IsDigit(s[0]) {
      DigitRunStops(s[1..]);
      var n := DigitRun(s[1..]);
      assert s[..1 + n] == [s[0]] + s[1..][..n];
      assert n + 1 < |s| ==> s[n + 1] == s[1..][n];
    }
  }

  lemma {:induction false} RunEndsBefore(s: string, k: nat)
    requires k < |s| && !IsDigit(s[k])
    ensures DigitRun(s) <= k
    decreases k
  {
    if k > 0 && IsDigit(s[0]) {
      RunEndsBefore(s[1..], k - 1);
    }
  }

  // std::from_chars into a byte: the leading digits, if there are any and their
  // value fits; what follows them is ignored.
  function FromChars(s: string): Option<Byte> {
    var n := DigitRun(s);
    if n == 0 then None
    else
      var value := NumberOf(s[..n]);
      if value > 255 then None else Some(value)
  }

  // find_first_of
  function FindFirst(s: string, c: char): (r: Option<nat>)
    ensures r.Some? ==> r.value < |s| && s[r.value] == c
  {
    if s == [] then None
    else if s[0] == c then Some(0)
    else
      var rest := FindFirst(s[1..], c);
      if rest.Some? then Some(rest.value + 1) else None
  }

  lemma {:induction false} NoneBefore(s: string, c: char)
    ensures var r := FindFirst(s, c); c !in (if r.Some? then s[..r.value] else s)
    decreases |s|
  {
    if s != [] && s[0] != c {
      NoneBefore(s[1..], c);
      var r := FindFirst(s[1..], c);
      assert s == [s[0]] + s[1..];
      assert r.Some? ==> s[..r.value + 1] == [s[0]] + s[1..][..r.value];
    }
  }

  // find_last_not_of
  function FindLastNot(s: string, c: char): (r: Option<nat>)
    ensures r.Some? ==> r.value < |s| && s[r.value] != c
  {
    if s == [] then None
    else if s[|s| - 1] != c then Some(|s| - 1)
    else FindLastNot(s[..|s| - 1], c)
  }

  lemma {:induction false} OnlyAfter(s: string, c: char)
    ensures FindLastNot(s, c).Some? ==> forall k :: FindLastNot(s, c).value < k < |s| ==> s[k] == c
    decreases |s|
  {
    if s != [] && s[|s| - 1] == c {
      OnlyAfter(s[..|s| - 1], c);
    }
  }

  // substr; a start beyond the end is what throws std::out_of_range.
  function Substr(s: string, pos: nat, count: nat): string
    requires pos <= |s|
  {
    if pos + count <= |s| then s[pos..pos + count] else s[pos..]
  }

  // ----- Decimal text -----

  function DigitChar(d: nat): char
    requires d < 10
  {
    ('0' as int + d) as char
  }

  function Dec(n: nat): string {
    if n < 10 then [DigitChar(n)] else Dec(n / 10) + [DigitChar(n % 10)]
  }

  // fmt::format("{}", n)
  function IntText(n: int): string {
    if n < 0 then "-" + Dec(-n) else Dec(n)
  }

  // A decimal numeral without leading zeros.
  predicate IsNumeral(s: string) {
    s != [] && AllDigits(s) && (s[0] == '0' ==> |s| == 1)
  }

  // s is the decimal text of n: a numeral of that value, or for a negative number
  // a minus sign and the numeral of its negation.
  predicate TextOf(s: string, n: int) {
    if n >= 0 then IsNumeral(s) && NumberOf(s) == n
    else s != [] && s[0] == '-' && IsNumeral(s[1..]) && NumberOf(s[1..]) == -n
  }

  // ----- What a format string means -----

  // The fields in terms of suffixes of the string. From the first '>' on: the
  // shift, at the last character that is not a '>'.
  function ParseShift(fromGt: string): Option<Byte> {
    var last := FindLastNot(fromGt, '>');
    if last.None? then None else FromChars(fromGt[last.value..])
  }

  function WithTotalBits(totalBits: Option<Byte>, shift: Option<Byte>): Option<(Byte, Byte)> {
    if totalBits.None? || shift.None? then None else Some((totalBits.value, shift.value))
  }

  // From the '/' on: the storage width and the shift.
  function ParseTotalBits(fromSlash: string): Option<(Byte, Byte)>
    requires fromSlash != []
  {
    var gt := FindFirst(fromSlash, '>');
    if gt.None? then None
    else WithTotalBits(FromChars(Substr(fromSlash, 1, gt.value)), ParseShift(fromSlash[gt.value..]))
  }

  function WithValueBits(valueBits: Option<Byte>, rest: Option<(Byte, Byte)>): Option<(Byte, Byte, Byte)> {
    if valueBits.None? || rest.None? then None else Some((valueBits.value, rest.value.0, rest.value.1))
  }

  // From the sign on: the value width, the storage width and the shift.
  function ParseValueBits(fromSign: string): Option<(Byte, Byte, Byte)>
    requires fromSign != []
  {
    var slash := FindFirst(fromSign, '/');
    if slash.None? then None
    else WithValueBits(FromChars(Substr(fromSign, 1, slash.value)), ParseTotalBits(fromSign[slash.value..]))
  }

  // The endianness, a separator, the sign, and the rest.
  function ParseFormat(s: string): Option<Format> {
    if |s| < 4 || (s[0] != 'b' && s[0] != 'l') || s[1] != 'e' then None
    else
      var rest := ParseValueBits(s[3..]);
      if rest.None? then None
      else Some(Format(if s[0] == 'b' then Big else Little, s[3] == 's',
                       rest.value.0, rest.value.1, rest.value.2))
  }

  // What the head decides, and what is left to the rest.
  lemma FormatFrom(s: string, fromSign: string)
    requires |s| >= 4 && (s[0] == 'b' || s[0] == 'l') && s[1] == 'e' && fromSign == s[3..]
    ensures ParseFormat(s) == match ParseValueBits(fromSign)
      case None => None
      case Some(rest) => Some(Format(if s[0] == 'b' then Big else Little, s[3] == 's', rest.0, rest.1, rest.2))
  {
  }

  lemma SliceOfSlice(s: string, a: nat, b: nat)
    requires a + b <= |s|
    ensures s[a..][b..] == s[a + b..]
  {
  }

  // ----- The parser -----

  class FormatParser {
    var parserPosition: nat
    var formatHolder: Option<Format>

    constructor ()
      ensures formatHolder.None?
    {
      parserPosition, formatHolder := 0, None;
    }

    // The format of the string is stored, and a rejected string leaves none
    // behind. Every chunk starts inside the string, as TakeChunk requires.
    method SetFormat(currentFormat: string)
      modifies this
      ensures formatHolder == ParseFormat(currentFormat)
    {
      formatHolder := None;
      parserPosition := 0;

      var chunk := TakeChunk(currentFormat);
      assert chunk == currentFormat;
      var endian := GetEndian(chunk);
      if endian.None? {
        return;
      }
      chunk := TakeChunk(currentFormat);
      assert |chunk| == |currentFormat| - 1;
      var isSignedType := IsSigned(chunk);
      if isSignedType.None? {
        return;
      }
      assert currentFormat[3] == chunk[2];
      chunk := TakeChunk(currentFormat);
      var widths := ReadFromSign(currentFormat, chunk);
      FormatFrom(currentFormat, chunk);
      if widths.Some? {
        formatHolder := Some(Format(endian.value, isSignedType.value, widths.value.0, widths.value.1, widths.value.2));
      }
    }

    // The rest of the string, from the sign on.
    method ReadFromSign(currentFormat: string, fromSign: string) returns (widths: Option<(Byte, Byte, Byte)>)
      requires parserPosition <= |currentFormat| && fromSign == currentFormat[parserPosition..] && fromSign != []
      modifies `parserPosition
      ensures widths == ParseValueBits(fromSign)
    {
      ghost var start := parserPosition;
      var valueBits := GetValueBits(fromSign);
      if valueBits.None? {
        return None;
      }
      SliceOfSlice(currentFormat, start, parserPosition - start);
      var fromSlash := TakeChunk(currentFormat);
      var rest := ReadFromSlash(currentFormat, fromSlash);
      return WithValueBits(valueBits, rest);
    }

    // And from the slash on.
    method ReadFromSlash(currentFormat: string, fromSlash: string) returns (rest: Option<(Byte, Byte)>)
      requires parserPosition <= |currentFormat| && fromSlash == currentFormat[parserPosition..] && fromSlash != []
      modifies `parserPosition
      ensures rest == ParseTotalBits(fromSlash)
    {
      ghost var start := parserPosition;
      var totalBits := GetTotalBits(fromSlash);
      if totalBits.None? {
        return None;
      }
      SliceOfSlice(currentFormat, start, parserPosition - start);
      var chunk := TakeChunk(currentFormat);
      var bitShift := GetBitshift(chunk);
      return WithTotalBits(totalBits, bitShift);
    }

    // A position beyond the end would throw.
    method TakeChunk(toOffset: string) returns (chunk: string)
      requires parserPosition <= |toOffset|
      ensures chunk == toOffset[parserPosition..]
    {
      return toOffset[parserPosition..];
    }

    method GetEndian(sourceString: string) returns (endian: Option<Endian>)
      modifies `parserPosition
      ensures endian.Some? <==>
        |sourceString| >= 2 && (sourceString[0] == 'b' || sourceString[0] == 'l') && sourceString[1] == 'e'
      ensures endian.Some? ==>
        parserPosition == 1 && endian.value == (if sourceString[0] == 'b' then Big else Little)
      ensures endian.None? ==> parserPosition == old(parserPosition)
    {
      var it := 0;
      if it == |sourceString| {
        return None;
      }
      if sourceString[it] == 'b' || sourceString[it] == 'l' {
        var currentToken := sourceString[it];
        it := it + 1;
        if it == |sourceString| {
          return None;
        }
        if sourceString[it] != 'e' {
          return None;
        }
        parserPosition := it;
        return if currentToken == 'b' then Some(Big) else Some(Little);
      }
      return None;
    }

    // Whatever the separator is; anything but 's' is unsigned.
    method IsSigned(sourceString: string) returns (isSigned: Option<bool>)
      modifies `parserPosition
      ensures isSigned.Some? <==> |sourceString| > 2
      ensures isSigned.Some? ==>
        parserPosition == old(parserPosition) + 2 && isSigned.value == (sourceString[2] == 's')
      ensures isSigned.None? ==> parserPosition == old(parserPosition)
    {
      var it := 0;
      if it == |sourceString| {
        return None;
      }
      it := it + 1;
      if it == |sourceString| {
        return None;
      }
      it := it + 1;
      if it == |sourceString| {
        return None;
      }
      parserPosition := parserPosition + it;
      return Some(sourceString[it] == 's');
    }

    // What it reads, and what is then left to read from the new position.
    method GetValueBits(sourceString: string) returns (bits: Option<Byte>)
      requires sourceString != []
      modifies `parserPosition
      ensures bits.None? ==> parserPosition == old(parserPosition) && ParseValueBits(sourceString).None?
      ensures bits.Some? ==>
        && old(parserPosition) <= parserPosition < old(parserPosition) + |sourceString|
        && var rest := sourceString[parserPosition - old(parserPosition)..];
           rest[0] == '/' && ParseValueBits(sourceString) == WithValueBits(bits, ParseTotalBits(rest))
    {
      var bitsSubstrIdx := FindFirst(sourceString, '/');
      if bitsSubstrIdx.None? {
        return None;
      }
      var bitsSubstr := Substr(sourceString, 1, bitsSubstrIdx.value);
      var result := FromChars(bitsSubstr);
      if result.None? {
        return None;
      }
      parserPosition := parserPosition + bitsSubstrIdx.value;
      return result;
    }

    method GetTotalBits(sourceString: string) returns (bits: Option<Byte>)
      requires sourceString != []
      modifies `parserPosition
      ensures old(parserPosition) <= parserPosition < old(parserPosition) + |sourceString|
      ensures bits.None? ==> ParseTotalBits(sourceString).None?
      ensures bits.Some? ==>
        var rest := sourceString[parserPosition - old(parserPosition)..];
        rest[0] == '>' && ParseTotalBits(sourceString) == WithTotalBits(bits, ParseShift(rest))
    {
      var bitsSubstrIdx := FindFirst(sourceString, '>');
      if bitsSubstrIdx.None? {
        return None;
      }
      var bitsSubstr := Substr(sourceString, 1, bitsSubstrIdx.value);
      parserPosition := parserPosition + bitsSubstrIdx.value;
      return FromChars(bitsSubstr);
    }

    method GetBitshift(sourceString: string) returns (shift: Option<Byte>)
      ensures shift == ParseShift(sourceString)
    {
      if |sourceString| == 0 {
        return None;
      }
      var pos := FindLastNot(sourceString, '>');
      if pos.None? {
        return None;
      }
      return FromChars(sourceString[pos.value..]);
    }

    // Nothing without an accepted format or for another storage width than 8,
    // 16 or 32; otherwise the text of exactly the extracted value, in which the
    // byte order plays no part. A value width above 32 would shift out of range.
    method ParseValue(value: UInt32) returns (text: Option<string>)
      requires formatHolder.Some? && formatHolder.value.totalBits in {8, 16, 32} ==> formatHolder.value.valueBits <= 32
      ensures text.Some? <==> formatHolder.Some? && formatHolder.value.totalBits in {8, 16, 32}
      ensures text.Some? ==>
        var f := formatHolder.value;
        TextOf(text.value, Extracted(f.totalBits, f.isSigned, value, f.valueBits, f.shift))
    {
      if formatHolder.None? {
        return None;
      }
      var totalBits := formatHolder.value.totalBits;
      if totalBits == 8 || totalBits == 16 || totalBits == 32 {
        var native := ProcessConcreteTag(totalBits, value);
        IntTextExactly(IntText(native), native);
        return Some(IntText(native));
      }
      return None;
    }

    method ProcessConcreteTag(totalBits: nat, value: UInt32) returns (native: int)
      requires formatHolder.Some? && formatHolder.value.valueBits <= 32 && totalBits in {8, 16, 32}
      ensures var f := formatHolder.value;
        native == Extracted(totalBits, f.isSigned, value, f.valueBits, f.shift)
    {
      var f := formatHolder.value;
      var bitmask := CreateBitmask(f.valueBits);
      ExtractionIsExact(f.endian, totalBits, f.isSigned, value, f.valueBits, bitmask, f.shift);
      return MaskShift(f.endian, totalBits, f.isSigned, value, bitmask, f.shift);
    }
  }

  // ----- The accepted language -----

  // An accepted string from its '/' on: the digits of the storage width, what is
  // ignored behind them, what is ignored before the shift digit, the digit, and
  // the number of '>' after it.
  datatype Tail = Tail(t: string, afterT: string, middle: string, shift: char, closing: nat)

  // The whole string; `v` are the digits of the value width.
  datatype Parts = Parts(big: bool, separator: char, sign: char, v: string, afterV: string, tail: Tail)

  function Repeat(c: char, n: nat): (s: string)
    ensures |s| == n && forall k :: 0 <= k < n ==> s[k] == c
  {
    if n == 0 then "" else [c] + Repeat(c, n - 1)
  }

  predicate Number(digits: string, ignored: string, stop: char) {
    && digits != [] && AllDigits(digits) && NumberOf(digits) <= 255
    && stop !in ignored && (ignored != [] ==> !IsDigit(ignored[0]))
  }

  predicate LegalTail(p: Tail) {
    Number(p.t, p.afterT, '>') && IsDigit(p.shift)
  }

  predicate Legal(p: Parts) {
    p.sign != '/' && Number(p.v, p.afterV, '/') && LegalTail(p.tail)
  }

  function FromGt(p: Tail): string {
    ">" + p.middle + [p.shift] + Repeat('>', p.closing)
  }

  function FromSlash(p: Tail): string {
    "/" + p.t + p.afterT + FromGt(p)
  }

  function FromSign(p: Parts): string {
    [p.sign] + p.v + p.afterV + FromSlash(p.tail)
  }

  function Text(p: Parts): string {
    [if p.big then 'b' else 'l', 'e', p.separator] + FromSign(p)
  }

  function FormatOf(p: Parts): Format
    requires Legal(p)
  {
    Format(if p.big then Big else Little, p.sign == 's', NumberOf(p.v), NumberOf(p.tail.t), DigitValue(p.tail.shift))
  }

  lemma {:induction false} FindFirstAt(a: string, c: char, b: string)
    requires c !in a
    ensures FindFirst(a + [c] + b, c) == Some(|a|)
    decreases |a|
  {
    if a == [] {
      assert (a + [c] + b)[0] == c;
    } else {
      assert (a + [c] + b)[1..] == a[1..] + [c] + b && (a + [c] + b)[0] == a[0];
      FindFirstAt(a[1..], c, b);
    }
  }

  lemma {:induction false} FindLastNotAt(a: string, d: char, c: char, n: nat)
    requires d != c
    ensures FindLastNot(a + [d] + Repeat(c, n), c) == Some(|a|)
    decreases n
  {
    var s := a + [d] + Repeat(c, n);
    if n > 0 {
      assert s[..|s| - 1] == a + [d] + Repeat(c, n - 1);
      FindLastNotAt(a, d, c, n - 1);
    }
  }

  lemma {:induction false} DigitRunIs(digits: string, rest: string)
    requires AllDigits(digits) && (rest != [] ==> !IsDigit(rest[0]))
    ensures DigitRun(digits + rest) == |digits|
    decreases |digits|
  {
    var s := digits + rest;
    if digits == [] {
      assert s == rest;
    } else {
      assert s[1..] == digits[1..] + rest && s[0] == digits[0];
      DigitRunIs(digits[1..], rest);
    }
  }

  // Digits followed by a non-digit read back as their number.
  lemma FromCharsReads(digits: string, rest: string)
    requires digits != [] && AllDigits(digits) && NumberOf(digits) <= 255
    requires rest != [] ==> !IsDigit(rest[0])
    ensures FromChars(digits + rest) == Some(NumberOf(digits))
  {
    DigitRunIs(digits, rest);
    assert (digits + rest)[..|digits|] == digits;
  }

  lemma DigitsLack(digits: string, c: char)
    requires AllDigits(digits) && !IsDigit(c)
    ensures c !in digits
  {
  }

  lemma ShiftRead(p: Tail)
    requires LegalTail(p)
    ensures ParseShift(FromGt(p)) == Some(DigitValue(p.shift))
  {
    var before := ">" + p.middle;
    FindLastNotAt(before, p.shift, '>', p.closing);
    assert FromGt(p)[|before|..] == [p.shift] + Repeat('>', p.closing);
    assert [p.shift][..0] == [];
    FromCharsReads([p.shift], Repeat('>', p.closing));
  }

  lemma TotalBitsRead(p: Tail)
    requires LegalTail(p)
    ensures ParseTotalBits(FromSlash(p)) == Some((NumberOf(p.t), DigitValue(p.shift)))
  {
    DigitsLack(p.t, '>');
    var before := "/" + p.t + p.afterT;
    var rest := p.middle + [p.shift] + Repeat('>', p.closing);
    assert FromGt(p) == ['>'] + rest;
    assert FromSlash(p) == before + (['>'] + rest) == before + ['>'] + rest;
    FindFirstAt(before, '>', rest);
    assert Substr(FromSlash(p), 1, |before|) == p.t + (p.afterT + ">");
    FromCharsReads(p.t, p.afterT + ">");
    assert FromSlash(p)[|before|..] == FromGt(p);
    ShiftRead(p);
  }

  lemma ValueBitsRead(p: Parts)
    requires Legal(p)
    ensures ParseValueBits(FromSign(p)) == Some((NumberOf(p.v), NumberOf(p.tail.t), DigitValue(p.tail.shift)))
  {
    DigitsLack(p.v, '/');
    var before := [p.sign] + p.v + p.afterV;
    var rest := p.tail.t + p.tail.afterT + FromGt(p.tail);
    assert FromSlash(p.tail) == ['/'] + rest;
    assert FromSign(p) == before + (['/'] + rest) == before + ['/'] + rest;
    FindFirstAt(before, '/', rest);
    assert Substr(FromSign(p), 1, |before|) == p.v + (p.afterV + "/");
    FromCharsReads(p.v, p.afterV + "/");
    assert FromSign(p)[|before|..] == FromSlash(p.tail);
    TotalBitsRead(p.tail);
  }

  // Every legal text is accepted with its fields: nothing it ignores matters.
  lemma LegalTextParses(p: Parts)
    requires Legal(p)
    ensures ParseFormat(Text(p)) == Some(FormatOf(p))
  {
    ValueBitsRead(p);
    var s := Text(p);
    assert s[3..] == FromSign(p);
    assert s[3] == FromSign(p)[0] == p.sign;
    FormatFrom(s, FromSign(p));
  }

  // The digits and the ignored rest of a field that reads as a number.
  lemma SplitNumber(x: string, i: nat, stop: char) returns (digits: string, ignored: string)
    requires i < |x| && x[i] == stop && !IsDigit(stop) && stop !in x[..i]
    requires FromChars(Substr(x, 1, i)).Some?
    ensures i >= 1 && Number(digits, ignored, stop)
    ensures x[..i] == [x[0]] + digits + ignored
  {
    assert i >= 1;
    var body := x[1..i];
    var sub := Substr(x, 1, i);
    var n := DigitRun(sub);
    DigitRunStops(sub);
    assert sub == body + [stop];
    RunEndsBefore(sub, |body|);
    digits, ignored := body[..n], body[n..];
    assert sub[..n] == digits;
    assert ignored != [] ==> ignored[0] == sub[n];
    assert x[..i] == [x[0]] + body && body == digits + ignored;
    assert forall c :: c in ignored ==> c in body;
    assert forall c :: c in body ==> c in x[..i];
  }

  lemma SplitShift(x: string) returns (middle: string, shift: char, closing: nat)
    requires x != [] && x[0] == '>' && ParseShift(x).Some?
    ensures IsDigit(shift) && x == ">" + middle + [shift] + Repeat('>', closing)
  {
    var at := FindLastNot(x, '>').value;
    OnlyAfter(x, '>');
    middle, shift, closing := x[1..at], x[at], |x| - at - 1;
    assert x[at..][0] == shift;
    assert x == ">" + middle + [shift] + Repeat('>', closing);
  }

  // Cutting a field off in front of its stop character.
  lemma CutField(x: string, c: char) returns (first: char, digits: string, ignored: string, rest: string)
    requires x != [] && !IsDigit(c)
    requires var r := FindFirst(x, c); r.Some? && FromChars(Substr(x, 1, r.value)).Some?
    ensures Number(digits, ignored, c) && first == x[0]
    ensures x == [first] + digits + ignored + rest
    ensures rest == x[FindFirst(x, c).value..] && rest[0] == c
    ensures first != c
  {
    var i := FindFirst(x, c).value;
    NoneBefore(x, c);
    digits, ignored := SplitNumber(x, i, c);
    first, rest := x[0], x[i..];
    assert x == x[..i] + rest;
    assert x[..i][0] == x[0];
  }

  lemma SplitTotalBits(x: string) returns (p: Tail)
    requires x != [] && x[0] == '/' && ParseTotalBits(x).Some?
    ensures LegalTail(p) && x == FromSlash(p)
  {
    var first, t, afterT, rest := CutField(x, '>');
    var middle, shift, closing := SplitShift(rest);
    p := Tail(t, afterT, middle, shift, closing);
  }

  lemma SplitValueBits(x: string) returns (p: Parts)
    requires x != [] && ParseValueBits(x).Some?
    ensures Legal(p) && x == FromSign(p) && p.sign == x[0]
  {
    var first, v, afterV, rest := CutField(x, '/');
    var tail := SplitTotalBits(rest);
    p := Parts(true, ':', first, v, afterV, tail);
  }

  // And nothing else is accepted.
  lemma AcceptedIsLegal(s: string) returns (p: Parts)
    requires ParseFormat(s).Some?
    ensures Legal(p) && Text(p) == s
  {
    var tail := s[3..];
    p := SplitValueBits(tail);
    p := p.(big := s[0] == 'b', separator := s[2]);
    var head := [s[0], s[1], s[2]];
    assert head == [if p.big then 'b' else 'l', 'e', p.separator];
    assert s == head + tail;
  }

  // Exactly the legal texts are accepted, each with the fields of its parts.
  lemma AcceptsExactly(s: string, f: Format)
    ensures ParseFormat(s) == Some(f) <==> exists p :: Legal(p) && Text(p) == s && FormatOf(p) == f
  {
    if ParseFormat(s) == Some(f) {
      var p := AcceptedIsLegal(s);
      LegalTextParses(p);
      assert Legal(p) && Text(p) == s && FormatOf(p) == f;
    }
    if p :| Legal(p) && Text(p) == s && FormatOf(p) == f {
      LegalTextParses(p);
    }
  }

  // ----- Printed formats -----

  lemma {:induction false} DecReads(n: nat)
    ensures Dec(n) != [] && AllDigits(Dec(n)) && NumberOf(Dec(n)) == n
    ensures Dec(n)[0] == '0' ==> n == 0
    ensures Dec(n)[|Dec(n)| - 1] == DigitChar(n % 10)
  {
    if n < 10 {
      assert Dec(n)[..0] == [];
    } else {
      DecReads(n / 10);
      assert Dec(n)[..|Dec(n)| - 1] == Dec(n / 10);
    }
  }

  // A numeral is determined by its value.
  lemma {:induction false} NumeralIsDec(s: string)
    requires IsNumeral(s)
    ensures s == Dec(NumberOf(s))
  {
    var p, c := s[..|s| - 1], s[|s| - 1];
    assert s == p + [c];
    if |s| > 1 {
      NumeralIsDec(p);
      assert p[0] == s[0];
      assert NumberOf(p) == 0 ==> p == "0";
      DecExtends(NumberOf(p), c);
    }
  }

  lemma DecExtends(n: nat, c: char)
    requires n > 0 && IsDigit(c)
    ensures Dec(n * 10 + DigitValue(c)) == Dec(n) + [c]
  {
    var m := n * 10 + DigitValue(c);
    assert m / 10 == n && m % 10 == DigitValue(c);
  }

  // The text of an integer reads back as it, and no other such text does.
  lemma IntTextExactly(s: string, n: int)
    ensures s == IntText(n) <==> TextOf(s, n)
  {
    var m := if n < 0 then -n else n;
    DecReads(m);
    assert n < 0 ==> ("-" + Dec(m))[1..] == Dec(m);
    if TextOf(s, n) {
      NumeralIsDec(if n < 0 then s[1..] else s);
      assert n < 0 ==> s == "-" + s[1..];
    }
  }

  // be|le : s|u V / T >> S
  function Layout(endian: Endian, isSigned: bool, v: string, t: string, shift: string): string {
    [if endian.Big? then 'b' else 'l', 'e', ':', if isSigned then 's' else 'u'] + v + "/" + t + ">>" + shift
  }

  function Print(endian: Endian, isSigned: bool, valueBits: nat, totalBits: nat, shift: nat): string {
    Layout(endian, isSigned, Dec(valueBits), Dec(totalBits), Dec(shift))
  }

  lemma LayoutIsText(endian: Endian, isSigned: bool, v: string, t: string, m: string, d: char)
    ensures Text(Parts(endian.Big?, ':', if isSigned then 's' else 'u', v, "", Tail(t, "", ">" + m, d, 0)))
         == Layout(endian, isSigned, v, t, m + [d])
  {
  }

  lemma LayoutParses(endian: Endian, isSigned: bool, v: string, t: string, shift: string)
    requires v != [] && AllDigits(v) && NumberOf(v) <= 255
    requires t != [] && AllDigits(t) && NumberOf(t) <= 255
    requires shift != [] && IsDigit(shift[|shift| - 1])
    ensures ParseFormat(Layout(endian, isSigned, v, t, shift))
         == Some(Format(endian, isSigned, NumberOf(v), NumberOf(t), DigitValue(shift[|shift| - 1])))
  {
    var m, d := shift[..|shift| - 1], shift[|shift| - 1];
    assert shift == m + [d];
    LayoutIsText(endian, isSigned, v, t, m, d);
    LegalTextParses(Parts(endian.Big?, ':', if isSigned then 's' else 'u', v, "", Tail(t, "", ">" + m, d, 0)));
  }

  // Parsing inverts printing, except that only the last digit of the shift counts.
  lemma ParseInvertsPrint(endian: Endian, isSigned: bool, valueBits: Byte, totalBits: Byte, shift: nat)
    ensures ParseFormat(Print(endian, isSigned, valueBits, totalBits, shift))
         == Some(Format(endian, isSigned, valueBits, totalBits, shift % 10))
  {
    DecReads(valueBits);
    DecReads(totalBits);
    DecReads(shift);
    var v, t, d := Dec(valueBits), Dec(totalBits), Dec(shift);
    assert DigitValue(DigitChar(shift % 10)) == shift % 10;
    LayoutParses(endian, isSigned, v, t, d);
  }

  // Every accepted shift is a single digit.
  lemma AcceptedShift(s: string)
    ensures ParseFormat(s).Some? ==> ParseFormat(s).value.shift < 10
  {
    if ParseFormat(s).Some? {
      var p := AcceptedIsLegal(s);
      LegalTextParses(p);
    }
  }

  lemma TwoDigits(a: char, b: char)
    requires IsDigit(a) && IsDigit(b)
    ensures NumberOf([a, b]) == 10 * DigitValue(a) + DigitValue(b)
  {
    assert [a][..0] == [];
    assert NumberOf([a]) == DigitValue(a);
    assert [a, b][..1] == [a];
  }

  // The thermocouple's format string.
  lemma ThermocoupleFormat()
    ensures ParseFormat("be:s13/16>>3") == Some(Format(Big, true, 13, 16, 3))
  {
    TwoDigits('1', '3');
    TwoDigits('1', '6');
    var v, t, shift := "13", "16", "3";
    assert v == ['1', '3'] && t == ['1', '6'];
    assert DigitValue('1') == 1 && DigitValue('3') == 3 && DigitValue('6') == 6;
    assert NumberOf(v) == 13 && NumberOf(t) == 16 && AllDigits(v) && AllDigits(t);
    LayoutParses(Big, true, v, t, shift);
    LayoutOfThermocouple();
  }

  lemma LayoutOfThermocouple()
    ensures Layout(Big, true, "13", "16", "3") == "be:s13/16>>3"
  {
  }

  // Its raw reading 172 comes out as 21.
  lemma ThermocoupleReading()
    ensures IntText(Extracted(16, true, 172, 13, 3)) == "21"
  {
    assert Pow2(3) == 8 && Pow2(13) == 8192 && Pow2(16) == 65536;
    assert Dec(2) == "2";
  }
}
