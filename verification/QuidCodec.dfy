/** Encoding six random bytes as a nine-digit persisted identity, with the source's 32-bit shifts. */
module QuidCodec {
  import opened Prelude

  type Byte = b: int | 0 <= b < 256

  const QUID_LENGTH := 9
  const BYTE_LENGTH := 6
  const ALPHABET := "0123456789abcdefghjkmnpqrstvwxyz"

  predicate IsPersisted(quid: string) {
    |quid| == QUID_LENGTH && forall i | 0 <= i < |quid| :: quid[i] in ALPHABET
  }

  // ---------------------------------------------------------------- 32-bit operators

  const WORD := 0x1_0000_0000

  function ToInt32(x: int): int {
    if x % WORD >= 0x8000_0000 then x % WORD - WORD else x % WORD
  }

  function ToUint32(x: int): int {
    x % WORD
  }

  /** (buffer << 8) | byte on signed words: the shift leaves the low eight bits clear. */
  function ShiftIn(buffer: int, byte: Byte): int {
    ToInt32(buffer * 256) + byte
  }

  /** A logical right shift. */
  function ShiftRight(n: nat, bits: nat): nat {
    if bits == 0 then n else ShiftRight(n, bits - 1) / 2
  }

  /** (buffer >>> bits) & 31. */
  function FiveBits(buffer: int, bits: nat): (digit: int)
    ensures 0 <= digit < 32
  {
    ShiftRight(ToUint32(buffer), bits) % 32
  }

  lemma Shifts(n: nat)
    ensures ShiftRight(n, 0) == n && ShiftRight(n, 1) == n / 2 && ShiftRight(n, 2) == n / 4
    ensures ShiftRight(n, 3) == n / 8 && ShiftRight(n, 4) == n / 16 && ShiftRight(n, 5) == n / 32
    ensures ShiftRight(n, 6) == n / 64 && ShiftRight(n, 7) == n / 128 && ShiftRight(n, 8) == n / 256
    ensures ShiftRight(n, 9) == n / 512 && ShiftRight(n, 10) == n / 1024 && ShiftRight(n, 11) == n / 2048
    ensures ShiftRight(n, 12) == n / 4096
  {
  }

  // ---------------------------------------------------------------- numbers

  /** The bytes as one big-endian number. */
  function Number(bytes: seq<Byte>): nat {
    if bytes == [] then 0 else Number(bytes[..|bytes| - 1]) * 256 + bytes[|bytes| - 1]
  }

  /** Base-32 digits as one number, most significant first. */
  function Value(digits: seq<nat>): nat {
    if digits == [] then 0 else Value(digits[..|digits| - 1]) * 32 + digits[|digits| - 1]
  }

  function Spelled(digits: seq<nat>): (s: string)
    requires forall i | 0 <= i < |digits| :: digits[i] < 32
    ensures |s| == |digits|
    ensures forall i | 0 <= i < |s| :: s[i] == ALPHABET[digits[i]]
  {
    seq(|digits|, i requires 0 <= i < |digits| => ALPHABET[digits[i]])
  }

  /** The first 45 bits of six bytes. */
  function Leading45(bytes: seq<Byte>): nat {
    Number(bytes) / 8
  }

  lemma FiveBitsSplit(w: int, u: int, scale: int, step: int)
    requires (scale == 1 && step == 0x800_0000) || (scale == 2 && step == 0x400_0000) || (scale == 4 && step == 0x200_0000)
          || (scale == 8 && step == 0x100_0000) || (scale == 16 && step == 0x80_0000) || (scale == 32 && step == 0x40_0000)
          || (scale == 64 && step == 0x20_0000) || (scale == 128 && step == 0x10_0000)
    ensures (WORD * w + u) / scale == 32 * (step * w) + u / scale
  {
  }

  /** The low bits of a word survive the wrap-around. */
  lemma FiveBitsOfWord(n: nat, buffer: int, bits: nat)
    requires bits <= 7 && ToUint32(buffer) == n % WORD
    ensures FiveBits(buffer, bits) == ShiftRight(n, bits) % 32
  {
    Shifts(n);
    Shifts(n % WORD);
    var w, u := n / WORD, n % WORD;
    var (scale, step) := match bits
      case 0 => (1, 0x800_0000) case 1 => (2, 0x400_0000) case 2 => (4, 0x200_0000) case 3 => (8, 0x100_0000)
      case 4 => (16, 0x80_0000) case 5 => (32, 0x40_0000) case 6 => (64, 0x20_0000) case _ => (128, 0x10_0000);
    assert n == WORD * w + u;
    FiveBitsSplit(w, u, scale, step);
    SameFiveBits(step * w, u / scale);
  }

  lemma SameFiveBits(q: int, r: int)
    ensures (32 * q + r) % 32 == r % 32
  {
  }

  lemma WordOf(x: int, y: int, q: int)
    requires x == WORD * q + y
    ensures x % WORD == y % WORD
  {
  }

  lemma LowByteFree(u: nat, byte: Byte)
    requires u < WORD
    ensures u * 256 % WORD + byte < WORD
    ensures (u * 256 % WORD + byte) % WORD == (u * 256 + byte) % WORD
  {
  }

  /** Shifting in a byte keeps the word equal to the number modulo 2 to the 32. */
  lemma ShiftInWord(n: nat, buffer: int, byte: Byte)
    requires ToUint32(buffer) == n % WORD
    ensures ToUint32(ShiftIn(buffer, byte)) == (n * 256 + byte) % WORD
    ensures -0x8000_0000 <= ShiftIn(buffer, byte) < 0x8000_0000
  {
    WordOf(n * 256 + byte, n % WORD * 256 + byte, 256 * (n / WORD));
    WordOf(buffer * 256, n % WORD * 256, 256 * (buffer / WORD));
    WordOf(ToInt32(buffer * 256) + byte, n % WORD * 256 % WORD + byte, if buffer * 256 % WORD >= 0x8000_0000 then -1 else 0);
    LowByteFree(n % WORD, byte);
  }

  /** Pending bits grow by a byte without moving the digits already emitted. */
  lemma {:induction false} ByteKeepsDigits(n: nat, byte: Byte, bits: nat)
    ensures ShiftRight(n * 256 + byte, bits + 8) == ShiftRight(n, bits)
  {
    if bits == 0 {
      ByteShiftsOut(n, byte);
    } else {
      ByteKeepsDigits(n, byte, bits - 1);
    }
  }

  lemma ByteShiftsOut(n: nat, byte: Byte)
    ensures ShiftRight(n * 256 + byte, 8) == n
  {
    Shifts(n * 256 + byte);
  }

  /** One more digit is five more bits. */
  lemma DigitExtends(n: nat, bits: nat)
    ensures ShiftRight(n, bits) == ShiftRight(n, bits + 5) * 32 + ShiftRight(n, bits) % 32
  {
    assert ShiftRight(n, bits + 1) == ShiftRight(n, bits) / 2;
    assert ShiftRight(n, bits + 2) == ShiftRight(n, bits) / 4;
    assert ShiftRight(n, bits + 3) == ShiftRight(n, bits) / 8;
    assert ShiftRight(n, bits + 4) == ShiftRight(n, bits) / 16;
  }

  // ---------------------------------------------------------------- the encoder

  /** Nine digits below 32 that together are the first 45 bits. */
  predicate Encodes(digits: seq<nat>, bytes: seq<Byte>) {
    && |digits| == QUID_LENGTH
    && (forall i | 0 <= i < |digits| :: digits[i] < 32)
    && Value(digits) == Leading45(bytes)
  }

  /** The digits emitted so far are all of n but its last pending bits; the buffer holds n's low word. */
  ghost predicate Emitted(n: nat, digits: seq<nat>, bits: nat, buffer: int) {
    && (forall i | 0 <= i < |digits| :: digits[i] < 32)
    && Value(digits) == ShiftRight(n, bits)
    && ToUint32(buffer) == n % WORD
  }

  lemma ByteStep(n: nat, digits: seq<nat>, bits: nat, buffer: int, byte: Byte)
    requires Emitted(n, digits, bits, buffer)
    ensures Emitted(n * 256 + byte, digits, bits + 8, ShiftIn(buffer, byte))
  {
    ShiftInWord(n, buffer, byte);
    ByteKeepsDigits(n, byte, bits);
  }

  lemma DigitStep(n: nat, digits: seq<nat>, bits: nat, buffer: int)
    requires Emitted(n, digits, bits + 5, buffer) && bits <= 7
    ensures Emitted(n, digits + [FiveBits(buffer, bits)], bits, buffer)
    ensures Spelled(digits + [FiveBits(buffer, bits)]) == Spelled(digits) + [ALPHABET[FiveBits(buffer, bits)]]
  {
    FiveBitsOfWord(n, buffer, bits);
    DigitExtends(n, bits);
    assert (digits + [FiveBits(buffer, bits)])[..|digits|] == digits;
  }

  /** One more byte read. */
  lemma ByteRead(bytes: seq<Byte>, position: nat, digits: seq<nat>, bits: nat, buffer: int)
    requires position < |bytes| && Emitted(Number(bytes[..position]), digits, bits, buffer)
    ensures Emitted(Number(bytes[..position + 1]), digits, bits + 8, ShiftIn(buffer, bytes[position]))
  {
    NumberNext(bytes, position);
    ByteStep(Number(bytes[..position]), digits, bits, buffer, bytes[position]);
  }

  lemma NumberNext(bytes: seq<Byte>, position: nat)
    requires position < |bytes|
    ensures Number(bytes[..position + 1]) == Number(bytes[..position]) * 256 + bytes[position]
  {
    assert bytes[..position + 1][..position] == bytes[..position];
  }

  lemma LastStep(bytes: seq<Byte>, digits: seq<nat>, buffer: int)
    requires |digits| == QUID_LENGTH && Emitted(Number(bytes[..|bytes|]), digits, 3, buffer)
    ensures Encodes(digits, bytes) && IsPersisted(Spelled(digits))
  {
    Shifts(Number(bytes));
    assert bytes[..|bytes|] == bytes;
  }

  lemma Begins()
    ensures Emitted(0, [], 0, 0) && Number([]) == 0 && Spelled([]) == []
  {
  }

  /**
   * The encoder loop. Pending bits never exceed twelve, so the wrap-around of the unmasked
   * buffer is never seen. Any other number of bytes is refused.
   */
  method Encode(bytes: seq<Byte>) returns (quid: Option<string>, ghost digits: seq<nat>)
    ensures quid.Some? <==> |bytes| == BYTE_LENGTH
    ensures quid.Some? ==> Encodes(digits, bytes) && quid.value == Spelled(digits) && IsPersisted(quid.value)
  {
    digits := [];
    if |bytes| != BYTE_LENGTH { return None, digits; }
    var output := "";
    var buffer: int := 0;
    var bits: nat := 0;
    Begins();
    for position := 0 to |bytes|
      invariant bits <= 4 && 8 * position == 5 * |digits| + bits
      invariant Emitted(Number(bytes[..position]), digits, bits, buffer) && output == Spelled(digits)
    {
      ByteRead(bytes, position, digits, bits, buffer);
      ghost var n := Number(bytes[..position + 1]);
      buffer := ShiftIn(buffer, bytes[position]);
      bits := bits + 8;
      while bits >= 5 && |output| < QUID_LENGTH
        invariant bits <= 12 && 8 * (position + 1) == 5 * |digits| + bits
        invariant Emitted(n, digits, bits, buffer) && output == Spelled(digits)
      {
        bits := bits - 5;
        DigitStep(n, digits, bits, buffer);
        digits := digits + [FiveBits(buffer, bits)];
        output := output + [ALPHABET[FiveBits(buffer, bits)]];
      }
    }
    LastStep(bytes, digits, buffer);
    quid := Some(output);
  }

  // ---------------------------------------------------------------- what the digits say

  lemma {:induction false} ValueInjective(a: seq<nat>, b: seq<nat>)
    requires |a| == |b| && Value(a) == Value(b)
    requires forall i | 0 <= i < |a| :: a[i] < 32 && b[i] < 32
    ensures a == b
  {
    if a != [] {
      var last := |a| - 1;
      ValueInjective(a[..last], b[..last]);
      assert a == a[..last] + [a[last]] && b == b[..last] + [b[last]];
    }
  }

  lemma {:induction false} AlphabetAscends(i: nat, j: nat)
    requires i < j < |ALPHABET|
    ensures ALPHABET[i] < ALPHABET[j]
  {
    assert forall k | 0 <= k < 31 :: ALPHABET[k] < ALPHABET[k + 1];
    if i + 1 < j { AlphabetAscends(i, j - 1); }
  }

  lemma SpelledInjective(a: seq<nat>, b: seq<nat>)
    requires forall i | 0 <= i < |a| :: a[i] < 32
    requires forall i | 0 <= i < |b| :: b[i] < 32
    requires Spelled(a) == Spelled(b)
    ensures a == b
  {
    forall i | 0 <= i < |a| ensures a[i] == b[i] {
      assert Spelled(a)[i] == Spelled(b)[i];
      if a[i] < b[i] { AlphabetAscends(a[i], b[i]); }
      if b[i] < a[i] { AlphabetAscends(b[i], a[i]); }
    }
  }

  /** Two inputs give the same identity iff they agree on their first 45 bits. */
  lemma SameQuidIff(a: seq<Byte>, x: seq<nat>, b: seq<Byte>, y: seq<nat>)
    requires Encodes(x, a) && Encodes(y, b)
    ensures Spelled(x) == Spelled(y) <==> Leading45(a) == Leading45(b)
  {
    if Leading45(a) == Leading45(b) { ValueInjective(x, y); }
    if Spelled(x) == Spelled(y) { SpelledInjective(x, y); }
  }
}
