/** Base64 VLQ numbers: the reader of sourcemap.ts, and the encoder of ECMA-426, "Base64 VLQ". */
module Base64Vlq {
  import opened Wrappers
  import opened Int32

  /** What `charCodeAt` returns. */
  type CodeUnit = c: int | 0 <= c < 0x1_0000

  const NOT_A_DIGIT := 0xff

  /** The lookup table of 128 entries: the alphabet of section 4 of RFC 4648, all else 0xff. */
  function TableEntry(c: nat): (d: nat)
    requires c < 128
    ensures d < 64 || d == NOT_A_DIGIT
  {
    if 'A' as int <= c <= 'Z' as int then c - 'A' as int
    else if 'a' as int <= c <= 'z' as int then c - 'a' as int + 26
    else if '0' as int <= c <= '9' as int then c - '0' as int + 52
    else if c == '+' as int then 62
    else if c == '/' as int then 63
    else NOT_A_DIGIT
  }

  /** The digit a code unit stands for, or NOT_A_DIGIT. */
  function Digit(c: CodeUnit): nat {
    if c < 128 then TableEntry(c) else NOT_A_DIGIT
  }

  function Digits(t: seq<CodeUnit>): (ds: seq<nat>)
    ensures |ds| == |t|
  {
    seq(|t|, i requires 0 <= i < |t| => Digit(t[i]))
  }

  // ---- The value of a digit string -----------------------------------------------------------

  /** The loop's accumulator after the digits of ds: `vlq |= (index & 31) << shift`. */
  function Accumulate(ds: seq<nat>): int {
    if ds == [] then 0
    else
      var n := |ds| - 1;
      Or(Accumulate(ds[..n]), ShiftLeft(And(ds[n], 31), 5 * n))
  }

  /** `vlq & 1 ? -(vlq >> 1) : vlq >> 1` */
  function RecoverSign(vlq: int): int {
    if And(vlq, 1) != 0 then -ShiftRight(vlq, 1) else ShiftRight(vlq, 1)
  }

  function VlqValue(ds: seq<nat>): int { RecoverSign(Accumulate(ds)) }

  /** The number that the digits' five low bits denote in base 32, least significant digit first. */
  function Positional(ds: seq<nat>): nat {
    if ds == [] then 0
    else
      var n := |ds| - 1;
      Positional(ds[..n]) + ds[n] % 32 * Pow2(5 * n)
  }

  /** The lowest bit is the sign, the others the magnitude. */
  function SignedOf(u: nat): int { if u % 2 == 1 then -(u / 2) else u / 2 }

  /** VLQSignedValue of ECMA-426, "Base64 VLQ": a sign without magnitude stands for the least 32-bit
      integer, and a magnitude of 2^31 or more is an error. */
  function StandardValue(u: nat): Option<int> {
    if u == 1 then Some(-TWO_31) else if u / 2 >= TWO_31 then None else Some(SignedOf(u))
  }

  lemma {:induction false} PositionalBound(ds: seq<nat>)
    ensures Positional(ds) < Pow2(5 * |ds|)
  {
    if ds != [] {
      var n := |ds| - 1;
      PositionalBound(ds[..n]);
      Pow2Five(n);
      DigitBelow(Positional(ds[..n]), ds[n] % 32, Pow2(5 * n));
    }
  }

  lemma DigitBelow(low: nat, d: nat, p: nat)
    requires low < p && d < 32
    ensures low + d * p < 32 * p
  {
    assert d * p <= 31 * p;
  }

  lemma Pow2Five(n: nat)
    ensures Pow2(5 * (n + 1)) == 32 * Pow2(5 * n)
  {
    var k := 5 * n;
    assert Pow2(k + 5) == 2 * Pow2(k + 4);
    assert Pow2(k + 4) == 2 * Pow2(k + 3);
    assert Pow2(k + 3) == 2 * Pow2(k + 2);
    assert Pow2(k + 2) == 2 * Pow2(k + 1);
  }

  lemma {:induction false} Pow2Monotonic(j: nat, k: nat)
    requires j <= k
    ensures Pow2(j) <= Pow2(k)
    decreases k
  {
    if j < k { Pow2Monotonic(j, k - 1); }
  }

  lemma Pow2At()
    ensures Pow2(5) == 32 && Pow2(31) == TWO_31 && Pow2(32) == TWO_32
  {
    assert Pow2(8) == 256;
    assert Pow2(16) == 0x1_0000 by { assert Pow2(12) == 0x1000; }
    assert Pow2(24) == 0x100_0000 by { assert Pow2(20) == 0x10_0000; }
    assert Pow2(28) == 0x1000_0000;
  }

  /** As long as the number fits 32 bits, the bitwise loop does base-32 arithmetic. */
  lemma {:induction false} AccumulateIsPositional(ds: seq<nat>)
    requires Positional(ds) < TWO_32
    ensures ToUint32(Accumulate(ds)) == Positional(ds)
  {
    if ds != [] {
      var n := |ds| - 1;
      AccumulateIsPositional(ds[..n]);
      PositionalBound(ds[..n]);
      LowFiveBits(ds[n]);
      OrDigit(Accumulate(ds[..n]), Positional(ds[..n]), ds[n] % 32, n);
    }
  }

  lemma WordDigit(d: nat)
    ensures ToUint32(d) % 32 == d % 32
  {
    var q, r := d / TWO_32, d % TWO_32;
    assert d == 32 * (0x800_0000 * q + r / 32) + r % 32;
    DivModUnique(d, 32, 0x800_0000 * q + r / 32, r % 32);
  }

  lemma LowFiveBits(d: nat)
    ensures And(d, 31) == d % 32
  {
    hide And;
    Pow2At();
    MaskLowBits(d, 31, 5);
    WordDigit(d);
  }

  /** One turn of the loop. Past the sixth digit only zeros keep the number within 32 bits. */
  lemma OrDigit(vlq: int, low: nat, d: nat, n: nat)
    requires ToUint32(vlq) == low < Pow2(5 * n) && d < 32
    requires low + d * Pow2(5 * n) < TWO_32
    ensures ToUint32(Or(vlq, ShiftLeft(d, 5 * n))) == low + d * Pow2(5 * n)
  {
    hide OrBits, Pow2, ShiftLeft, ToInt32;
    var s := 5 * n;
    var p := Pow2(s);
    if n <= 6 {
      assert 0 <= d * p <= low + d * p;
      OrAbove(low, d, s);
      ShiftedDigit(d, s);
      ToUint32OfToInt32(low + d * p);
    } else {
      assert d == 0 by { TooLarge(low, d, s); }
      assert 0 * p == 0;
      ShiftedZero(s);
      OrZero(low);
      ToUint32OfToInt32(low);
    }
  }

  lemma TooLarge(low: nat, d: nat, s: nat)
    requires s >= 32 && low + d * Pow2(s) < TWO_32
    ensures d == 0
  {
    Pow2At();
    Pow2Monotonic(32, s);
    if d >= 1 {
      MulAtLeast(Pow2(s), d);
      assert false;
    }
  }

  lemma ShiftedZero(s: nat)
    ensures ShiftLeft(0, s) == 0
  {
    assert 0 * Pow2(s % 32) == 0;
  }

  lemma ShiftedDigit(d: nat, s: nat)
    requires s < 32 && d < 32 && d * Pow2(s) < TWO_32
    ensures ToUint32(ShiftLeft(d, s)) == d * Pow2(s)
  {
    assert s % 32 == s;
    ToInt32Small(d);
    ToUint32OfToInt32(d * Pow2(s));
  }

  lemma RecoverSignSmall(v: int)
    requires IsInt32(v)
    ensures RecoverSign(v) == if v % 2 == 1 then -(v / 2) else v / 2
  {
    assert Pow2(1) == 2 && Pow2(0) == 1;
    AndMask(ToUint32(v), 1);
  }

  lemma AccumulateIsInt32(ds: seq<nat>)
    ensures IsInt32(Accumulate(ds))
  {
  }

  lemma FromUint32(v: int, u: nat)
    requires IsInt32(v) && ToUint32(v) == u
    ensures v == if u < TWO_31 then u else u - TWO_32
  {
  }

  lemma VlqValueSigned(ds: seq<nat>)
    ensures VlqValue(ds) == SignedOf(Positional(ds)) <==> Positional(ds) < TWO_31
  {
    var v, u := Accumulate(ds), Positional(ds);
    AccumulateIsInt32(ds);
    RecoverSignSmall(v);
    if u < TWO_32 {
      AccumulateIsPositional(ds);
      FromUint32(v, u);
    }
  }

  /** The code reads exactly those digit strings as ECMA-426 does whose number is below 2^31 and not
      a sign alone. */
  lemma VlqValueExact(ds: seq<nat>)
    ensures Some(VlqValue(ds)) == StandardValue(Positional(ds)) <==> Positional(ds) < TWO_31 && Positional(ds) != 1
  {
    VlqValueSigned(ds);
  }

  // ---- Reading one number ---------------------------------------------------------------------

  /** How many code units the number at the front of t takes, if it is complete. */
  function VlqLength(t: seq<CodeUnit>): (n: Option<nat>)
    ensures n.Some? ==> 1 <= n.value <= |t|
  {
    if t == [] || Digit(t[0]) == NOT_A_DIGIT then None
    else if Digit(t[0]) < 32 then Some(1)
    else
      match VlqLength(t[1..])
      case None => None
      case Some(n) => Some(n + 1)
  }

  datatype VlqRead = VlqRead(value: int, length: nat)

  function ReadVlq(t: seq<CodeUnit>): (r: Option<VlqRead>)
    ensures r.Some? ==> 1 <= r.value.length <= |t|
  {
    match VlqLength(t)
    case None => None
    case Some(n) => Some(VlqRead(VlqValue(Digits(t[..n])), n))
  }

  /** `decodeVLQ`: reads the number at i; None stands for the thrown decoding error. */
  method DecodeVLQ(mappings: seq<CodeUnit>, start: nat) returns (r: Option<int>, i: nat)
    requires start <= |mappings|
    ensures start <= i <= |mappings|
    ensures r.Some? <==> ReadVlq(mappings[start..]).Some?
    ensures r.Some? ==> ReadVlq(mappings[start..]) == Some(VlqRead(r.value, i - start))
  {
    hide And, Or, ShiftLeft, ShiftRight, Accumulate, VlqLength, Digit, TableEntry;
    i := start;
    var shift, vlq := 0, 0;
    AccumulateNothing();
    assert Digits(mappings[start..i]) == [];
    while true
      invariant start <= i <= |mappings|
      invariant shift == 5 * (i - start)
      invariant vlq == Accumulate(Digits(mappings[start..i]))
      invariant VlqLength(mappings[start..]) ==
                match VlqLength(mappings[i..])
                case None => None
                case Some(n) => Some(n + (i - start))
      decreases |mappings| - i
    {
      VlqLengthStep(mappings[i..]);
      if i >= |mappings| { return None, i; }
      var c := mappings[i];
      assert mappings[i..][1..] == mappings[i + 1..];
      AsciiUnmasked(c);
      if And(c, 0x7f) != c { return None, i; }
      var index := TableEntry(c);
      if index == NOT_A_DIGIT { return None, i; }
      ghost var before := Digits(mappings[start..i]);
      i := i + 1;
      vlq := Or(vlq, ShiftLeft(And(index, 31), shift));
      shift := shift + 5;
      assert Digits(mappings[start..i]) == before + [index];
      AccumulateSnoc(before, index);
      ContinuationBit(index);
      if And(index, 32) == 0 { break; }
    }
    assert mappings[start..][..i - start] == mappings[start..i];
    r := Some(if And(vlq, 1) != 0 then -ShiftRight(vlq, 1) else ShiftRight(vlq, 1));
  }

  lemma AccumulateNothing()
    ensures Accumulate([]) == 0
  {
  }

  lemma AccumulateSnoc(ds: seq<nat>, d: nat)
    ensures Accumulate(ds + [d]) == Or(Accumulate(ds), ShiftLeft(And(d, 31), 5 * |ds|))
  {
    hide And, Or, ShiftLeft;
    assert (ds + [d])[..|ds|] == ds;
  }

  lemma VlqLengthStep(t: seq<CodeUnit>)
    ensures t == [] ==> VlqLength(t) == None
    ensures t != [] && t[0] >= 128 ==> VlqLength(t) == None
    ensures t != [] && t[0] < 128 ==>
              && Digit(t[0]) == TableEntry(t[0])
              && VlqLength(t) ==
                 (if TableEntry(t[0]) == NOT_A_DIGIT then None
                  else if TableEntry(t[0]) < 32 then Some(1)
                  else match VlqLength(t[1..])
                       case None => None
                       case Some(n) => Some(n + 1))
  {
    hide TableEntry;
  }

  lemma AsciiUnmasked(c: CodeUnit)
    ensures And(c, 0x7f) == c <==> c < 128
  {
    assert Pow2(7) == 128 by { assert Pow2(4) == 16; }
    MaskLowBits(c, 127, 7);
    assert ToUint32(c) == c;
  }

  lemma ContinuationBit(d: nat)
    requires d < 64
    ensures And(d, 32) == 0 <==> d < 32
  {
    hide AndBits;
    assert Pow2(5) == 32 by { assert Pow2(3) == 8; }
    AndBit(d, 5);
    assert ToUint32(d) == d;
  }

  // ---- The encoder of ECMA-426 ----------------------------------------------------------------

  function Char(d: nat): (c: CodeUnit)
    requires d < 64
    ensures Digit(c) == d
  {
    if d < 26 then 'A' as int + d
    else if d < 52 then 'a' as int + (d - 26)
    else if d < 62 then '0' as int + (d - 52)
    else if d == 62 then '+' as int
    else '/' as int
  }

  const UPPER := "ABCDEFGHIJKLMNOPQRSTUVWXYZ"
  const LOWER := "abcdefghijklmnopqrstuvwxyz"
  const DECIMAL := "0123456789"
  const VLQ_CHARS := UPPER + LOWER + DECIMAL + "+/"

  lemma Consecutive(d: nat)
    ensures d < 26 ==> UPPER[d] as int == 'A' as int + d
    ensures d < 26 ==> LOWER[d] as int == 'a' as int + d
    ensures d < 10 ==> DECIMAL[d] as int == '0' as int + d
  {
  }

  /** The ranges above are the source's alphabet string. */
  lemma AlphabetIsSource(d: nat)
    requires d < |VLQ_CHARS|
    ensures |VLQ_CHARS| == 64 && Char(d) == VLQ_CHARS[d] as int
  {
    if d < 26 {
      Consecutive(d);
    } else if d < 52 {
      Consecutive(d - 26);
    } else if d < 62 {
      Consecutive(d - 52);
    }
  }

  /** The character at place d of the alphabet string is the digit d, and no other character is one. */
  lemma DigitsExactly(c: CodeUnit)
    ensures forall d | 0 <= d < |VLQ_CHARS| :: Digit(c) == d <==> VLQ_CHARS[d] as int == c
    ensures Digit(c) == NOT_A_DIGIT <==> forall d | 0 <= d < |VLQ_CHARS| :: VLQ_CHARS[d] as int != c
  {
    AlphabetIsSource(0);
    if Digit(c) != NOT_A_DIGIT {
      DigitIsChar(c);
      AlphabetIsSource(Digit(c));
    }
    hide TableEntry, Char;
    forall d | 0 <= d < |VLQ_CHARS| ensures Digit(c) == d <==> VLQ_CHARS[d] as int == c {
      AlphabetIsSource(d);
    }
  }

  lemma DigitIsChar(c: CodeUnit)
    requires Digit(c) != NOT_A_DIGIT
    ensures Digit(c) < 64 && Char(Digit(c)) == c
  {
  }

  /** 32 marks a digit that is followed by another one. */
  function EncodeUnsigned(u: nat): (t: seq<CodeUnit>)
    ensures |t| >= 1
  {
    if u < 32 then [Char(u)] else [Char(32 + u % 32)] + EncodeUnsigned(u / 32)
  }

  function UnsignedOf(v: int): nat {
    if v == -TWO_31 then 1 else if v < 0 then 2 * -v + 1 else 2 * v
  }

  function EncodeVlq(v: int): seq<CodeUnit> { EncodeUnsigned(UnsignedOf(v)) }

  /** To ECMA-426 an encoded integer means itself exactly if it fits 32 bits. */
  lemma EncodesStandard(v: int)
    ensures StandardValue(UnsignedOf(v)) == Some(v) <==> IsInt32(v)
  {
    if v > 0 { assert UnsignedOf(v) / 2 == v; }
  }

  lemma Pow2Zero()
    ensures Pow2(0) == 1
  {
  }

  lemma ScaleDigit(low: nat, d: nat, p: nat)
    ensures 32 * low + d * (32 * p) == 32 * (low + d * p)
  {
  }

  lemma {:induction false} PositionalCons(d: nat, ds: seq<nat>)
    ensures Positional([d] + ds) == d % 32 + 32 * Positional(ds)
  {
    hide Pow2;
    Pow2Zero();
    if ds == [] {
      assert [d][..0] == [];
      assert [d] + [] == [d];
    } else {
      var n := |ds| - 1;
      assert ([d] + ds)[..n + 1] == [d] + ds[..n];
      PositionalCons(d, ds[..n]);
      Pow2Five(n);
      ScaleDigit(Positional(ds[..n]), ds[n] % 32, Pow2(5 * n));
    }
  }

  lemma PositionalNothing()
    ensures Positional([]) == 0
  {
  }

  lemma LowDigit(u: nat)
    ensures (32 + u % 32) % 32 == u % 32 && u == u % 32 + 32 * (u / 32)
  {
  }

  lemma {:induction false} EncodeUnsignedCorrect(u: nat, rest: seq<CodeUnit>)
    ensures VlqLength(EncodeUnsigned(u) + rest) == Some(|EncodeUnsigned(u)|)
    ensures Positional(Digits(EncodeUnsigned(u))) == u
  {
    hide Positional, Digit, Char;
    var t := EncodeUnsigned(u);
    assert (t + rest)[0] == t[0];
    if u < 32 {
      assert Digits(t) == [u];
      assert [u] == [u] + [];
      PositionalCons(u, []);
      PositionalNothing();
    } else {
      EncodeUnsignedCorrect(u / 32, rest);
      assert (t + rest)[1..] == EncodeUnsigned(u / 32) + rest;
      var tail := Digits(EncodeUnsigned(u / 32));
      assert Digits(t) == [32 + u % 32] + tail;
      PositionalCons(32 + u % 32, tail);
      LowDigit(u);
    }
  }

  /** Whatever follows, the reader takes exactly the encoded digits, and it recovers the number
      if and only if its magnitude is below 2^30. ECMA-426 allows all 32-bit integers. */
  lemma DecodeEncodedVlq(v: int, rest: seq<CodeUnit>)
    ensures var r := ReadVlq(EncodeVlq(v) + rest);
            && r.Some? && r.value.length == |EncodeVlq(v)|
            && (r.value.value == v <==> -0x4000_0000 < v < 0x4000_0000)
  {
    var u := UnsignedOf(v);
    EncodeUnsignedCorrect(u, rest);
    assert (EncodeVlq(v) + rest)[..|EncodeVlq(v)|] == EncodeVlq(v);
    assert v != -TWO_31 ==> SignedOf(u) == v;
    VlqValueSigned(Digits(EncodeVlq(v)));
  }

  /** The text "B": a sign without magnitude, which ECMA-426 reads as -2^31 and the code as 0. */
  lemma SignAlone()
    ensures EncodeVlq(-TWO_31) == ['B' as int]
    ensures ReadVlq(['B' as int]) == Some(VlqRead(0, 1))
    ensures StandardValue(Positional(Digits(['B' as int]))) == Some(-TWO_31)
  {
    var t: seq<CodeUnit> := ['B' as int];
    assert EncodeUnsigned(1) == t && t + [] == t && t[..1] == t;
    EncodeUnsignedCorrect(1, []);
    VlqValueSigned(Digits(t));
  }
}
