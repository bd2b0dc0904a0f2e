/** Crockford base32 (internal/tgutil/util.go). The encoder and the decoder shift a 64-bit
  * accumulator left without ever masking it, so it wraps; the proofs show that the bits they
  * still read are the bits of the unbounded number. */
module Base32 {
  import opened Common

  const CROCKFORD: string := "0123456789abcdefghjkmnpqrstvwxyz"
  const WORD: int := 0x1_0000_0000_0000_0000

  // ---------------------------------------------------------------- alphabet

  function ToLower(c: char): char {
    if 'A' <= c <= 'Z' then (c as int + 32) as char else c
  }

  /** decodeMap: the digit a character stands for, 0xFF when it stands for none. */
  function DecodeMap(c: char): (v: byte)
    ensures v == 0xFF || v < 32
  {
    var l := ToLower(c);
    if '0' <= l <= '9' then l as int - '0' as int
    else if 'a' <= l <= 'h' then l as int - 'a' as int + 10
    else if l == 'j' || l == 'k' then l as int - 'j' as int + 18
    else if l == 'm' || l == 'n' then l as int - 'm' as int + 20
    else if 'p' <= l <= 't' then l as int - 'p' as int + 22
    else if 'v' <= l <= 'z' then l as int - 'v' as int + 27
    else if l == 'o' then 0
    else if l == 'i' || l == 'l' then 1
    else 0xFF
  }

  /** CROCKFORD[v], by the runs of consecutive letters the alphabet consists of. */
  function Digit(v: int): char
    requires 0 <= v < 32
  {
    if v < 10 then ('0' as int + v) as char
    else if v < 18 then ('a' as int + v - 10) as char
    else if v < 20 then ('j' as int + v - 18) as char
    else if v < 22 then ('m' as int + v - 20) as char
    else if v < 27 then ('p' as int + v - 22) as char
    else ('v' as int + v - 27) as char
  }

  lemma DigitIsCrockford(v: int)
    requires 0 <= v < 32
    ensures |CROCKFORD| == 32 && Digit(v) == CROCKFORD[v]
  {
    if v < 16 {
      if v < 8 { assert v in {0, 1, 2, 3, 4, 5, 6, 7}; } else { assert v in {8, 9, 10, 11, 12, 13, 14, 15}; }
    } else {
      if v < 24 { assert v in {16, 17, 18, 19, 20, 21, 22, 23}; } else { assert v in {24, 25, 26, 27, 28, 29, 30, 31}; }
    }
  }

  /** O to 0 and I, L to 1. */
  function Unambiguous(l: char): char {
    if l == 'o' then '0' else if l == 'i' || l == 'l' then '1' else l
  }

  /** One ASCII character of NormalizeBase32: lower case, then unambiguous. */
  function NormalizeChar(c: char): char {
    Unambiguous(ToLower(c))
  }

  function Normalized(s: string): string {
    seq(|s|, i requires 0 <= i < |s| => NormalizeChar(s[i]))
  }

  /** The table decodes every alphabet character to its index, and a character's canonical
    * digit is its normal form: decoding forgets exactly what normalization forgets. */
  lemma AlphabetRoundTrip(v: int, c: char)
    ensures 0 <= v < 32 ==> DecodeMap(Digit(v)) == v && NormalizeChar(Digit(v)) == Digit(v)
    ensures DecodeMap(c) != 0xFF ==> Digit(DecodeMap(c)) == NormalizeChar(c)
  {}

  // ---------------------------------------------------------------- shifts

  function Pow2(k: nat): (p: nat)
    ensures p > 0
  {
    if k == 0 then 1 else 2 * Pow2(k - 1)
  }

  /** n << k on unbounded integers. */
  function ShiftUp(n: int, k: nat): int {
    if k == 0 then n else 2 * ShiftUp(n, k - 1)
  }

  /** n >> k. */
  function ShiftRight(n: int, k: nat): int
    decreases k
  {
    if k == 0 then n else ShiftRight(n / 2, k - 1)
  }

  /** n & (1 << k - 1). */
  function LowBits(n: int, k: nat): int
    decreases k
  {
    if k == 0 then 0 else 2 * LowBits(n / 2, k - 1) + n % 2
  }

  /** buf << k on a uint64. */
  function ShiftLeft(buf: int, k: nat): int {
    if k == 0 then buf else ShiftLeft(buf, k - 1) * 2 % WORD
  }

  lemma SmallPowers()
    ensures Pow2(5) == 32 && Pow2(8) == 256
  {
    assert Pow2(3) == 8;
    assert Pow2(6) == 64;
  }

  lemma {:induction false} ShiftUpSum(n: int, a: nat, b: nat)
    ensures ShiftUp(n, a + b) == ShiftUp(ShiftUp(n, a), b)
  {
    if b > 0 { ShiftUpSum(n, a, b - 1); }
  }

  lemma {:induction false} ShiftUpAdd(m: int, n: int, k: nat)
    ensures ShiftUp(m + n, k) == ShiftUp(m, k) + ShiftUp(n, k)
  {
    if k > 0 { ShiftUpAdd(m, n, k - 1); }
  }

  lemma {:induction false} ShiftUpBound(n: int, j: nat, k: nat)
    requires 0 <= n < Pow2(j)
    ensures 0 <= ShiftUp(n, k) < Pow2(j + k)
  {
    if k > 0 { ShiftUpBound(n, j, k - 1); }
  }

  lemma {:induction false} ShiftUpInjective(m: int, n: int, k: nat)
    requires ShiftUp(m, k) == ShiftUp(n, k)
    ensures m == n
  {
    if k > 0 { ShiftUpInjective(m, n, k - 1); }
  }

  lemma ShiftUpConstants(n: int)
    ensures ShiftUp(n, 5) == 32 * n && ShiftUp(n, 8) == 256 * n
  {
    var a := n;
    for k := 0 to 8
      invariant ShiftUp(n, k) == a == [1, 2, 4, 8, 16, 32, 64, 128, 256][k] * n
      invariant k > 5 ==> ShiftUp(n, 5) == 32 * n
    {
      a := 2 * a;
    }
  }

  lemma ShiftUpWord(q: int)
    ensures ShiftUp(q, 64) == WORD * q
  {
    var a := q;
    var k := 0;
    while k < 8
      invariant k <= 8 && ShiftUp(q, 8 * k) == a
      invariant a == [1, 0x100, 0x1_0000, 0x100_0000, 0x1_0000_0000, 0x100_0000_0000, 0x1_0000_0000_0000,
                      0x100_0000_0000_0000, WORD][k] * q
    {
      ShiftUpSum(q, 8 * k, 8);
      ShiftUpConstants(a);
      a := 256 * a;
      k := k + 1;
    }
  }

  lemma {:induction false} ShiftRightSum(n: int, a: nat, b: nat)
    ensures ShiftRight(n, a + b) == ShiftRight(ShiftRight(n, a), b)
    decreases a
  {
    if a > 0 { ShiftRightSum(n / 2, a - 1, b); }
  }

  /** Every number is its high part shifted back up plus its low bits. */
  lemma {:induction false} SplitAt(n: int, k: nat)
    ensures n == ShiftUp(ShiftRight(n, k), k) + LowBits(n, k)
    ensures 0 <= LowBits(n, k) < Pow2(k)
    decreases k
  {
    if k > 0 {
      SplitAt(n / 2, k - 1);
    }
  }

  /** Such a split is unique. */
  lemma {:induction false} SplitUnique(n: int, high: int, low: int, k: nat)
    requires n == ShiftUp(high, k) + low && 0 <= low < Pow2(k)
    ensures ShiftRight(n, k) == high && LowBits(n, k) == low
    decreases k
  {
    if k > 0 {
      SplitUnique(n / 2, high, low / 2, k - 1);
    }
  }

  // ---------------------------------------------------------------- numbers

  /** The number a sequence of w-bit digits denotes, most significant digit first. */
  function Value(ds: seq<int>, w: nat): (v: int) {
    if ds == [] then 0 else ShiftUp(Value(ds[..|ds| - 1], w), w) + ds[|ds| - 1]
  }

  predicate Digits(ds: seq<int>, w: nat) {
    forall i :: 0 <= i < |ds| ==> 0 <= ds[i] < Pow2(w)
  }

  lemma ValueAppend(ds: seq<int>, d: int, w: nat)
    ensures Value(ds + [d], w) == ShiftUp(Value(ds, w), w) + d
  {
    assert (ds + [d])[..|ds|] == ds;
  }

  /** Digit sequences of one length are determined by their value. */
  lemma {:induction false} ValueInjective(a: seq<int>, b: seq<int>, w: nat)
    requires |a| == |b| && Digits(a, w) && Digits(b, w)
    requires Value(a, w) == Value(b, w)
    ensures a == b
  {
    if a != [] {
      var x, y := a[..|a| - 1], b[..|b| - 1];
      SplitUnique(Value(a, w), Value(x, w), a[|a| - 1], w);
      SplitUnique(Value(b, w), Value(y, w), b[|b| - 1], w);
      ValueInjective(x, y, w);
      assert a == x + [a[|a| - 1]] && b == y + [b[|b| - 1]];
    }
  }

  // ---------------------------------------------------------------- the wrapping accumulator

  /** Two numbers that differ by a multiple of 2^j agree on their low j bits. */
  lemma {:induction false} SameLowBits(m: int, n: int, q: int, j: nat, k: nat)
    requires m - n == ShiftUp(q, j) && k <= j
    ensures LowBits(m, k) == LowBits(n, k)
    ensures ShiftRight(m, k) - ShiftRight(n, k) == ShiftUp(q, j - k)
    decreases k
  {
    if k > 0 {
      assert m / 2 - n / 2 == ShiftUp(q, j - 1);
      SameLowBits(m / 2, n / 2, q, j - 1, k - 1);
    }
  }

  lemma Wrapped(n: int) returns (q: int)
    ensures n % WORD - n == ShiftUp(q, 64)
  {
    q := -(n / WORD);
    ShiftUpWord(q);
  }

  lemma DoubleWraps(n: int)
    ensures n % WORD * 2 % WORD == 2 * n % WORD
  {}

  lemma {:induction false} ShiftLeftWraps(n: int, k: nat)
    ensures ShiftLeft(n % WORD, k) == ShiftUp(n, k) % WORD
  {
    if k > 0 {
      ShiftLeftWraps(n, k - 1);
      DoubleWraps(ShiftUp(n, k - 1));
    }
  }

  lemma NoCarry5(n: int, x: int)
    requires 0 <= x < 32
    ensures 32 * n % WORD + x == (32 * n + x) % WORD
  {
    var q := 32 * n / WORD;
    var r := n - 0x800_0000_0000_0000 * q;
    assert 32 * n == WORD * q + 32 * r;
  }

  lemma NoCarry8(n: int, x: int)
    requires 0 <= x < 256
    ensures 256 * n % WORD + x == (256 * n + x) % WORD
  {
    var q := 256 * n / WORD;
    var r := n - 0x100_0000_0000_0000 * q;
    assert 256 * n == WORD * q + 256 * r;
  }

  /** Appending w low bits keeps the accumulator equal to the true number modulo 2^64. */
  lemma AppendWraps(n: int, x: int, w: nat)
    requires (w == 5 || w == 8) && 0 <= x < Pow2(w)
    ensures ShiftLeft(n % WORD, w) + x == (ShiftUp(n, w) + x) % WORD
  {
    SmallPowers();
    ShiftLeftWraps(n, w);
    ShiftUpConstants(n);
    if w == 5 { NoCarry5(n, x); } else { NoCarry8(n, x); }
  }

  /** Appending w bits moves the already emitted high part w places further up. */
  lemma AppendShifts(n: int, x: int, w: nat, k: nat)
    requires 0 <= x < Pow2(w)
    ensures ShiftRight(ShiftUp(n, w) + x, w + k) == ShiftRight(n, k)
  {
    SplitUnique(ShiftUp(n, w) + x, n, x, w);
    ShiftRightSum(ShiftUp(n, w) + x, w, k);
  }

  /** Reading w bits above position k off the wrapped accumulator gives the true next digit. */
  lemma EmitDigit(n: int, w: nat, k: nat)
    requires k + w <= 64
    ensures var d := LowBits(ShiftRight(n % WORD, k), w);
            0 <= d < Pow2(w) && ShiftRight(n, k) == ShiftUp(ShiftRight(n, k + w), w) + d
  {
    var q := Wrapped(n);
    SameLowBits(n % WORD, n, q, 64, k);
    SameLowBits(ShiftRight(n % WORD, k), ShiftRight(n, k), q, 64 - k, w);
    SplitAt(ShiftRight(n, k), w);
    ShiftRightSum(n, k, w);
  }

  lemma Modulo(n: int)
    ensures LowBits(n, 5) == n % 32 && LowBits(n, 8) == n % 256
  {
    SmallPowers();
    ShiftUpConstants(n / 32);
    ShiftUpConstants(n / 256);
    SplitUnique(n, n / 32, n % 32, 5);
    SplitUnique(n, n / 256, n % 256, 8);
  }

  /** Shifting n up past its k low bits: 5 - k zeros go below them. */
  lemma PaddedLow(n: int, k: nat)
    requires 0 < k < 5
    ensures ShiftUp(n, 5 - k) == 32 * ShiftRight(n, k) + ShiftUp(LowBits(n, k), 5 - k)
    ensures 0 <= ShiftUp(LowBits(n, k), 5 - k) < 32
  {
    SplitAt(n, k);
    var high, low := ShiftRight(n, k), LowBits(n, k);
    ShiftUpAdd(ShiftUp(high, k), low, 5 - k);
    ShiftUpSum(high, k, 5 - k);
    ShiftUpConstants(high);
    ShiftUpBound(low, k, 5 - k);
    SmallPowers();
  }

  /** The encoder's last, zero-padded digit. */
  lemma PaddedDigit(n: int, k: nat)
    requires 0 < k < 5
    ensures var d := ShiftLeft(n % WORD, 5 - k) % 32;
            0 <= d < 32 && ShiftUp(n, 5 - k) == ShiftUp(ShiftRight(n, k), 5) + d
  {
    var u, high, low := ShiftUp(n, 5 - k), ShiftRight(n, k), ShiftUp(LowBits(n, k), 5 - k);
    assert u == 32 * high + low && 0 <= low < 32 by { PaddedLow(n, k); }
    assert ShiftUp(high, 5) == 32 * high by { ShiftUpConstants(high); }
    assert ShiftLeft(n % WORD, 5 - k) == u % WORD by { ShiftLeftWraps(n, 5 - k); }
    LowDigit(u, high, low);
  }

  lemma LowDigit(u: int, high: int, low: int)
    requires u == 32 * high + low && 0 <= low < 32
    ensures u % WORD % 32 == low
  {
    var q := u / WORD;
    var h := high - 0x800_0000_0000_0000 * q;
    assert u % WORD == 32 * h + low;
  }

  // ---------------------------------------------------------------- what the codec promises

  function DigitsOf(s: string): (ds: seq<int>)
    ensures |ds| == |s|
  {
    seq(|s|, i requires 0 <= i < |s| => DecodeMap(s[i]) as int)
  }

  predicate AllValid(s: string) {
    forall i :: 0 <= i < |s| ==> DecodeMap(s[i]) != 0xFF
  }

  /** The digits of t are the bits of data followed by zero bits. */
  predicate Represents(t: string, data: seq<byte>) {
    && AllValid(t)
    && 8 * |data| <= 5 * |t|
    && Value(DigitsOf(t), 5) == ShiftUp(Value(data, 8), 5 * |t| - 8 * |data|)
  }

  predicate IsEncoding(data: seq<byte>, s: string) {
    && Represents(s, data)
    && 5 * |s| - 8 * |data| < 5
    && Normalized(s) == s
  }

  predicate IsDecoding(s: string, data: seq<byte>) {
    var t := TrimSpace(s);
    Represents(t, data) && 5 * |t| - 8 * |data| < 8
  }

  datatype DecodeError = InvalidCharacter(index: nat) | TrailingBits

  predicate Decodable(s: string) {
    var t := TrimSpace(s);
    AllValid(t) && LowBits(Value(DigitsOf(t), 5), 5 * |t| % 8) == 0
  }

  lemma DigitsAppend(s: string, c: char)
    ensures DigitsOf(s + [c]) == DigitsOf(s) + [DecodeMap(c) as int]
  {}

  // ---------------------------------------------------------------- EncodeBase32

  /** The encoder between two shifts: n is the number read so far, of which all but the low
    * `bits` bits have been written. */
  predicate Encoding(n: int, buf: int, bits: nat, out: string) {
    && buf == n % WORD
    && AllValid(out) && Normalized(out) == out
    && Value(DigitsOf(out), 5) == ShiftRight(n, bits)
  }

  predicate BytesRead(data: seq<byte>, i: nat, n: int) {
    i <= |data| && n == Value(data[..i], 8)
  }

  lemma ReadByte(data: seq<byte>, i: nat, n: int)
    requires BytesRead(data, i, n) && i < |data|
    ensures BytesRead(data, i + 1, ShiftUp(n, 8) + data[i])
  {
    assert data[..i + 1] == data[..i] + [data[i]];
    ValueAppend(data[..i], data[i], 8);
  }

  lemma EncoderReads(n: int, buf: int, bits: nat, out: string, b: byte)
    requires Encoding(n, buf, bits, out) && bits < 5
    ensures Encoding(ShiftUp(n, 8) + b, ShiftLeft(buf, 8) + b, bits + 8, out)
  {
    SmallPowers();
    AppendWraps(n, b, 8);
    AppendShifts(n, b, 8, bits);
  }

  lemma WriteDigit(out: string, v: int)
    requires AllValid(out) && Normalized(out) == out && 0 <= v < 32
    ensures AllValid(out + [Digit(v)]) && Normalized(out + [Digit(v)]) == out + [Digit(v)]
    ensures Value(DigitsOf(out + [Digit(v)]), 5) == ShiftUp(Value(DigitsOf(out), 5), 5) + v
  {
    AlphabetRoundTrip(v, 'x');
    DigitsAppend(out, Digit(v));
    ValueAppend(DigitsOf(out), v, 5);
    assert Normalized(out + [Digit(v)]) == Normalized(out) + [NormalizeChar(Digit(v))];
  }

  lemma EncoderWrites(n: int, buf: int, bits: nat, out: string)
    requires Encoding(n, buf, bits, out) && 5 <= bits <= 12
    ensures Encoding(n, buf, bits - 5, out + [Digit(ShiftRight(buf, bits - 5) % 32)])
  {
    EmitDigit(n, 5, bits - 5);
    Modulo(ShiftRight(buf, bits - 5));
    WriteDigit(out, ShiftRight(buf, bits - 5) % 32);
  }

  lemma EncoderPads(n: int, buf: int, bits: nat, out: string)
    requires Encoding(n, buf, bits, out) && 0 < bits < 5
    ensures var padded := out + [Digit(ShiftLeft(buf, 5 - bits) % 32)];
            && AllValid(padded) && Normalized(padded) == padded
            && Value(DigitsOf(padded), 5) == ShiftUp(n, 5 - bits)
  {
    PaddedDigit(n, bits);
    WriteDigit(out, ShiftLeft(buf, 5 - bits) % 32);
  }

  lemma EncoderStarts(data: seq<byte>)
    ensures BytesRead(data, 0, 0) && Encoding(0, 0, 0, "")
  {
    assert DigitsOf("") == [];
  }

  /** The encoder's result, padded or not. */
  lemma EncoderEnds(data: seq<byte>, n: int, buf: int, bits: nat, out: string)
    requires BytesRead(data, |data|, n) && Encoding(n, buf, bits, out) && bits < 5 && 5 * |out| + bits == 8 * |data|
    ensures bits == 0 ==> IsEncoding(data, out)
    ensures bits > 0 ==> IsEncoding(data, out + [Digit(ShiftLeft(buf, 5 - bits) % 32)])
  {
    assert data[..|data|] == data;
    if bits > 0 {
      EncoderPads(n, buf, bits, out);
    }
  }

  /** EncodeBase32. */
  method Encode(data: seq<byte>) returns (out: string)
    ensures IsEncoding(data, out)
    ensures |out| == (|data| * 8 + 4) / 5
  {
    hide Encoding, BytesRead, IsEncoding, ShiftUp, ShiftLeft, ShiftRight, Digit;
    out := [];
    var buf: int, bits: nat := 0, 0;
    ghost var n: int := 0;
    EncoderStarts(data);
    for i := 0 to |data|
      invariant 0 <= bits < 5 && 5 * |out| + bits == 8 * i
      invariant BytesRead(data, i, n) && Encoding(n, buf, bits, out)
    {
      ReadByte(data, i, n);
      EncoderReads(n, buf, bits, out, data[i]);
      buf, n := ShiftLeft(buf, 8) + data[i], ShiftUp(n, 8) + data[i];
      bits := bits + 8;
      while bits >= 5
        invariant 0 <= bits <= 12 && 5 * |out| + bits == 8 * (i + 1)
        invariant Encoding(n, buf, bits, out)
      {
        EncoderWrites(n, buf, bits, out);
        bits := bits - 5;
        out := out + [Digit(ShiftRight(buf, bits) % 32)];
      }
    }
    EncoderEnds(data, n, buf, bits, out);
    if bits > 0 {
      out := out + [Digit(ShiftLeft(buf, 5 - bits) % 32)];
    }
  }

  /** The decoder between two shifts: n is the number read so far, of which all but the low
    * `bits` bits have been written. */
  predicate Decoding(n: int, buf: int, bits: nat, out: seq<byte>) {
    buf == n % WORD && Value(out, 8) == ShiftRight(n, bits)
  }

  predicate DigitsRead(t: string, i: nat, n: int) {
    i <= |t| && AllValid(t[..i]) && n == Value(DigitsOf(t[..i]), 5)
  }

  lemma ReadDigit(t: string, i: nat, n: int)
    requires DigitsRead(t, i, n) && i < |t| && DecodeMap(t[i]) != 0xFF
    ensures DigitsRead(t, i + 1, ShiftUp(n, 5) + DecodeMap(t[i]))
  {
    assert t[..i + 1] == t[..i] + [t[i]];
    DigitsAppend(t[..i], t[i]);
    ValueAppend(DigitsOf(t[..i]), DecodeMap(t[i]), 5);
  }

  lemma DecoderReads(n: int, buf: int, bits: nat, out: seq<byte>, v: int)
    requires Decoding(n, buf, bits, out) && 0 <= v < 32
    ensures Decoding(ShiftUp(n, 5) + v, ShiftLeft(buf, 5) + v, bits + 5, out)
  {
    SmallPowers();
    AppendWraps(n, v, 5);
    AppendShifts(n, v, 5, bits);
  }

  lemma DecoderWrites(n: int, buf: int, bits: nat, out: seq<byte>)
    requires Decoding(n, buf, bits, out) && 8 <= bits <= 12
    ensures Decoding(n, buf, bits - 8, out + [ShiftRight(buf, bits - 8) % 256])
  {
    hide Value, ShiftRight, ShiftUp, Pow2;
    EmitDigit(n, 8, bits - 8);
    Modulo(ShiftRight(buf, bits - 8));
    ValueAppend(out, ShiftRight(buf, bits - 8) % 256, 8);
  }

  /** `buf & mask` tests the low bits of the true number. */
  lemma DecoderEnds(n: int, buf: int, bits: nat, out: seq<byte>)
    requires Decoding(n, buf, bits, out) && bits < 8
    ensures LowBits(buf, bits) == LowBits(n, bits)
    ensures LowBits(n, bits) == 0 ==> n == ShiftUp(Value(out, 8), bits)
  {
    var q := Wrapped(n);
    SameLowBits(buf, n, q, 64, bits);
    SplitAt(n, bits);
  }

  lemma DecoderStarts(t: string)
    ensures DigitsRead(t, 0, 0) && Decoding(0, 0, 0, [])
  {
    assert t[..0] == "" && DigitsOf("") == [];
  }

  lemma DigitsSoFar(t: string, i: nat, n: int)
    requires DigitsRead(t, i, n)
    ensures i <= |t| && AllValid(t[..i])
  {}

  /** The decoder's verdict. */
  lemma DecoderDecides(s: string, n: int, buf: int, bits: nat, out: seq<byte>)
    requires var t := TrimSpace(s); DigitsRead(t, |t|, n) && 8 * |out| + bits == 5 * |t|
    requires Decoding(n, buf, bits, out) && bits < 8
    ensures AllValid(TrimSpace(s))
    ensures Decodable(s) <==> bits == 0 || LowBits(buf, bits) == 0
    ensures Decodable(s) ==> IsDecoding(s, out)
  {
    var t := TrimSpace(s);
    assert t[..|t|] == t;
    DecoderEnds(n, buf, bits, out);
    BitsLeft(|t|, |out|);
    NoLowBits(n);
  }

  lemma NoLowBits(n: int)
    ensures LowBits(n, 0) == 0
  {
    SmallPowers();
  }

  lemma InvalidIsNotDecodable(s: string, i: nat)
    requires i < |TrimSpace(s)| && DecodeMap(TrimSpace(s)[i]) == 0xFF
    ensures !Decodable(s)
  {}

  /** DecodeBase32. */
  method Decode(s: string) returns (r: Result<seq<byte>, DecodeError>)
    ensures r.Ok? <==> Decodable(s)
    ensures r.Ok? ==> IsDecoding(s, r.value)
    ensures r.Err? && r.error.InvalidCharacter? ==>
              var t, i := TrimSpace(s), r.error.index;
              i < |t| && DecodeMap(t[i]) == 0xFF && AllValid(t[..i])
    ensures r == Err(TrailingBits) ==> AllValid(TrimSpace(s))
  {
    hide Decoding, DigitsRead, Decodable, IsDecoding, AllValid, ShiftUp, ShiftLeft, ShiftRight, LowBits, TrimSpace;
    var t := TrimSpace(s);
    DecoderStarts(t);
    if t == "" {
      DecoderDecides(s, 0, 0, 0, []);
      return Ok([]);
    }
    var out: seq<byte> := [];
    var buf: int, bits: nat := 0, 0;
    ghost var n: int := 0;
    for i := 0 to |t|
      invariant 0 <= bits < 8 && 8 * |out| + bits == 5 * i
      invariant DigitsRead(t, i, n) && Decoding(n, buf, bits, out)
    {
      var v := DecodeMap(t[i]);
      if v == 0xFF {
        DigitsSoFar(t, i, n);
        InvalidIsNotDecodable(s, i);
        return Err(InvalidCharacter(i));
      }
      ReadDigit(t, i, n);
      DecoderReads(n, buf, bits, out, v);
      buf, n := ShiftLeft(buf, 5) + v, ShiftUp(n, 5) + v;
      bits := bits + 5;
      if bits >= 8 {
        DecoderWrites(n, buf, bits, out);
        bits := bits - 8;
        out := out + [ShiftRight(buf, bits) % 256];
      }
    }
    DecoderDecides(s, n, buf, bits, out);
    if bits > 0 && LowBits(buf, bits) != 0 {
      return Err(TrailingBits);
    }
    return Ok(out);
  }

  predicate IsAscii(c: char) { c < '\U{80}' }

  predicate AllAscii(s: string) { forall i :: 0 <= i < |s| ==> IsAscii(s[i]) }

  /** unicode.ToLower: known on ASCII, and anything else beyond it. */
  function LowerRune(c: char, lower: char -> char): char {
    if IsAscii(c) then ToLower(c) else lower(c)
  }

  function NormalizedBy(s: string, lower: char -> char): (t: string)
    ensures |t| == |s|
    ensures AllAscii(s) ==> t == Normalized(s)
  {
    seq(|s|, i requires 0 <= i < |s| => Unambiguous(LowerRune(s[i], lower)))
  }

  /** NormalizeBase32, whatever lower case is beyond ASCII. */
  method Normalize(s: string, lower: char -> char) returns (out: string)
    ensures out == NormalizedBy(TrimSpace(s), lower)
  {
    var t := TrimSpace(s);
    out := [];
    for i := 0 to |t|
      invariant out == NormalizedBy(t[..i], lower)
    {
      var c := LowerRune(t[i], lower);
      assert t[..i + 1] == t[..i] + [t[i]];
      match c
      case 'o' => out := out + "0";
      case 'i' => out := out + "1";
      case 'l' => out := out + "1";
      case _ => out := out + [c];
    }
    assert t[..|t|] == t;
  }

  /** Normal forms are normal: two forms of a token are compared by normalizing either once. */
  lemma NormalizedTwice(s: string)
    ensures Normalized(Normalized(s)) == Normalized(s)
  {
    forall i | 0 <= i < |s| ensures NormalizeChar(NormalizeChar(s[i])) == NormalizeChar(s[i]) {}
  }

  /** What decodes is ASCII, so its normal form does not depend on the rest of Unicode. */
  lemma DecodableIsAscii(s: string, lower: char -> char)
    requires AllValid(s)
    ensures NormalizedBy(s, lower) == Normalized(s)
  {
    assert AllAscii(s) by {
      forall i | 0 <= i < |s| ensures IsAscii(s[i]) {
        assert DecodeMap(s[i]) != 0xFF;
      }
    }
  }

  // ---------------------------------------------------------------- spellings

  /** The same letter, large and small. */
  predicate SameLetter(c: char, d: char) {
    'A' <= c <= 'Z' && 'a' <= d <= 'z' && c as int - 'A' as int == d as int - 'a' as int
  }

  /** Two ways to write one symbol: either case, O for 0, I or L for 1. */
  predicate Alike(c: char, d: char) {
    c == d || SameLetter(c, d) || SameLetter(d, c) || (c in "0Oo" && d in "0Oo") || (c in "1IiLl" && d in "1IiLl")
  }

  lemma LowerExactly(c: char, d: char)
    ensures ToLower(c) == ToLower(d) <==> c == d || SameLetter(c, d) || SameLetter(d, c)
  {}

  lemma InText(c: char)
    ensures c in "0Oo" <==> c == '0' || c == 'O' || c == 'o'
    ensures c in "1IiLl" <==> c == '1' || c == 'I' || c == 'i' || c == 'L' || c == 'l'
  {
    assert "0Oo" == ['0', 'O', 'o'] && "1IiLl" == ['1', 'I', 'i', 'L', 'l'];
  }

  lemma NormalizedKinds(c: char)
    ensures NormalizeChar(c) == '0' <==> c in "0Oo"
    ensures NormalizeChar(c) == '1' <==> c in "1IiLl"
    ensures NormalizeChar(c) == '0' || NormalizeChar(c) == '1' || NormalizeChar(c) == ToLower(c)
  {
    InText(c);
  }

  lemma NormalizeAlike(c: char, d: char)
    ensures NormalizeChar(c) == NormalizeChar(d) <==> Alike(c, d)
  {
    hide NormalizeChar, ToLower, SameLetter;
    LowerExactly(c, d);
    NormalizedKinds(c);
    NormalizedKinds(d);
    if ToLower(c) == ToLower(d) {
      SameKind(c, d);
    }
  }

  lemma SameKind(c: char, d: char)
    requires ToLower(c) == ToLower(d)
    ensures NormalizeChar(c) == NormalizeChar(d)
  {}

  lemma NormalDecodesAlike(c: char)
    ensures DecodeMap(NormalizeChar(c)) == DecodeMap(c)
  {}

  /** Normalization identifies exactly these spellings, and decoding does so for every symbol. */
  lemma AlikeExactly(c: char, d: char)
    ensures NormalizeChar(c) == NormalizeChar(d) <==> Alike(c, d)
    ensures DecodeMap(c) != 0xFF ==> (DecodeMap(c) == DecodeMap(d) <==> Alike(c, d))
    ensures Alike(c, d) ==> DecodeMap(c) == DecodeMap(d)
  {
    hide NormalizeChar, DecodeMap, Alike, Digit;
    NormalizeAlike(c, d);
    NormalDecodesAlike(c);
    NormalDecodesAlike(d);
    AlphabetRoundTrip(0, c);
    AlphabetRoundTrip(0, d);
  }

  predicate AllAlike(s: string, t: string) {
    |s| == |t| && forall i :: 0 <= i < |s| ==> Alike(s[i], t[i])
  }

  /** So two tokens have one normal form exactly when one is a spelling of the other, and then they
    * decode to the same bytes or both to none. */
  lemma SpellingsAgree(s: string, t: string, data: seq<byte>)
    ensures Normalized(TrimSpace(s)) == Normalized(TrimSpace(t)) <==> AllAlike(TrimSpace(s), TrimSpace(t))
    ensures AllAlike(TrimSpace(s), TrimSpace(t)) ==>
              (Decodable(s) <==> Decodable(t)) && (IsDecoding(s, data) <==> IsDecoding(t, data))
  {
    hide NormalizeChar, DecodeMap, Alike, TrimSpace, ShiftUp, LowBits, Value;
    var a, b := TrimSpace(s), TrimSpace(t);
    assert |Normalized(a)| == |a| && |Normalized(b)| == |b|;
    if |a| == |b| {
      forall i | 0 <= i < |a|
        ensures Normalized(a)[i] == Normalized(b)[i] <==> Alike(a[i], b[i])
        ensures Alike(a[i], b[i]) ==> DecodeMap(a[i]) == DecodeMap(b[i])
      {
        AlikeExactly(a[i], b[i]);
      }
      if AllAlike(a, b) {
        assert DigitsOf(a) == DigitsOf(b);
      }
    }
  }

  // ---------------------------------------------------------------- round trips

  lemma DigitsInRange(t: string, data: seq<byte>)
    ensures AllValid(t) ==> Digits(DigitsOf(t), 5)
    ensures Digits(data, 8)
  {
    SmallPowers();
  }

  /** A string has at most one decoding. */
  lemma DecodingUnique(s: string, a: seq<byte>, b: seq<byte>)
    requires IsDecoding(s, a) && IsDecoding(s, b)
    ensures a == b
  {
    assert |a| == |b|;
    ShiftUpInjective(Value(a, 8), Value(b, 8), 5 * |TrimSpace(s)| - 8 * |a|);
    DigitsInRange(s, a);
    DigitsInRange(s, b);
    ValueInjective(a, b, 8);
  }

  lemma Remainder8(x: int, q: int, v: int)
    requires x == 8 * q + v && 0 <= v < 8
    ensures x % 8 == v
  {}

  lemma BitsLeft(digits: int, bytes: int)
    requires 0 <= 5 * digits - 8 * bytes < 8
    ensures 5 * digits % 8 == 5 * digits - 8 * bytes
    ensures 5 * digits - 8 * bytes < 5 <==> digits % 8 in {0, 2, 4, 5, 7}
  {
    Remainder8(5 * digits, bytes, 5 * digits - 8 * bytes);
    var q: int, r: int := digits / 8, digits % 8;
    FiveTimes(q, r, bytes);
  }

  lemma FiveTimes(q: int, r: int, bytes: int)
    requires 0 <= r < 8 && 0 <= 5 * (8 * q + r) - 8 * bytes < 8
    ensures 5 * (8 * q + r) - 8 * bytes < 5 <==> r in {0, 2, 4, 5, 7}
  {}

  /** What Encode wrote, Decode reads back: no trimming, no invalid character, no trailing bits. */
  lemma DecodeOfEncode(data: seq<byte>, s: string)
    requires IsEncoding(data, s)
    ensures TrimSpace(s) == s && Decodable(s) && IsDecoding(s, data)
  {
    assert TrimSpace(s) == s by {
      if s != [] {
        assert DecodeMap(s[0]) != 0xFF && DecodeMap(s[|s| - 1]) != 0xFF;
      }
    }
    var bits := 5 * |s| - 8 * |data|;
    BitsLeft(|s|, |data|);
    SplitUnique(Value(DigitsOf(s), 5), Value(data, 8), 0, bits);
  }

  method RoundTrip(data: seq<byte>) returns (s: string, r: Result<seq<byte>, DecodeError>)
    ensures IsEncoding(data, s)
    ensures r == Ok(data)
  {
    s := Encode(data);
    r := Decode(s);
    DecodeOfEncode(data, s);
    DecodingUnique(s, data, r.value);
  }

  /** Two strings of one length that represent the same bytes are equal up to normalization. */
  lemma SameDigits(t: string, e: string, data: seq<byte>)
    requires Represents(t, data) && Represents(e, data) && |t| == |e|
    ensures Normalized(t) == Normalized(e)
  {
    DigitsInRange(t, data);
    DigitsInRange(e, data);
    ValueInjective(DigitsOf(t), DigitsOf(e), 5);
    forall i | 0 <= i < |t| ensures NormalizeChar(t[i]) == NormalizeChar(e[i]) {
      assert DigitsOf(t)[i] == DigitsOf(e)[i];
      AlphabetRoundTrip(0, t[i]);
      AlphabetRoundTrip(0, e[i]);
    }
  }

  /** Re-encoding a decoded string yields its normal form exactly when the string does not end in
    * a whole digit of padding; the five good lengths modulo 8 are the ones Encode can produce. */
  lemma EncodeOfDecode(s: string, data: seq<byte>, e: string)
    requires IsDecoding(s, data) && IsEncoding(data, e)
    ensures e == Normalized(TrimSpace(s)) <==> |TrimSpace(s)| % 8 in {0, 2, 4, 5, 7}
  {
    var t := TrimSpace(s);
    BitsLeft(|t|, |data|);
    if 5 * |t| - 8 * |data| < 5 {
      assert |t| == |e|;
      SameDigits(t, e, data);
    }
  }

  /** Decoding is injective up to normalization on the lengths Encode produces, so two different
    * tokens in normal form never name the same bytes ... */
  lemma DecodeInjective(s: string, t: string, data: seq<byte>, e: string)
    requires IsDecoding(s, data) && IsDecoding(t, data) && IsEncoding(data, e)
    requires |TrimSpace(s)| % 8 in {0, 2, 4, 5, 7} && |TrimSpace(t)| % 8 in {0, 2, 4, 5, 7}
    ensures Normalized(TrimSpace(s)) == Normalized(TrimSpace(t))
  {
    EncodeOfDecode(s, data, e);
    EncodeOfDecode(t, data, e);
  }

  /** ... but not on the other lengths, although the decoder's own comment says that rejecting
    * non-zero trailing bits is enough: "" and "0" both decode to the empty string. */
  lemma DecodeNotInjective()
    ensures IsDecoding("", []) && IsDecoding("0", []) && Normalized("") != Normalized("0")
  {
    assert DigitsOf("") == [] && DigitsOf("0") == [0];
    assert Value([0], 5) == 0 by { ValueAppend([], 0, 5); assert [] + [0] == [0]; }
    assert ShiftUp(0, 5) == 0 by { ShiftUpConstants(0); }
    assert |Normalized("")| == 0 && |Normalized("0")| == 1;
  }
}
