/** Typed identifiers: 16 random-and-time bytes written as 26 Crockford base-32 digits. */
module Ids {
  import opened Orders

  const ALPHABET: string := "0123456789ABCDEFGHJKMNPQRSTVWXYZ"

  type Byte = b: nat | b < 256

  /** A raw identifier: Go's [16]byte. */
  type Raw = s: seq<Byte> | |s| == 16 witness seq(16, _ => 0)

  // ----- positional notation -----

  function Pow(base: nat, exponent: nat): (r: nat)
    ensures base > 0 ==> r > 0
  {
    if exponent == 0 then 1 else base * Pow(base, exponent - 1)
  }

  /** The number a digit sequence denotes, most significant digit first. */
  function Val(base: nat, digits: seq<nat>): nat {
    if digits == [] then 0
    else Val(base, digits[..|digits| - 1]) * base + digits[|digits| - 1]
  }

  ghost predicate Digits(base: nat, s: seq<nat>) {
    forall i | 0 <= i < |s| :: s[i] < base
  }

  /** The `n` low digits of `v`. */
  function ToDigits(base: nat, n: nat, v: nat): (s: seq<nat>)
    requires base > 0
    ensures |s| == n && forall i | 0 <= i < n :: s[i] < base
  {
    if n == 0 then [] else ToDigits(base, n - 1, v / base) + [v % base]
  }

  lemma {:induction false} ToDigitsVal(base: nat, n: nat, v: nat)
    requires base > 0 && v < Pow(base, n)
    ensures Val(base, ToDigits(base, n, v)) == v
  {
    if n > 0 {
      var q, front := v / base, ToDigits(base, n - 1, v / base);
      Quotient(v, base);
      if q >= Pow(base, n - 1) {
        MulMono(Pow(base, n - 1), q, base);
        assert false;
      }
      ToDigitsVal(base, n - 1, q);
      assert ToDigits(base, n, v)[..n - 1] == front;
    }
  }

  lemma MulMono(x: int, y: int, m: nat)
    requires x <= y
    ensures x * m <= y * m && m * x <= m * y
  {
  }

  lemma Quotient(v: nat, base: nat)
    requires base > 0
    ensures v == v / base * base + v % base == base * (v / base) + v % base
    ensures v / base >= 0
  {
  }

  lemma {:induction false} ValAppend(base: nat, a: seq<nat>, b: seq<nat>)
    ensures Val(base, a + b) == Val(base, a) * Pow(base, |b|) + Val(base, b)
  {
    if b == [] {
      assert a + b == a;
    } else {
      var front, last := b[..|b| - 1], b[|b| - 1];
      assert (a + b)[..|a + b| - 1] == a + front;
      ValAppend(base, a, front);
      Spread(Val(base, a), Pow(base, |front|), Val(base, front), base, last);
    }
  }

  lemma Spread(x: int, p: int, y: int, base: int, last: int)
    ensures (x * p + y) * base + last == x * (base * p) + (y * base + last)
  {
    assert (x * p + y) * base == x * p * base + y * base;
    assert x * p * base == x * (base * p);
  }

  lemma {:induction false} ValBound(base: nat, s: seq<nat>)
    requires base > 0 && Digits(base, s)
    ensures Val(base, s) < Pow(base, |s|)
  {
    if s != [] {
      var front := s[..|s| - 1];
      ValBound(base, front);
      MulMono(Val(base, front) + 1, Pow(base, |front|), base);
      assert (Val(base, front) + 1) * base == Val(base, front) * base + base;
    }
  }

  /** Order on digit sequences, most significant first. */
  predicate DigitsLess(a: seq<nat>, b: seq<nat>) {
    if b == [] then false
    else if a == [] then true
    else a[0] < b[0] || (a[0] == b[0] && DigitsLess(a[1..], b[1..]))
  }

  /** Among sequences of one length, digit order is numeric order. */
  lemma {:induction false} OrderIsValue(base: nat, a: seq<nat>, b: seq<nat>)
    requires base > 0 && |a| == |b| && Digits(base, a) && Digits(base, b)
    ensures DigitsLess(a, b) <==> Val(base, a) < Val(base, b)
    ensures a == b <==> Val(base, a) == Val(base, b)
  {
    if a != [] {
      HeadVal(base, a);
      HeadVal(base, b);
      OrderIsValue(base, a[1..], b[1..]);
      ValBound(base, a[1..]);
      ValBound(base, b[1..]);
      assert a == [a[0]] + a[1..] && b == [b[0]] + b[1..];
      if a[0] < b[0] {
        LeadingDigitDecides(a[0], b[0], Pow(base, |a| - 1), Val(base, a[1..]), Val(base, b[1..]));
      } else if b[0] < a[0] {
        LeadingDigitDecides(b[0], a[0], Pow(base, |a| - 1), Val(base, b[1..]), Val(base, a[1..]));
      }
    }
  }

  lemma LeadingDigitDecides(d: nat, e: nat, p: nat, low: nat, high: nat)
    requires d < e && low < p
    ensures d * p + low < e * p + high
  {
    MulMono(d + 1, e, p);
    assert (d + 1) * p == d * p + p;
  }

  lemma HeadVal(base: nat, s: seq<nat>)
    requires s != []
    ensures Val(base, s) == s[0] * Pow(base, |s| - 1) + Val(base, s[1..])
  {
    assert s == [s[0]] + s[1..];
    ValAppend(base, [s[0]], s[1..]);
    assert [s[0]][..0] == [];
    assert Val(base, [s[0]]) == s[0];
  }

  /** Each entry of `digits` denotes the next `k` bits. */
  ghost predicate Groups(k: nat, bits: seq<nat>, digits: seq<nat>)
    decreases |digits|
  {
    if digits == [] then bits == []
    else
      && |bits| >= k
      && digits[|digits| - 1] == Val(2, bits[|bits| - k..])
      && Groups(k, bits[..|bits| - k], digits[..|digits| - 1])
  }

  /** Reading a bit string k bits at a time does not change the number it denotes. */
  lemma {:induction false} Regroup(k: nat, bits: seq<nat>, digits: seq<nat>)
    requires Groups(k, bits, digits)
    ensures Val(Pow(2, k), digits) == Val(2, bits)
    decreases |digits|
  {
    if digits != [] {
      var front := bits[..|bits| - k];
      Regroup(k, front, digits[..|digits| - 1]);
      assert bits == front + bits[|bits| - k..];
      ValAppend(2, front, bits[|bits| - k..]);
    }
  }

  // ----- the encoder -----

  /** Bit `k` of the 130-bit string: two zero bits, then the 16 bytes, high bit first. */
  function PaddedBit(raw: Raw, k: nat): (r: nat)
    requires k < 130
    ensures r < 2
  {
    if k < 2 then 0 else raw[(k - 2) / 8] / Pow(2, 7 - (k - 2) % 8) % 2
  }

  function PaddedBits(raw: Raw): (r: seq<nat>)
    ensures |r| == 130
  {
    seq(130, k requires 0 <= k < 130 => PaddedBit(raw, k))
  }

  /** The 26 digits: consecutive groups of five bits. */
  function EncodedDigits(raw: Raw): (r: seq<nat>)
    ensures |r| == 26
  {
    seq(26, i requires 0 <= i < 26 => Val(2, PaddedBits(raw)[5 * i..5 * i + 5]))
  }

  lemma EncodedDigitBound(raw: Raw, i: nat)
    requires i < 26
    ensures EncodedDigits(raw)[i] < 32
  {
    var group := PaddedBits(raw)[5 * i..5 * i + 5];
    ValBound(2, group);
    Pow2Values();
  }

  lemma Pow2Values()
    ensures Pow(2, 0) == 1 && Pow(2, 1) == 2 && Pow(2, 2) == 4 && Pow(2, 3) == 8 && Pow(2, 4) == 16
    ensures Pow(2, 5) == 32 && Pow(2, 6) == 64 && Pow(2, 7) == 128 && Pow(2, 8) == 256
  {
    assert Pow(2, 4) == 2 * Pow(2, 3);
    assert Pow(2, 6) == 2 * Pow(2, 5);
  }

  function Encoded(raw: Raw): (r: string)
    ensures |r| == 26
  {
    seq(26, i requires 0 <= i < 26 => EncodedDigitBound(raw, i); ALPHABET[EncodedDigits(raw)[i]])
  }

  /** The first position of `c` in `s`. */
  function IndexIn(s: string, c: char): (d: nat)
    requires c in s
    ensures d < |s| && s[d] == c
  {
    if s[0] == c then 0 else 1 + IndexIn(s[1..], c)
  }

  /** The value of a base-32 digit. */
  function DigitOf(c: char): (d: nat)
    requires c in ALPHABET
    ensures d < 32 && ALPHABET[d] == c
  {
    assert |ALPHABET| == 32;
    IndexIn(ALPHABET, c)
  }

  function DigitsOf(s: string): (r: seq<nat>)
    requires forall c | c in s :: c in ALPHABET
    ensures |r| == |s| && Digits(32, r)
  {
    seq(|s|, i requires 0 <= i < |s| => DigitOf(s[i]))
  }

  // ----- what the encoder computes -----

  lemma {:induction false} EncodedGroups(raw: Raw, n: nat)
    requires n <= 26
    ensures Groups(5, PaddedBits(raw)[..5 * n], EncodedDigits(raw)[..n])
  {
    var bits, digits := PaddedBits(raw), EncodedDigits(raw);
    if n > 0 {
      EncodedGroups(raw, n - 1);
      assert bits[..5 * n][5 * n - 5..] == bits[5 * (n - 1)..5 * (n - 1) + 5];
      assert bits[..5 * n][..5 * n - 5] == bits[..5 * (n - 1)];
      assert digits[..n][..n - 1] == digits[..n - 1];
    }
  }

  lemma HalveByte(b: Byte, m: nat)
    requires m < 8
    ensures b / Pow(2, m) == b / Pow(2, m + 1) * 2 + b / Pow(2, m) % 2
  {
    Pow2Values();
    if m == 0 { } else if m == 1 { } else if m == 2 { } else if m == 3 { }
    else if m == 4 { } else if m == 5 { } else if m == 6 { } else { assert m == 7; }
  }

  /** The first n bits of a byte, high bit first, denote its quotient by the rest. */
  lemma {:induction false} ByteBits(bits: seq<nat>, b: Byte, n: nat)
    requires |bits| == 8 && n <= 8
    requires forall k | 0 <= k < 8 :: bits[k] == b / Pow(2, 7 - k) % 2
    ensures Val(2, bits[..n]) == b / Pow(2, 8 - n)
  {
    if n == 0 {
      Pow2Values();
    } else {
      ByteBits(bits, b, n - 1);
      assert bits[..n][..n - 1] == bits[..n - 1];
      HalveByte(b, 8 - n);
    }
  }

  /** The nth byte's window of the padded bits. */
  lemma RawWindow(raw: Raw, n: nat)
    requires n < 16
    ensures Val(2, PaddedBits(raw)[8 * n + 2..8 * n + 10]) == raw[n]
  {
    var last := PaddedBits(raw)[8 * n + 2..8 * n + 10];
    forall k | 0 <= k < 8 ensures last[k] == raw[n] / Pow(2, 7 - k) % 2 {
      assert last[k] == PaddedBit(raw, 8 * n + k + 2);
    }
    ByteBits(last, raw[n], 8);
    assert last[..8] == last;
    assert Pow(2, 0) == 1;
  }

  lemma {:induction false} RawGroups(raw: Raw, n: nat)
    requires n <= 16
    ensures Groups(8, PaddedBits(raw)[2..8 * n + 2], raw[..n])
  {
    var bits := PaddedBits(raw);
    if n > 0 {
      RawGroups(raw, n - 1);
      RawWindow(raw, n - 1);
      var window := bits[2..8 * n + 2];
      assert window[|window| - 8..] == bits[8 * (n - 1) + 2..8 * (n - 1) + 10];
      assert window[..|window| - 8] == bits[2..8 * (n - 1) + 2];
      assert raw[..n][..n - 1] == raw[..n - 1];
    } else {
      assert bits[2..2] == [];
    }
  }

  lemma LeadingZeros(bits: seq<nat>)
    requires |bits| >= 2 && bits[0] == 0 && bits[1] == 0
    ensures Val(2, bits) == Val(2, bits[2..])
  {
    assert bits == [0, 0] + bits[2..];
    ValAppend(2, [0, 0], bits[2..]);
    assert [0, 0][..1] == [0] && [0][..0] == [];
    assert Val(2, [0]) == 0 && Val(2, [0, 0]) == 0;
  }

  lemma BytesValue(raw: Raw)
    ensures Val(256, raw) == Val(2, PaddedBits(raw))
  {
    var bits := PaddedBits(raw);
    RawGroups(raw, 16);
    assert bits[2..130] == bits[2..] && raw[..16] == raw;
    Regroup(8, bits[2..], raw);
    LeadingZeros(bits);
    Pow2Values();
  }

  /** The 26 digits are the base-32 form of the 128-bit number the bytes denote. */
  lemma EncodedValue(raw: Raw)
    ensures Val(32, EncodedDigits(raw)) == Val(256, raw)
  {
    var bits := PaddedBits(raw);
    EncodedGroups(raw, 26);
    assert bits[..130] == bits && EncodedDigits(raw)[..26] == EncodedDigits(raw);
    Regroup(5, bits, EncodedDigits(raw));
    BytesValue(raw);
    Pow2Values();
  }

  lemma {:induction false} AlphabetAscends(d: nat, e: nat)
    requires d < e < 32
    ensures ALPHABET[d] < ALPHABET[e]
  {
    assert |ALPHABET| == 32;
    assert ALPHABET[e - 1] < ALPHABET[e];
    if d < e - 1 {
      AlphabetAscends(d, e - 1);
    }
  }

  lemma EncodedChars(raw: Raw)
    ensures forall c | c in Encoded(raw) :: c in ALPHABET
    ensures DigitsOf(Encoded(raw)) == EncodedDigits(raw)
  {
    var s := Encoded(raw);
    assert |ALPHABET| == 32;
    forall i | 0 <= i < 26
      ensures s[i] in ALPHABET && DigitOf(s[i]) == EncodedDigits(raw)[i]
    {
      EncodedDigitBound(raw, i);
      AlphabetInjective(EncodedDigits(raw)[i], DigitOf(s[i]));
    }
    forall c | c in s ensures c in ALPHABET {
      var i :| 0 <= i < 26 && s[i] == c;
    }
  }

  lemma AlphabetInjective(d: nat, e: nat)
    requires d < 32 && e < 32 && |ALPHABET| == 32 && ALPHABET[d] == ALPHABET[e]
    ensures d == e
  {
    if d < e { AlphabetAscends(d, e); }
    if e < d { AlphabetAscends(e, d); }
  }

  /** Text order on alphabet strings is digit order: the alphabet ascends in ASCII. */
  lemma {:induction false} TextOrder(a: string, b: string)
    requires forall c | c in a :: c in ALPHABET
    requires forall c | c in b :: c in ALPHABET
    ensures StringLess(a, b) <==> DigitsLess(DigitsOf(a), DigitsOf(b))
  {
    var x, y := DigitsOf(a), DigitsOf(b);
    if a != [] && b != [] {
      assert a[0] in a && b[0] in b;
      forall c | c in a[1..] ensures c in ALPHABET { assert c in a; }
      forall c | c in b[1..] ensures c in ALPHABET { assert c in b; }
      TextOrder(a[1..], b[1..]);
      assert x[1..] == DigitsOf(a[1..]) && y[1..] == DigitsOf(b[1..]);
      if x[0] < y[0] { AlphabetAscends(x[0], y[0]); }
      if y[0] < x[0] { AlphabetAscends(y[0], x[0]); }
    }
  }

  /** Identifiers compare as text exactly as their bytes compare, and no two raw values share one. */
  lemma EncodingOrder(p: Raw, q: Raw)
    ensures StringLess(Encoded(p), Encoded(q)) <==> DigitsLess(p, q)
    ensures Encoded(p) == Encoded(q) <==> p == q
  {
    EncodedChars(p);
    EncodedChars(q);
    TextOrder(Encoded(p), Encoded(q));
    EncodedValue(p);
    EncodedValue(q);
    OrderIsValue(32, EncodedDigits(p), EncodedDigits(q));
    OrderIsValue(256, p, q);
  }

  /** What the inner loop has accumulated after `bit` bits. */
  ghost function Accumulated(raw: Raw, i: nat, bit: nat): nat
    requires i < 26 && bit <= 5
  {
    Val(2, PaddedBits(raw)[5 * i..5 * i + bit])
  }

  lemma AccumulateBit(raw: Raw, i: nat, bit: nat)
    requires i < 26 && bit < 5
    ensures Accumulated(raw, i, bit + 1) == Accumulated(raw, i, bit) * 2 + PaddedBit(raw, 5 * i + bit)
    ensures Accumulated(raw, i, bit) < 32
  {
    var before, after := PaddedBits(raw)[5 * i..5 * i + bit], PaddedBits(raw)[5 * i..5 * i + bit + 1];
    assert after[..bit] == before && after[bit] == PaddedBit(raw, 5 * i + bit);
    ValBound(2, before);
    Pow2Values();
  }

  /** The inner loop: the five source bits of character `i`, missing leading bits read as zero. */
  method EncodeGroup(raw: Raw, i: nat) returns (value: nat)
    requires i < 26
    ensures value == EncodedDigits(raw)[i]
  {
    value := 0;
    var bit := 0;
    while bit < 5
      invariant 0 <= bit <= 5
      invariant value == Accumulated(raw, i, bit)
    {
      value := ShiftBit(raw, i, bit, value);
      bit := bit + 1;
    }
  }

  method ShiftBit(raw: Raw, i: nat, bit: nat, before: nat) returns (value: nat)
    requires i < 26 && bit < 5 && before == Accumulated(raw, i, bit)
    ensures value == Accumulated(raw, i, bit + 1)
  {
    AccumulateBit(raw, i, bit);
    var sourceBit := i * 5 + bit - 2;
    value := before * 2 % 256;
    if 0 <= sourceBit < 128 {
      var byteIndex := sourceBit / 8;
      var bitIndex := 7 - sourceBit % 8;
      value := value + raw[byteIndex] / Pow(2, bitIndex) % 2;
    }
  }

  method Encode(raw: Raw) returns (text: string)
    ensures text == Encoded(raw)
  {
    var encoded := new char[26];
    assert |ALPHABET| == 32;
    var i := 0;
    while i < encoded.Length
      invariant 0 <= i <= 26
      invariant forall k | 0 <= k < i :: encoded[k] == Encoded(raw)[k]
    {
      var value := EncodeGroup(raw, i);
      EncodedDigitBound(raw, i);
      encoded[i] := ALPHABET[value];
      i := i + 1;
    }
    text := encoded[..];
  }

  // ----- validation -----

  ghost predicate WellTyped(prefix: string, value: string) {
    && prefix != ""
    && |value| == |prefix| + 26
    && value[..|prefix|] == prefix
    && forall c | c in value[|prefix|..] :: c in ALPHABET
  }

  method Valid(prefix: string, value: string) returns (ok: bool)
    ensures ok <==> WellTyped(prefix, value)
  {
    if prefix == "" || |value| != |prefix| + 26 || value[..|prefix|] != prefix {
      return false;
    }
    var body := value[|prefix|..];
    var i := 0;
    while i < |body|
      invariant 0 <= i <= |body|
      invariant forall c | c in body[..i] :: c in ALPHABET
    {
      if body[i] as int > 127 || body[i] !in ALPHABET {
        assert body[i] in body;
        return false;
      }
      i := i + 1;
    }
    assert body[..i] == body;
    return true;
  }

  /** Valid accepts every generated identifier; conversely a valid text is one that some 16 bytes
      generate exactly when its first digit leaves the two padding bits zero. */
  lemma ValidAndGenerated(prefix: string, value: string)
    requires prefix != ""
    ensures (exists raw: Raw :: value == prefix + Encoded(raw))
       <==> (WellTyped(prefix, value) && value[|prefix|] <= '7')
  {
    if raw: Raw :| value == prefix + Encoded(raw) {
      EncodedChars(raw);
      assert value[|prefix|..] == Encoded(raw);
      LeadingDigit(raw);
      assert value[|prefix|] == Encoded(raw)[0];
    }
    if WellTyped(prefix, value) && value[|prefix|] <= '7' {
      var body := value[|prefix|..];
      var raw := Decoded(body);
      DecodedEncodes(body);
      assert value == prefix + Encoded(raw);
    }
  }

  lemma LeadingDigit(raw: Raw)
    ensures Encoded(raw)[0] <= '7'
  {
    var bits := PaddedBits(raw)[0..5];
    assert PaddedBits(raw)[5 * 0..5 * 0 + 5] == bits;
    LeadingZeros(bits);
    ValBound(2, bits[2..]);
    Pow2Values();
    assert EncodedDigits(raw)[0] < 8;
    assert |ALPHABET| == 32 && ALPHABET[7] == '7';
    if EncodedDigits(raw)[0] < 7 { AlphabetAscends(EncodedDigits(raw)[0], 7); }
  }

  /** The bytes a 26-digit text denotes. */
  function Decoded(body: string): Raw
    requires |body| == 26 && forall c | c in body :: c in ALPHABET
  {
    var s: seq<Byte> := ToDigits(256, 16, Val(32, DigitsOf(body)));
    s
  }

  lemma PowAdd(base: nat, m: nat, n: nat)
    ensures Pow(base, m + n) == Pow(base, m) * Pow(base, n)
  {
    if m > 0 {
      PowAdd(base, m - 1, n);
      assert Pow(base, m) * Pow(base, n) == base * (Pow(base, m - 1) * Pow(base, n));
    }
  }

  lemma {:induction false} PowPow(base: nat, k: nat, n: nat)
    ensures Pow(Pow(base, k), n) == Pow(base, k * n)
  {
    if n > 0 {
      PowPow(base, k, n - 1);
      assert k * n == k + k * (n - 1);
      PowAdd(base, k, k * (n - 1));
    }
  }

  lemma DecodedEncodes(body: string)
    requires |body| == 26 && (forall c | c in body :: c in ALPHABET) && body[0] <= '7'
    ensures Encoded(Decoded(body)) == body
  {
    var d := DigitsOf(body);
    assert |ALPHABET| == 32 && ALPHABET[7] == '7';
    assert body[0] in body;
    if d[0] > 7 { AlphabetAscends(7, d[0]); }
    HeadVal(32, d);
    ValBound(32, d[1..]);
    Pow2Values();
    LeadingDigitDecides(d[0], 8, Pow(32, 25), Val(32, d[1..]), 0);
    PowPow(2, 5, 25);
    PowPow(2, 8, 16);
    PowAdd(2, 3, 125);
    ToDigitsVal(256, 16, Val(32, d));
    var raw := Decoded(body);
    EncodedValue(raw);
    EncodedChars(raw);
    OrderIsValue(32, EncodedDigits(raw), d);
    forall i | 0 <= i < 26 ensures Encoded(raw)[i] == body[i] {
      assert DigitsOf(Encoded(raw))[i] == d[i];
    }
  }
}
