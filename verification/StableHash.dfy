/** hash.cpp: 64-bit FNV-1a and its hexadecimal text. */
module StableHash {
  import opened Base

  const OFFSET_BASIS: u64 := 14695981039346656037
  const PRIME: u64 := 1099511628211
  /** PRIME * INVERSE == 1 modulo 2^64: the prime is odd. */
  const INVERSE: u64 := 0xce965057aff6957b

  // ---------------------------------------------------------------- exclusive or

  /** Bitwise exclusive or. */
  function Xor(a: nat, b: nat): nat
    decreases a + b
  {
    if a == 0 && b == 0 then 0 else 2 * Xor(a / 2, b / 2) + if a % 2 == b % 2 then 0 else 1
  }

  lemma {:induction false} XorHalves(a: nat, b: nat)
    ensures Xor(a, b) / 2 == Xor(a / 2, b / 2)
    ensures Xor(a, b) % 2 == if a % 2 == b % 2 then 0 else 1
  {
  }

  lemma {:induction false} XorZero(a: nat)
    ensures Xor(a, 0) == a
    decreases a
  {
    if a > 0 { XorZero(a / 2); }
  }

  lemma {:induction false} XorUndone(a: nat, b: nat)
    ensures Xor(Xor(a, b), b) == a
    decreases a + b
  {
    if a > 0 || b > 0 {
      XorUndone(a / 2, b / 2);
      XorHalves(a, b);
      XorHalves(Xor(a, b), b);
    }
  }

  lemma {:induction false} XorCommutes(a: nat, b: nat)
    ensures Xor(a, b) == Xor(b, a)
    decreases a + b
  {
    if a > 0 || b > 0 { XorCommutes(a / 2, b / 2); }
  }

  /** A byte reaches only the low eight bits. */
  lemma {:induction false} XorByteStays(a: nat, c: byte)
    ensures Xor(a, c) / 256 == a / 256
  {
    XorBits(a, c, 8);
    ShiftEight(a);
    ShiftEight(c);
    ShiftEight(Xor(a, c));
    XorZero(a / 256);
  }

  function Shift(a: nat, bits: nat): nat {
    if bits == 0 then a else Shift(a, bits - 1) / 2
  }

  lemma {:induction false} ShiftEight(a: nat)
    ensures Shift(a, 8) == a / 256
  {
    assert Shift(a, 1) == a / 2;
    assert Shift(a, 2) == a / 4;
    assert Shift(a, 3) == a / 8;
    assert Shift(a, 4) == a / 16;
    assert Shift(a, 5) == a / 32;
    assert Shift(a, 6) == a / 64;
    assert Shift(a, 7) == a / 128;
  }

  lemma {:induction false} XorBits(a: nat, b: nat, bits: nat)
    ensures Shift(Xor(a, b), bits) == Xor(Shift(a, bits), Shift(b, bits))
    decreases bits
  {
    if bits > 0 {
      XorBits(a, b, bits - 1);
      XorHalves(Shift(a, bits - 1), Shift(b, bits - 1));
    }
  }

  // ---------------------------------------------------------------- the hash

  function Mixed(state: u64, c: byte): (x: u64) {
    XorByteStays(state, c);
    Xor(state, c)
  }

  function Times(state: u64, factor: u64): u64 {
    state * factor % U64_MODULUS
  }

  function Step(state: u64, c: byte): u64 {
    Times(Mixed(state, c), PRIME)
  }

  /** The state before a step, from the state after it. */
  function Unstep(state: u64, c: byte): u64 {
    Mixed(Times(state, INVERSE), c)
  }

  function HashFrom(state: u64, value: seq<byte>): u64 {
    if value == [] then state else Step(HashFrom(state, value[..|value| - 1]), value[|value| - 1])
  }

  function Hash(value: seq<byte>): u64 {
    HashFrom(OFFSET_BASIS, value)
  }

  method StableHash64(value: seq<byte>) returns (result: u64)
    ensures result == Hash(value)
  {
    result := OFFSET_BASIS;
    var i := 0;
    while i < |value|
      invariant 0 <= i <= |value| && result == Hash(value[..i])
    {
      assert value[..i + 1][..i] == value[..i];
      result := Mixed(result, value[i]);
      result := Times(result, PRIME);
      i := i + 1;
    }
    assert value[..i] == value;
  }

  lemma {:induction false} TimesUndone(x: u64)
    ensures Times(Times(x, PRIME), INVERSE) == x && Times(Times(x, INVERSE), PRIME) == x
  {
    ModularInverse(x, PRIME, INVERSE, (PRIME * INVERSE) / U64_MODULUS);
    ModularInverse(x, INVERSE, PRIME, (PRIME * INVERSE) / U64_MODULUS);
  }

  lemma {:induction false} ModularInverse(x: u64, p: u64, q: u64, t: nat)
    requires p * q == 1 + t * U64_MODULUS
    ensures Times(Times(x, p), q) == x
  {
    var y, m := x * p / U64_MODULUS, U64_MODULUS;
    var r := Times(x, p);
    assert r == x * p - y * m;
    calc {
      r * q;
      (x * p) * q - (y * m) * q;
      { assert (x * p) * q == x * (p * q); }
      x * (1 + t * m) - (y * m) * q;
      { assert x * (1 + t * m) == x + (x * t) * m; assert (y * m) * q == (y * q) * m; }
      x + (x * t) * m - (y * q) * m;
      { assert (x * t) * m - (y * q) * m == (x * t - y * q) * m; }
      x + (x * t - y * q) * m;
    }
    Remainder(x, x * t - y * q, r * q);
  }

  lemma {:induction false} Remainder(x: u64, k: int, n: int)
    requires n == x + k * U64_MODULUS
    ensures n % U64_MODULUS == x
  {
  }

  /** Every step can be undone, so it is a bijection of the state. */
  lemma {:induction false} StepUndone(state: u64, c: byte)
    ensures Unstep(Step(state, c), c) == state
    ensures Step(Unstep(state, c), c) == state
  {
    TimesUndone(Mixed(state, c));
    TimesUndone(state);
    XorUndone(state, c);
    XorUndone(Times(state, INVERSE), c);
  }

  lemma {:induction false} StepTellsCharacters(state: u64, c: byte, d: byte)
    requires Step(state, c) == Step(state, d)
    ensures c == d
  {
    TimesUndone(Mixed(state, c));
    TimesUndone(Mixed(state, d));
    XorCommutes(state, c);
    XorCommutes(state, d);
    XorUndone(c, state);
    XorUndone(d, state);
  }

  lemma {:induction false} HashFromSplits(state: u64, a: seq<byte>, b: seq<byte>)
    ensures HashFrom(state, a + b) == HashFrom(HashFrom(state, a), b)
    decreases |b|
  {
    if b == [] {
      assert a + b == a;
    } else {
      var n := |b| - 1;
      HashFromSplits(state, a, b[..n]);
      assert (a + b)[..|a + b| - 1] == a + b[..n];
    }
  }

  /** A common suffix neither makes nor hides a collision. */
  lemma {:induction false} SuffixKeepsDifference(a: u64, b: u64, suffix: seq<byte>)
    ensures HashFrom(a, suffix) == HashFrom(b, suffix) <==> a == b
    decreases |suffix|
  {
    if suffix != [] {
      var n := |suffix| - 1;
      SuffixKeepsDifference(a, b, suffix[..n]);
      StepUndone(HashFrom(a, suffix[..n]), suffix[n]);
      StepUndone(HashFrom(b, suffix[..n]), suffix[n]);
    }
  }

  /** Strings that differ in exactly one byte never collide. */
  lemma {:induction false} OneByteNeverCollides(prefix: seq<byte>, c: byte, d: byte, suffix: seq<byte>)
    requires c != d
    ensures Hash(prefix + [c] + suffix) != Hash(prefix + [d] + suffix)
  {
    var state := Hash(prefix);
    HashFromSplits(OFFSET_BASIS, prefix + [c], suffix);
    HashFromSplits(OFFSET_BASIS, prefix + [d], suffix);
    HashFromSplits(OFFSET_BASIS, prefix, [c]);
    HashFromSplits(OFFSET_BASIS, prefix, [d]);
    OneStep(state, c);
    OneStep(state, d);
    SuffixKeepsDifference(Step(state, c), Step(state, d), suffix);
    if Step(state, c) == Step(state, d) { StepTellsCharacters(state, c, d); }
  }

  lemma {:induction false} OneStep(state: u64, c: byte)
    ensures HashFrom(state, [c]) == Step(state, c)
  {
    assert [c][..0] == [];
  }

  /** The same, stated on positions: equal length, and equal everywhere but at one place. */
  lemma {:induction false} SingleDifferenceNeverCollides(s: seq<byte>, t: seq<byte>, i: nat)
    requires |s| == |t| && i < |s| && s[i] != t[i]
    requires forall j :: 0 <= j < |s| && j != i ==> s[j] == t[j]
    ensures Hash(s) != Hash(t)
  {
    assert s[..i] == t[..i] && s[i + 1..] == t[i + 1..];
    assert s == s[..i] + [s[i]] + s[i + 1..] && t == s[..i] + [t[i]] + s[i + 1..];
    OneByteNeverCollides(s[..i], s[i], t[i], s[i + 1..]);
  }

  /** An exclusive or from that of the halves. */
  lemma {:induction false} XorUp(a: nat, b: nat, halves: nat)
    requires Xor(a / 2, b / 2) == halves
    ensures Xor(a, b) == 2 * halves + if a % 2 == b % 2 then 0 else 1
  {
  }

  lemma {:induction false} KnownMix()
    ensures Xor(OFFSET_BASIS, 0x61) == 0xcbf2_9ce4_8422_2344
  {
    XorZero(0x197e539c9084446);
    XorUp(0x32fca739210888c, 0x1, 0x197e539c9084446);
    XorUp(0x65f94e724211119, 0x3, 0x32fca739210888d);
    XorUp(0xcbf29ce48422232, 0x6, 0x65f94e72421111a);
    XorUp(0x197e539c90844464, 0xc, 0xcbf29ce48422234);
    XorUp(0x32fca739210888c9, 0x18, 0x197e539c90844468);
    XorUp(0x65f94e7242111192, 0x30, 0x32fca739210888d1);
    XorUp(0xcbf29ce484222325, 0x61, 0x65f94e72421111a2);
  }

  lemma {:induction false} KnownProduct()
    ensures Times(0xcbf2_9ce4_8422_2344, PRIME) == 0xaf63_dc4c_8601_ec8c
  {
  }

  /** Published values of the 64-bit FNV-1a hash: of the empty string and of the letter a. */
  lemma {:induction false} KnownHashes()
    ensures Hash([]) == 0xcbf2_9ce4_8422_2325
    ensures Hash([0x61]) == 0xaf63_dc4c_8601_ec8c
  {
    OneStep(OFFSET_BASIS, 0x61);
    KnownMix();
    KnownProduct();
  }

  // ---------------------------------------------------------------- hexadecimal text

  const DIGITS: string := "0123456789abcdef"

  /** The hash shifted right by k hexadecimal digits. */
  function Shifted(hash: u64, k: nat): nat {
    if k == 0 then hash else Shifted(hash, k - 1) / 16
  }

  /** Digit i is the low digit of the hash shifted by the 15 - i digits behind it. */
  function Hex(hash: u64): (s: string)
    ensures |s| == 16
  {
    seq(16, i requires 0 <= i < 16 => DIGITS[Shifted(hash, 15 - i) % 16])
  }

  method StableHashHex(value: seq<byte>) returns (result: string)
    ensures result == Hex(Hash(value))
  {
    var hash := StableHash64(value);
    result := seq(16, _ => '0');
    var index := 0;
    while index < |result|
      invariant 0 <= index <= |result| == 16
      invariant forall i :: 0 <= i < index ==> result[i] == Hex(hash)[i]
    {
      var shifted := Shifted(hash, |result| - 1 - index);
      result := result[index := DIGITS[shifted % 16]];
      index := index + 1;
    }
  }

  /** The value of a hexadecimal digit. */
  function ValueOf(c: char): Option<nat> {
    if '0' <= c <= '9' then Some((c - '0') as nat)
    else if 'a' <= c <= 'f' then Some(10 + (c - 'a') as nat)
    else None
  }

  /** Reading hexadecimal text, most significant digit first. */
  function ReadHex(s: string): Option<nat> {
    if s == "" then Some(0)
    else
      match (ReadHex(s[..|s| - 1]), ValueOf(s[|s| - 1]))
      case (Some(high), Some(digit)) => Some(16 * high + digit)
      case _ => None
  }

  lemma {:induction false} ShiftedBelow(hash: u64, k: nat, bound: nat)
    requires k <= 16 && bound == Power16(16 - k)
    ensures Shifted(hash, k) < bound
    decreases k
  {
    if k == 0 {
      assert Power16(4) == 0x1_0000;
      assert Power16(8) == 0x1_0000_0000;
      assert Power16(12) == 0x1_0000_0000_0000;
      assert Power16(16) == U64_MODULUS;
    } else {
      ShiftedBelow(hash, k - 1, 16 * bound);
    }
  }

  function Power16(k: nat): nat {
    if k == 0 then 1 else 16 * Power16(k - 1)
  }

  lemma {:induction false} DigitRead(n: nat)
    requires n < 16
    ensures ValueOf(DIGITS[n]) == Some(n)
  {
  }

  lemma {:induction false} ReadPrefix(hash: u64, k: nat)
    requires k <= 16
    ensures ReadHex(Hex(hash)[..k]) == Some(Shifted(hash, 16 - k))
    decreases k
  {
    if k == 0 {
      ShiftedBelow(hash, 16, 1);
    } else {
      ReadPrefix(hash, k - 1);
      var x := Shifted(hash, 16 - k);
      DigitRead(x % 16);
      ReadNext(Hex(hash), k - 1, x);
    }
  }

  lemma {:induction false} ReadNext(s: string, n: nat, x: nat)
    requires n < |s| && ReadHex(s[..n]) == Some(x / 16) && ValueOf(s[n]) == Some(x % 16)
    ensures ReadHex(s[..n + 1]) == Some(x)
  {
    assert s[..n + 1][..n] == s[..n];
  }

  /** The reader inverts the text, so the text determines the hash. */
  lemma {:induction false} ReadInvertsHex(hash: u64)
    ensures ReadHex(Hex(hash)) == Some(hash)
  {
    ReadPrefix(hash, 16);
    assert Hex(hash)[..16] == Hex(hash);
  }

  lemma {:induction false} HexInjective(a: u64, b: u64)
    requires Hex(a) == Hex(b)
    ensures a == b
  {
    ReadInvertsHex(a);
    ReadInvertsHex(b);
  }
}
