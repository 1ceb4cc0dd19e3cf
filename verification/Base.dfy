/** Types shared by the component models. */
module Base {
  type byte = x: int | 0 <= x < 256
  type u32 = x: int | 0 <= x < 0x1_0000_0000
  type u64 = x: int | 0 <= x < 0x1_0000_0000_0000_0000

  const U64_MODULUS := 0x1_0000_0000_0000_0000

  datatype Option<+T> = None | Some(value: T)

  /** A C++ function that may throw: its value, or the exception it ends with. */
  datatype Outcome<+T> = Returned(value: T) | Threw(error: Error)

  datatype Error = InvalidArgument | RuntimeError | OverflowError

  /** A piece of a source file, as the chunker makes it and the repository stores it. */
  datatype Chunk = Chunk(id: u64, startLine: nat, endLine: nat, language: string, content: string,
                         contentHash: string)

  function Min(a: nat, b: nat): nat { if a <= b then a else b }

  /** 64-bit addition of two 64-bit numbers. */
  function Add64(a: nat, b: nat): nat {
    if a + b < U64_MODULUS then a + b else a + b - U64_MODULUS
  }

  lemma {:induction false} SubsetSize<T>(a: set<T>, b: set<T>)
    requires a <= b
    ensures |a| <= |b|
  {
    assert b == a + (b - a);
  }

  lemma {:induction false} Longer<T>(a: seq<T>, b: seq<T>, c: seq<T>)
    requires a <= b <= c
    ensures a <= c
  {
  }

  /** Taking one position out of a sequence takes one occurrence out of its multiset. */
  lemma {:induction false} RemovedAt<T>(s: seq<T>, j: nat)
    requires j < |s|
    ensures multiset(s[..j] + s[j + 1..]) == multiset(s) - multiset{s[j]}
  {
    assert s == s[..j] + [s[j]] + s[j + 1..];
  }

  lemma {:induction false} SplitFirst<T>(s: seq<T>)
    requires s != []
    ensures s == [s[0]] + s[1..]
    ensures multiset(s[1..]) == multiset(s) - multiset{s[0]}
  {
    assert s == [s[0]] + s[1..];
  }

  lemma {:induction false} SplitLast<T>(s: seq<T>)
    requires s != []
    ensures s == s[..|s| - 1] + [s[|s| - 1]]
    ensures multiset(s[..|s| - 1]) == multiset(s) - multiset{s[|s| - 1]}
  {
    assert s == s[..|s| - 1] + [s[|s| - 1]];
  }

  lemma {:induction false} PositiveProduct(x: real, y: real, product: real)
    requires x > 0.0 && y > 0.0 && product == x * y
    ensures product > 0.0
  {
  }

  lemma {:induction false} PositiveFactor(x: real, y: real)
    requires y > 0.0 && x * y > 0.0
    ensures x > 0.0
  {
  }
}
