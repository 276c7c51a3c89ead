/** Go's fixed-width integers. */
module GoInts {
  const TWO63: int := 0x8000_0000_0000_0000
  const TWO64: int := 0x1_0000_0000_0000_0000

  type u64 = x: int | 0 <= x < 0x1_0000_0000_0000_0000

  /** `int64(n)` and, on 64-bit platforms, `int(n)`. */
  function ToInt(n: u64): int
  {
    if n < TWO63 then n else n - TWO64
  }
}

/** Bytes, big-endian numbers, and how much of a finite stream Go's readers take. */
module Bytes {
  import opened GoInts

  type byte = x: int | 0 <= x < 256
  type bytes = seq<byte>

  /** A Go byte slice: its length is an `int`. */
  type slice = b: bytes | |b| < TWO63

  function Power(k: nat): nat { if k == 0 then 1 else 256 * Power(k - 1) }

  function Digits(n: nat, k: nat): (b: bytes)
    ensures |b| == k
  {
    if k == 0 then [] else Digits(n / 256, k - 1) + [n % 256]
  }

  function Number(b: bytes): (n: nat)
  {
    if b == [] then 0 else 256 * Number(b[..|b| - 1]) + b[|b| - 1]
  }

  lemma {:induction false} NumberDigits(n: nat, k: nat)
    requires n < Power(k)
    ensures Number(Digits(n, k)) == n
  {
    if k != 0 {
      var init := Digits(n / 256, k - 1);
      assert Digits(n, k)[..k - 1] == init;
      NumberDigits(n / 256, k - 1);
    }
  }

  lemma {:induction false} NumberBound(b: bytes)
    ensures Number(b) < Power(|b|)
  {
    if b != [] { NumberBound(b[..|b| - 1]); }
  }

  lemma EightBytes()
    ensures Power(8) == TWO64
  {
    assert Power(3) == 0x100_0000;
    assert Power(5) == 256 * 256 * Power(3);
    assert Power(8) == 256 * 256 * 256 * Power(5);
  }

  /** `binary.BigEndian` for a `uint64`. */
  function U64(n: u64): (b: bytes)
    ensures |b| == 8
  {
    Digits(n, 8)
  }

  function FromU64(b: bytes): u64
    requires |b| == 8
  {
    NumberBound(b);
    EightBytes();
    Number(b)
  }

  lemma U64RoundTrip(n: u64)
    ensures FromU64(U64(n)) == n
  {
    EightBytes();
    NumberDigits(n, 8);
  }

  /** Eight bytes with the most significant one first, by place. */
  function Word(b: bytes): int
    requires |b| == 8
  {
    (b[0] as int) * 0x100_0000_0000_0000 + (b[1] as int) * 0x1_0000_0000_0000 + (b[2] as int) * 0x100_0000_0000 + (b[3] as int) * 0x1_0000_0000
    + (b[4] as int) * 0x100_0000 + (b[5] as int) * 0x1_0000 + (b[6] as int) * 0x100 + b[7]
  }

  /** The byte order on the wires: numbers are written and read with their most significant byte first. */
  lemma BigEndian(n: u64, b: bytes)
    requires |b| == 8
    ensures Word(U64(n)) == n && FromU64(b) == Word(b)
  {
    NumberIsWord(b);
    NumberIsWord(U64(n));
    U64RoundTrip(n);
  }

  lemma NumberIsWord(b: bytes)
    requires |b| == 8
    ensures Number(b) == Word(b)
  {
    var b4 := b[..4];
    NumberOfFour(b4);
    LastByte(b, 8);
    LastByte(b, 7);
    LastByte(b, 6);
    LastByte(b, 5);
  }

  lemma LastByte(b: bytes, n: nat)
    requires 0 < n <= |b|
    ensures Number(b[..n]) == 256 * Number(b[..n - 1]) + b[n - 1] && b[..|b|] == b
  {
    assert b[..n][..n - 1] == b[..n - 1];
  }

  lemma NumberOfFour(b: bytes)
    requires |b| == 4
    ensures Number(b) == (b[0] as int) * 0x100_0000 + (b[1] as int) * 0x1_0000 + (b[2] as int) * 0x100 + b[3]
  {
    LastByte(b, 4);
    LastByte(b, 3);
    LastByte(b, 2);
    LastByte(b, 1);
  }

  /** The bytes of an ASCII text. */
  function Text(s: string): bytes
  {
    seq(|s|, i requires 0 <= i < |s| => s[i] as int % 256)
  }

  // ----- reading from a stream that ends -----

  datatype IoError = EOF | UnexpectedEOF {
    function Message(): bytes
    {
      if EOF? then Text("EOF") else Text("unexpected EOF")
    }
  }

  datatype Read<+T> = Got(value: T, rest: bytes) | Fail(error: IoError)

  /** `binary.Read` of a `uint64`: "unexpected" only when it breaks inside the eight bytes. */
  function ReadU64(s: bytes): Read<u64>
  {
    if |s| >= 8 then Got(FromU64(s[..8]), s[8..])
    else if s == [] then Fail(EOF)
    else Fail(UnexpectedEOF)
  }

  /** `io.CopyN`: a count below one copies nothing and succeeds. */
  function CopyN(s: bytes, n: int): Read<bytes>
  {
    if n <= 0 then Got([], s)
    else if |s| < n then Fail(EOF)
    else Got(s[..n], s[n..])
  }

  /** Go's error texts, byte by byte. */
  lemma ErrorMessages()
    ensures EOF.Message() == [69, 79, 70]
    ensures UnexpectedEOF.Message() == [117, 110, 101, 120, 112, 101, 99, 116, 101, 100, 32, 69, 79, 70]
  {
  }

  /** A length of 2^63 or more is negative as an `int64`, and nothing is copied. */
  lemma HugeLength(n: u64, s: bytes)
    requires n >= TWO63
    ensures ToInt(n) < 0 && CopyN(s, ToInt(n)) == Got([], s)
  {
  }

  // ----- a value preceded by its length -----

  /** Lengths that a Go `int` can hold. */
  ghost predicate Sendable(b: bytes) { |b| < TWO63 }

  function Chunk(b: bytes): (r: bytes)
    requires Sendable(b)
    ensures |r| == 8 + |b|
  {
    U64(|b|) + b
  }

  function ReadChunk(s: bytes): (r: Read<bytes>)
    ensures r.Got? ==> |r.rest| + 8 + |r.value| <= |s|
  {
    match ReadU64(s)
    case Fail(e) => Fail(e)
    case Got(n, rest) => CopyN(rest, ToInt(n))
  }

  lemma ReadU64At(n: u64, rest: bytes)
    ensures ReadU64(U64(n) + rest) == Got(n, rest)
  {
    U64RoundTrip(n);
    var s := U64(n) + rest;
    assert s[..8] == U64(n) && s[8..] == rest;
  }

  lemma ReadChunkAt(b: bytes, rest: bytes)
    requires Sendable(b)
    ensures ReadChunk(Chunk(b) + rest) == Got(b, rest)
  {
    ReadU64At(|b|, b + rest);
    assert Chunk(b) + rest == U64(|b|) + (b + rest);
    assert (b + rest)[..|b|] == b && (b + rest)[|b|..] == rest;
  }

  /** A chunk that is cut anywhere is not read at all. */
  lemma ReadChunkCut(b: bytes, n: nat)
    requires Sendable(b) && n < |Chunk(b)|
    ensures ReadChunk(Chunk(b)[..n]) == Fail(if 0 < n < 8 then UnexpectedEOF else EOF)
  {
    if n >= 8 {
      var cut := Chunk(b)[..n];
      assert cut == U64(|b|) + b[..n - 8];
      ReadU64At(|b|, b[..n - 8]);
    }
  }
}
