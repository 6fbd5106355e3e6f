/** Byte strings, concatenation, and the two u32 layouts the wire formats use. */
module Bytes {

  type byte = b: int | 0 <= b < 256
  type Bytes = seq<byte>

  const U32_LIMIT: int := 0x1_0000_0000
  const I32_LIMIT: int := 0x8000_0000

  /** What an element of an Int32Array keeps of a number: its low 32 bits, read with a sign. */
  function Int32(n: int): (r: int)
    ensures -I32_LIMIT <= r < I32_LIMIT && (n - r) % U32_LIMIT == 0
    ensures -I32_LIMIT <= n < I32_LIMIT ==> r == n
  {
    var low := n % U32_LIMIT;
    if low < I32_LIMIT then low else low - U32_LIMIT
  }

  datatype Option<+T> = None | Some(value: T)

  function Min(a: int, b: int): int {
    if a < b then a else b
  }

  /** The concatenation of a list of lists: `b"".join(parts)` when the elements are bytes. */
  function Flatten<T>(parts: seq<seq<T>>): seq<T> {
    if parts == [] then [] else parts[0] + Flatten(parts[1..])
  }

  lemma {:induction false} FlattenAppend<T>(a: seq<seq<T>>, b: seq<seq<T>>)
    ensures Flatten(a + b) == Flatten(a) + Flatten(b)
  {
    if a == [] {
      assert a + b == b;
    } else {
      assert (a + b)[0] == a[0] && (a + b)[1..] == a[1..] + b;
      FlattenAppend(a[1..], b);
    }
  }

  lemma FlattenSnoc<T>(a: seq<seq<T>>, x: seq<T>)
    ensures Flatten(a + [x]) == Flatten(a) + x
  {
    FlattenAppend(a, [x]);
    assert Flatten([x]) == x + Flatten([]) == x;
  }

  lemma FlattenPrefix<T>(a: seq<seq<T>>, b: seq<seq<T>>)
    requires a <= b
    ensures Flatten(a) <= Flatten(b)
  {
    assert b == a + b[|a|..];
    FlattenAppend(a, b[|a|..]);
  }

  /** The chunks of a list that are not empty, in order. */
  function NonEmpty(chunks: seq<Bytes>): seq<Bytes> {
    if chunks == [] then []
    else NonEmpty(chunks[..|chunks| - 1]) + (if chunks[|chunks| - 1] == [] then [] else [chunks[|chunks| - 1]])
  }

  lemma NonEmptyStep(chunks: seq<Bytes>, i: nat)
    requires i < |chunks|
    ensures NonEmpty(chunks[..i + 1]) == NonEmpty(chunks[..i]) + (if chunks[i] == [] then [] else [chunks[i]])
  {
    var p := chunks[..i + 1];
    assert p[..|p| - 1] == chunks[..i];
  }

  lemma {:induction false} NonEmptyPrefix(chunks: seq<Bytes>, i: nat)
    requires i <= |chunks|
    ensures NonEmpty(chunks[..i]) <= NonEmpty(chunks)
    decreases |chunks| - i
  {
    if i == |chunks| {
      assert chunks[..i] == chunks;
    } else {
      NonEmptyStep(chunks, i);
      NonEmptyPrefix(chunks, i + 1);
    }
  }

  /** Dropping empty chunks drops no byte. */
  lemma {:induction false} NonEmptyKeepsBytes(chunks: seq<Bytes>)
    ensures Flatten(NonEmpty(chunks)) == Flatten(chunks)
  {
    if chunks != [] {
      var init, last := chunks[..|chunks| - 1], chunks[|chunks| - 1];
      NonEmptyKeepsBytes(init);
      assert chunks == init + [last];
      FlattenSnoc(init, last);
      if last == [] {
        assert NonEmpty(chunks) == NonEmpty(init);
        assert Flatten(init) + last == Flatten(init);
      } else {
        FlattenSnoc(NonEmpty(init), last);
      }
    }
  }

  // ---- u32 layouts ------------------------------------------------------------

  /** Four bytes, least significant first: the lengths inside the shared data region. */
  function U32Le(v: nat): (r: Bytes)
    ensures |r| == 4
  {
    [v % 256, v / 0x100 % 256, v / 0x1_0000 % 256, v / 0x100_0000 % 256]
  }

  function FromU32Le(b: Bytes): (v: nat)
    requires |b| == 4
    ensures v < U32_LIMIT
  {
    b[0] as int + b[1] as int * 0x100 + b[2] as int * 0x1_0000 + b[3] as int * 0x100_0000
  }

  /** Four bytes, most significant first: the length in a grpc-web frame header. */
  function U32Be(v: nat): (r: Bytes)
    ensures |r| == 4
  {
    [v / 0x100_0000 % 256, v / 0x1_0000 % 256, v / 0x100 % 256, v % 256]
  }

  function FromU32Be(b: Bytes): (v: nat)
    requires |b| == 4
    ensures v < U32_LIMIT
  {
    b[0] as int * 0x100_0000 + b[1] as int * 0x1_0000 + b[2] as int * 0x100 + b[3] as int
  }

  /** The number four bytes stand for, read from the most significant one. */
  function Horner(a: byte, b: byte, c: byte, d: byte): nat {
    ((a as int * 256 + b as int) * 256 + c as int) * 256 + d as int
  }

  /** The first of the four bytes is the most significant one. */
  lemma U32BeDigits(v: nat, b: Bytes)
    requires |b| == 4
    ensures FromU32Be(b) == Horner(b[0], b[1], b[2], b[3])
    ensures v < U32_LIMIT ==> v == Horner(U32Be(v)[0], U32Be(v)[1], U32Be(v)[2], U32Be(v)[3])
  {
    if v < U32_LIMIT {
      Digits(v);
    }
  }

  /** The first of the four bytes is the least significant one. */
  lemma U32LeDigits(v: nat, b: Bytes)
    requires |b| == 4
    ensures FromU32Le(b) == Horner(b[3], b[2], b[1], b[0])
    ensures v < U32_LIMIT ==> v == Horner(U32Le(v)[3], U32Le(v)[2], U32Le(v)[1], U32Le(v)[0])
  {
    if v < U32_LIMIT {
      Digits(v);
    }
  }

  lemma U32LeRoundTrip(v: nat)
    requires v < U32_LIMIT
    ensures FromU32Le(U32Le(v)) == v
  {
    Digits(v);
  }

  lemma U32BeRoundTrip(v: nat)
    requires v < U32_LIMIT
    ensures FromU32Be(U32Be(v)) == v
  {
    Digits(v);
  }

  lemma U32BeOnto(b: Bytes)
    requires |b| == 4
    ensures U32Be(FromU32Be(b)) == b
  {
    var v := FromU32Be(b);
    assert v / 0x100 == b[0] as int * 0x1_0000 + b[1] as int * 0x100 + b[2] as int;
    assert v / 0x1_0000 == b[0] as int * 0x100 + b[1] as int;
    assert v / 0x100_0000 == b[0];
  }

  lemma Digits(v: nat)
    requires v < U32_LIMIT
    ensures v == v % 256 + (v / 0x100 % 256) * 0x100 + (v / 0x1_0000 % 256) * 0x1_0000
              + (v / 0x100_0000 % 256) * 0x100_0000
  {
    var a, b, c := v / 0x100, v / 0x1_0000, v / 0x100_0000;
    assert a / 0x100 == b && b / 0x100 == c;
    assert v == a * 0x100 + v % 0x100;
    assert a == b * 0x100 + a % 0x100;
    assert b == c * 0x100 + b % 0x100;
    assert c < 256;
  }
}
