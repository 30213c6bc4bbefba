/** Bytes, big-endian numbers, and the two buffers every codec reads from and writes to. */
module Bytes {

  type byte = x: int | 0 <= x < 0x100

  const U64_LIMIT := 0x1_0000_0000_0000_0000
  type u64 = x: int | 0 <= x < U64_LIMIT

  /** A byte vector: its length is a 64-bit `usize`. */
  type Vec = s: seq<byte> | |s| < U64_LIMIT

  datatype Result<+T, +E> = Ok(value: T) | Err(error: E)

  datatype Option<+T> = None | Some(value: T) {
    function GetOr(fallback: T): T {
      if Some? then value else fallback
    }
  }

  /** What one read of a buffer answers, and the bytes it leaves unread. */
  datatype Parsed<+T, +E> = Parsed(result: Result<T, E>, rest: seq<byte>)

  function Zeros(n: nat): (s: seq<byte>)
    ensures |s| == n
  {
    seq(n, _ => 0)
  }

  /** `x` moved up by `n` bytes. */
  function Scale(x: nat, n: nat): nat
    decreases n
  {
    if n == 0 then x else 0x100 * Scale(x, n - 1)
  }

  function Pow256(n: nat): nat {
    Scale(1, n)
  }

  function BigEndian(n: nat, x: nat): (s: seq<byte>)
    ensures |s| == n
  {
    if n == 0 then [] else BigEndian(n - 1, x / 0x100) + [x % 0x100]
  }

  function FromBigEndian(s: seq<byte>): (x: nat)
    ensures x < Pow256(|s|)
  {
    if s == [] then 0 else FromBigEndian(s[..|s| - 1]) * 0x100 + s[|s| - 1]
  }

  lemma ScaleTable(x: nat)
    ensures Scale(x, 0) == x && Scale(x, 1) == 0x100 * x && Scale(x, 2) == 0x1_0000 * x
    ensures Scale(x, 3) == 0x100_0000 * x && Scale(x, 4) == 0x1_0000_0000 * x
    ensures Scale(x, 5) == 0x100_0000_0000 * x && Scale(x, 6) == 0x1_0000_0000_0000 * x
    ensures Scale(x, 7) == 0x100_0000_0000_0000 * x && Scale(x, 8) == U64_LIMIT * x
  {
    assert Scale(x, 2) == 0x100 * Scale(x, 1);
    assert Scale(x, 4) == 0x100 * Scale(x, 3);
    assert Scale(x, 6) == 0x100 * Scale(x, 5);
  }

  lemma {:induction false} ScaleSum(x: nat, y: nat, n: nat)
    ensures Scale(x + y, n) == Scale(x, n) + Scale(y, n)
    decreases n
  {
    if n > 0 {
      ScaleSum(x, y, n - 1);
    }
  }

  lemma {:induction false} ScaleScale(x: nat, m: nat, n: nat)
    ensures Scale(Scale(x, m), n) == Scale(x, m + n)
    decreases n
  {
    if n > 0 {
      ScaleScale(x, m, n - 1);
    }
  }

  lemma {:induction false} BigEndianValue(n: nat, x: nat)
    requires x < Pow256(n)
    ensures FromBigEndian(BigEndian(n, x)) == x
  {
    if n > 0 {
      BigEndianValue(n - 1, x / 0x100);
      assert BigEndian(n, x)[..n - 1] == BigEndian(n - 1, x / 0x100);
    }
  }

  lemma {:induction false} BigEndianUnique(s: seq<byte>)
    ensures BigEndian(|s|, FromBigEndian(s)) == s
  {
    if s != [] {
      BigEndianUnique(s[..|s| - 1]);
    }
  }

  lemma {:induction false} FromBigEndianSplit(a: seq<byte>, b: seq<byte>)
    ensures FromBigEndian(a + b) == Scale(FromBigEndian(a), |b|) + FromBigEndian(b)
  {
    if b == [] {
      assert a + b == a;
    } else {
      var c := b[..|b| - 1];
      assert (a + b)[..|a + b| - 1] == a + c;
      FromBigEndianSplit(a, c);
    }
  }

  lemma OneByte(x: byte)
    ensures FromBigEndian([x]) == x && BigEndian(1, x) == [x]
  {
    assert [x][..0] == [];
    assert BigEndian(1, x) == BigEndian(0, 0) + [x];
  }

  lemma FirstByte(s: seq<byte>)
    requires s != []
    ensures FromBigEndian(s) == Scale(s[0], |s| - 1) + FromBigEndian(s[1..])
  {
    hide FromBigEndian;
    assert s == [s[0]] + s[1..];
    OneByte(s[0]);
    FromBigEndianSplit([s[0]], s[1..]);
  }

  lemma {:induction false} FromBigEndianZeros(n: nat)
    ensures FromBigEndian(Zeros(n)) == 0
  {
    if n > 0 {
      assert Zeros(n)[..n - 1] == Zeros(n - 1);
      FromBigEndianZeros(n - 1);
    }
  }

  /** A buffer that grows at the end, with the fixed-width writes the encoders make. */
  class BufMut {
    var data: seq<byte>

    constructor ()
      ensures data == []
    {
      data := [];
    }

    method PutSlice(s: seq<byte>)
      modifies this
      ensures data == old(data) + s
    {
      data := data + s;
    }

    method PutU8(x: byte)
      modifies this
      ensures data == old(data) + BigEndian(1, x)
    {
      data := data + [x];
      OneByte(x);
    }

    /** A two, four or eight byte number in network order. */
    method PutBigEndian(n: nat, x: nat)
      requires n == 2 || n == 4 || n == 8
      requires x < Pow256(n)
      modifies this
      ensures data == old(data) + BigEndian(n, x)
    {
      data := data + BigEndian(n, x);
    }
  }

  /** A cursor over bytes received: `rest` is what has not been read yet. */
  class Buf {
    var rest: seq<byte>

    constructor (s: seq<byte>)
      ensures rest == s
    {
      rest := s;
    }

    method Advance(n: nat)
      requires n <= |rest|
      modifies this
      ensures rest == old(rest)[n..]
    {
      rest := rest[n..];
    }

    method GetU8() returns (x: byte)
      requires rest != []
      modifies this
      ensures x == old(rest)[0] && rest == old(rest)[1..]
    {
      x := rest[0];
      rest := rest[1..];
    }

    method GetBigEndian(n: nat) returns (x: nat)
      requires n <= |rest|
      modifies this
      ensures x == FromBigEndian(old(rest)[..n]) && rest == old(rest)[n..]
    {
      x := FromBigEndian(rest[..n]);
      rest := rest[n..];
    }
  }
}
