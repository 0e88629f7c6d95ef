/** What the little-endian reads of Bytes stand for: the numbers whose bytes are there, lowest first. */
module LittleEndian {
  import opened Bytes

  function Pow256(n: nat): (r: nat)
    ensures r > 0
  {
    if n == 0 then 1 else 256 * Pow256(n - 1)
  }

  /** The n low bytes of a number, lowest first. */
  function LowBytes(x: nat, n: nat): (r: seq<Byte>)
    ensures |r| == n && forall i :: 0 <= i < n ==> r[i] == x / Pow256(i) % 256
  {
    seq(n, i requires 0 <= i => x / Pow256(i) % 256)
  }

  /** The number that bytes stand for, lowest first. */
  function Value(b: seq<Byte>): nat {
    if b == [] then 0 else b[0] + 256 * Value(b[1..])
  }

  // ---------------------------------------------------------------- division

  lemma QuotientIsUnique(x: int, d: int, q: int, r: int)
    requires d > 0 && 0 <= r < d && x == d * q + r
    ensures x / d == q
  {
    var p := x / d - q;
    assert d * p == d * (x / d) - d * q;
    assert -d < d * p < d;
    assert p >= 1 ==> d * p >= d;
    assert p <= -1 ==> d * p <= -d;
  }

  lemma DivideTwice(x: nat, d: nat)
    requires d > 0
    ensures x / 256 / d == x / (256 * d)
  {
    var q := x / 256;
    var p, s := q / d, q % d;
    assert q == d * p + s;
    assert 256 * (d * p) == (256 * d) * p;
    QuotientIsUnique(x, 256 * d, p, 256 * s + x % 256);
  }

  lemma NextByte(x: nat, i: nat)
    ensures x / 256 / Pow256(i) == x / Pow256(i + 1)
  {
    DivideTwice(x, Pow256(i));
  }

  // ---------------------------------------------------------------- bytes and numbers

  /** The first byte, and the rest as the bytes of the quotient. */
  lemma LowBytesSplit(x: nat, n: nat)
    requires n > 0
    ensures LowBytes(x, n)[0] == x % 256 && LowBytes(x, n)[1..] == LowBytes(x / 256, n - 1)
  {
    var b, rest := LowBytes(x, n), LowBytes(x / 256, n - 1);
    assert Pow256(0) == 1;
    forall i | 0 <= i < n - 1 ensures b[1..][i] == rest[i] {
      NextByte(x, i);
    }
  }

  lemma TakeByte(x: nat, p: nat)
    requires x < 256 * p
    ensures x / 256 < p && x % 256 + 256 * (x / 256) == x
  {
  }

  lemma PutByte(d: Byte, v: nat)
    ensures (d + 256 * v) % 256 == d && (d + 256 * v) / 256 == v
  {
  }

  lemma ValueOfParts(b: seq<Byte>)
    requires b != []
    ensures Value(b) == b[0] + 256 * Value(b[1..])
  {
  }

  lemma OneByteMore(x: nat, n: nat)
    requires n > 0 && Value(LowBytes(x / 256, n - 1)) == x / 256
    ensures Value(LowBytes(x, n)) == x
  {
    LowBytesSplit(x, n);
    ValueOfParts(LowBytes(x, n));
  }

  lemma {:induction false} ValueOfLowBytes(x: nat, n: nat)
    requires x < Pow256(n)
    ensures Value(LowBytes(x, n)) == x
  {
    if n == 0 {
    } else {
      TakeByte(x, Pow256(n - 1));
      ValueOfLowBytes(x / 256, n - 1);
      OneByteMore(x, n);
    }
  }

  lemma SameParts(a: seq<Byte>, b: seq<Byte>)
    requires a != [] && b != [] && a[0] == b[0] && a[1..] == b[1..]
    ensures a == b
  {
    assert a == [a[0]] + a[1..] && b == [b[0]] + b[1..];
  }

  /** Different bytes stand for different numbers. */
  lemma {:induction false} LowBytesOfValue(b: seq<Byte>)
    ensures Value(b) < Pow256(|b|) && LowBytes(Value(b), |b|) == b
  {
    if b == [] {
    } else {
      var x, v := Value(b), Value(b[1..]);
      LowBytesOfValue(b[1..]);
      ValueOfParts(b);
      PutByte(b[0], v);
      assert LowBytes(x, |b|)[0] == b[0] && LowBytes(x, |b|)[1..] == b[1..] by {
        LowBytesSplit(x, |b|);
      }
      SameParts(LowBytes(x, |b|), b);
    }
  }

  // ---------------------------------------------------------------- reads

  lemma ValueOfTwo(b: seq<Byte>, at: nat)
    requires at + 2 <= |b|
    ensures Value(b[at..]) == U16At(b, at) + 0x1_0000 * Value(b[at + 2..])
  {
    var rest := b[at..];
    assert rest[1..][1..] == b[at + 2..];
    assert Value(rest) == rest[0] + 256 * Value(rest[1..]);
    assert Value(rest[1..]) == rest[1..][0] + 256 * Value(rest[1..][1..]);
  }

  lemma ValueOfFour(b: seq<Byte>, at: nat)
    requires at + 4 <= |b|
    ensures Value(b[at..]) == U32At(b, at) + 0x1_0000_0000 * Value(b[at + 4..])
  {
    ValueOfTwo(b, at);
    ValueOfTwo(b, at + 2);
  }

  lemma ValueOfEight(b: seq<Byte>, at: nat)
    requires at + 8 <= |b|
    ensures Value(b[at..]) == U64At(b, at) + 0x1_0000_0000 * (0x1_0000_0000 * Value(b[at + 8..]))
  {
    ValueOfFour(b, at);
    ValueOfFour(b, at + 4);
  }

  lemma SameReads(b: seq<Byte>, at: nat, window: seq<Byte>)
    requires at + |window| <= |b| && b[at..at + |window|] == window
    ensures |window| == 2 ==> U16At(b, at) == U16At(window, 0)
    ensures |window| == 4 ==> U32At(b, at) == U32At(window, 0)
    ensures |window| == 8 ==> U64At(b, at) == U64At(window, 0)
  {
    assert forall i :: 0 <= i < |window| ==> b[at + i] == window[i];
  }

  /** A 16 bit read is the number of the two bytes there. */
  lemma U16IsValue(b: seq<Byte>, at: nat)
    requires at + 2 <= |b|
    ensures U16At(b, at) == Value(b[at..at + 2])
  {
    var window := b[at..at + 2];
    SameReads(b, at, window);
    ValueOfTwo(window, 0);
    assert window[0..] == window && window[2..] == [];
  }

  /** A 32 bit read is the number of the four bytes there. */
  lemma U32IsValue(b: seq<Byte>, at: nat)
    requires at + 4 <= |b|
    ensures U32At(b, at) == Value(b[at..at + 4])
  {
    var window := b[at..at + 4];
    SameReads(b, at, window);
    ValueOfFour(window, 0);
    assert window[0..] == window && window[4..] == [];
  }

  /** A 64 bit read is the number of the eight bytes there. */
  lemma U64IsValue(b: seq<Byte>, at: nat)
    requires at + 8 <= |b|
    ensures U64At(b, at) == Value(b[at..at + 8])
  {
    var window := b[at..at + 8];
    SameReads(b, at, window);
    ValueOfEight(window, 0);
    assert window[0..] == window && window[8..] == [];
  }

  /** The eight bytes of a uint64, lowest first. */
  function U64Bytes(x: U64): (r: seq<Byte>)
    ensures |r| == 8 && forall i :: 0 <= i < 8 ==> r[i] == x / Pow256(i) % 256
  {
    LowBytes(x, 8)
  }

  /** The four bytes of a uint32, lowest first. */
  function U32Bytes(x: nat): (r: seq<Byte>)
    requires x < 0x1_0000_0000
    ensures |r| == 4 && forall i :: 0 <= i < 4 ==> r[i] == x / Pow256(i) % 256
  {
    LowBytes(x, 4)
  }

  lemma U16Writes(x: U16)
    ensures U16Bytes(x) == LowBytes(x, 2)
  {
    LowBytesSplit(x, 2);
    LowBytesSplit(x / 256, 1);
    SameParts(U16Bytes(x), LowBytes(x, 2));
  }

  lemma Powers()
    ensures Pow256(2) == 0x1_0000 && Pow256(4) == 0x1_0000_0000 && Pow256(8) == TWO64
  {
    assert Pow256(1) == 256 && Pow256(3) == 0x100_0000 && Pow256(5) == 0x100_0000_0000;
    assert Pow256(6) == 0x1_0000_0000_0000 && Pow256(7) == 0x100_0000_0000_0000;
  }

  /** A 64 bit read finds x exactly where the bytes of x are. */
  lemma U64Reads(b: seq<Byte>, at: nat, x: U64)
    requires at + 8 <= |b|
    ensures U64At(b, at) == x <==> b[at..at + 8] == U64Bytes(x)
  {
    Powers();
    U64IsValue(b, at);
    ValueOfLowBytes(x, 8);
    LowBytesOfValue(b[at..at + 8]);
  }

  /** A 32 bit read finds x exactly where the bytes of x are. */
  lemma U32Reads(b: seq<Byte>, at: nat, x: nat)
    requires at + 4 <= |b| && x < 0x1_0000_0000
    ensures U32At(b, at) == x <==> b[at..at + 4] == U32Bytes(x)
  {
    Powers();
    U32IsValue(b, at);
    ValueOfLowBytes(x, 4);
    LowBytesOfValue(b[at..at + 4]);
  }

  /** Wherever the bytes of a number are written, the read gives it back. */
  lemma U64RoundTrip(before: seq<Byte>, x: U64, after: seq<Byte>)
    ensures U64At(before + U64Bytes(x) + after, |before|) == x
  {
    var b := before + U64Bytes(x) + after;
    assert b[|before|..|before| + 8] == U64Bytes(x);
    U64Reads(b, |before|, x);
  }

  lemma U32RoundTrip(before: seq<Byte>, x: nat, after: seq<Byte>)
    requires x < 0x1_0000_0000
    ensures U32At(before + U32Bytes(x) + after, |before|) == x
  {
    var b := before + U32Bytes(x) + after;
    assert b[|before|..|before| + 4] == U32Bytes(x);
    U32Reads(b, |before|, x);
  }
}
