/** Bytes, byte strings and the fixed-width integers packed into them. */
module ByteStrings {

  type Byte = x: int | 0 <= x < 256

  datatype Option<+T> = None | Some(value: T)

  /** 256 to the power `n`: one more than the largest `n`-byte unsigned integer. */
  function Pow256(n: nat): (r: nat)
    ensures r >= 1
  {
    if n == 0 then 1 else 256 * Pow256(n - 1)
  }

  lemma Pow256Values()
    ensures Pow256(1) == 0x100
    ensures Pow256(2) == 0x1_0000
    ensures Pow256(4) == 0x1_0000_0000
    ensures Pow256(8) == 0x1_0000_0000_0000_0000
  {
    assert Pow256(2) == 256 * Pow256(1);
    assert Pow256(3) == 256 * Pow256(2);
    assert Pow256(4) == 256 * Pow256(3);
    assert Pow256(5) == 256 * Pow256(4);
    assert Pow256(6) == 256 * Pow256(5);
    assert Pow256(7) == 256 * Pow256(6);
  }

  /** Whether `v` fits an unsigned field of `n` bytes, which is what `struct.pack` insists on. */
  predicate Fits(v: int, n: nat) {
    0 <= v < Pow256(n)
  }

  // ---------------------------------------------------------------- network order

  function BigEndian(v: nat, n: nat): (s: seq<Byte>)
    ensures |s| == n
  {
    if n == 0 then [] else BigEndian(v / 256, n - 1) + [v % 256]
  }

  function FromBigEndian(s: seq<Byte>): nat {
    if s == [] then 0 else 256 * FromBigEndian(s[..|s| - 1]) + s[|s| - 1]
  }

  lemma {:induction false} BigEndianRoundTrip(v: nat, n: nat)
    requires Fits(v, n)
    ensures FromBigEndian(BigEndian(v, n)) == v
  {
    if n != 0 {
      BigEndianRoundTrip(v / 256, n - 1);
      assert BigEndian(v, n)[..n - 1] == BigEndian(v / 256, n - 1);
    }
  }

  lemma {:induction false} FromBigEndianRoundTrip(s: seq<Byte>)
    ensures Fits(FromBigEndian(s), |s|)
    ensures BigEndian(FromBigEndian(s), |s|) == s
  {
    if s != [] {
      FromBigEndianRoundTrip(s[..|s| - 1]);
      var high, low: int := FromBigEndian(s[..|s| - 1]), s[|s| - 1];
      assert (256 * high + low) / 256 == high && (256 * high + low) % 256 == low;
      assert s == s[..|s| - 1] + [s[|s| - 1]];
    }
  }

  // ---------------------------------------------------------------- little endian

  function LittleEndian(v: nat, n: nat): (s: seq<Byte>)
    ensures |s| == n
  {
    if n == 0 then [] else [v % 256] + LittleEndian(v / 256, n - 1)
  }

  function FromLittleEndian(s: seq<Byte>): nat {
    if s == [] then 0 else s[0] + 256 * FromLittleEndian(s[1..])
  }

  lemma {:induction false} LittleEndianRoundTrip(v: nat, n: nat)
    requires Fits(v, n)
    ensures FromLittleEndian(LittleEndian(v, n)) == v
  {
    if n != 0 {
      LittleEndianRoundTrip(v / 256, n - 1);
      assert LittleEndian(v, n)[1..] == LittleEndian(v / 256, n - 1);
    }
  }

  lemma {:induction false} FromLittleEndianRoundTrip(s: seq<Byte>)
    ensures Fits(FromLittleEndian(s), |s|)
    ensures LittleEndian(FromLittleEndian(s), |s|) == s
  {
    if s != [] {
      FromLittleEndianRoundTrip(s[1..]);
      var low: int, high := s[0], FromLittleEndian(s[1..]);
      assert (low + 256 * high) / 256 == high && (low + 256 * high) % 256 == low;
      assert s == [s[0]] + s[1..];
    }
  }

  // ---------------------------------------------------------------- sequences

  lemma TakeOneMore<T>(s: seq<T>, i: nat)
    requires i < |s|
    ensures s[..i + 1] == s[..i] + [s[i]]
  {
  }

  lemma Reassociate<T>(a: seq<T>, b: seq<T>, c: seq<T>)
    ensures a + b + c == a + (b + c)
    ensures a + [] == [] + a == a
  {
  }

  lemma TakeAll<T>(s: seq<T>)
    ensures s[..|s|] == s
  {
  }
}
