/** Bytes and big-endian integers. */
module Bytes {

  type byte = b: int | 0 <= b < 256

  type u16 = n: nat | n < 0x1_0000
  type u64 = n: nat | n < 0x1_0000_0000_0000_0000

  function U16(s: seq<byte>, i: nat): nat
    requires i + 2 <= |s|
  {
    s[i] as int * 256 + s[i + 1] as int
  }

  function U24(s: seq<byte>, i: nat): nat
    requires i + 3 <= |s|
  {
    s[i] as int * 65536 + s[i + 1] as int * 256 + s[i + 2] as int
  }

  function U32(s: seq<byte>, i: nat): nat
    requires i + 4 <= |s|
  {
    s[i] as int * 0x100_0000 + s[i + 1] as int * 0x1_0000 + s[i + 2] as int * 0x100 + s[i + 3] as int
  }

  function U64(s: seq<byte>, i: nat): nat
    requires i + 8 <= |s|
  {
    U32(s, i) * 0x1_0000_0000 + U32(s, i + 4)
  }

  /** A slice of a slice. */
  lemma Slice(s: seq<byte>, a: nat, b: nat, i: nat, j: nat)
    requires a <= b <= |s| && i <= j <= b - a
    ensures s[a..b][i..j] == s[a + i..a + j]
  {
    var t, u := s[a..b][i..j], s[a + i..a + j];
    assert forall k | 0 <= k < |t| :: t[k] == u[k];
  }

  function Be16(n: nat): seq<byte>
    requires n < 65536
  {
    [n / 256, n % 256]
  }

  function Be24(n: nat): seq<byte>
    requires n < 16777216
  {
    [n / 65536, n / 256 % 256, n % 256]
  }

  lemma Be24Value(n: nat)
    requires n < 16777216
    ensures U24(Be24(n), 0) == n
  {
    assert n / 65536 == n / 256 / 256;
  }

  /** The `width` low bytes of `n`, most significant first. */
  function Be(n: nat, width: nat): (s: seq<byte>)
    ensures |s| == width
    decreases width, n
  {
    if width == 0 then [] else Be(n / 256, width - 1) + [n % 256]
  }

  /** The number a byte sequence stands for. */
  function Value(s: seq<byte>): nat {
    if s == [] then 0 else Value(s[..|s| - 1]) * 256 + s[|s| - 1] as int
  }

  function Pow256(k: nat): nat {
    if k == 0 then 1 else 256 * Pow256(k - 1)
  }

  lemma {:induction false} ValueBe(n: nat, width: nat)
    requires n < Pow256(width)
    ensures Value(Be(n, width)) == n
    decreases width
  {
    if width > 0 {
      ValueBe(n / 256, width - 1);
      var s := Be(n, width);
      assert s[..width - 1] == Be(n / 256, width - 1);
    }
  }

  lemma {:induction false} BeValue(s: seq<byte>)
    ensures Value(s) < Pow256(|s|)
    ensures Be(Value(s), |s|) == s
  {
    if s != [] {
      var n := |s| - 1;
      BeValue(s[..n]);
      var v := Value(s);
      assert v / 256 == Value(s[..n]) && v % 256 == s[n];
      assert s == s[..n] + [s[n]];
    }
  }

  /** The number two, four or eight bytes stand for, byte by byte. */
  lemma Value1(s: seq<byte>)
    requires |s| == 1
    ensures Value(s) == s[0]
  {
    assert s[..0] == [];
  }

  lemma Value2(s: seq<byte>)
    requires |s| == 2
    ensures Value(s) == U16(s, 0)
  {
    Value1(s[..1]);
  }

  lemma Value4(s: seq<byte>)
    requires |s| == 4
    ensures Value(s) == U32(s, 0)
  {
    Value2(s[..2]);
    assert s[..3][..2] == s[..2];
    assert Value(s[..3]) == U16(s, 0) * 256 + s[2] as int;
  }

  /** More bytes behind a number. */
  lemma {:induction false} ValueAppend(s: seq<byte>, t: seq<byte>)
    ensures Value(s + t) == Value(s) * Pow256(|t|) + Value(t)
    decreases |t|
  {
    if t == [] {
      assert s + t == s;
    } else {
      var n := |t| - 1;
      ValueAppend(s, t[..n]);
      assert (s + t)[..|s| + n] == s + t[..n];
      Shift(Value(s), Pow256(n), Value(t[..n]), t[n]);
    }
  }

  lemma Shift(a: nat, p: nat, b: nat, c: nat)
    ensures (a * p + b) * 256 + c == a * (256 * p) + (b * 256 + c)
  {
  }

  lemma Value8(s: seq<byte>)
    requires |s| == 8
    ensures Value(s) == U64(s, 0)
  {
    assert s == s[..4] + s[4..];
    ValueAppend(s[..4], s[4..]);
    Value4(s[..4]);
    Value4(s[4..]);
    assert Pow256(1) == 256 && Pow256(2) == 0x1_0000 && Pow256(3) == 0x100_0000 && Pow256(4) == 0x1_0000_0000;
  }
}
