/** Byte strings, fixed-width byte arrays and the little-endian integers every CLAMP format uses. */
module Bytes {
  type byte = x: int | 0 <= x < 256
  type Bytes = seq<byte>
  type Bytes8 = s: seq<byte> | |s| == 8 witness seq(8, _ => 0)
  type Bytes16 = s: seq<byte> | |s| == 16 witness seq(16, _ => 0)
  type Bytes32 = s: seq<byte> | |s| == 32 witness seq(32, _ => 0)

  const ZERO8: Bytes8 := [0, 0, 0, 0, 0, 0, 0, 0]
  const ZERO16: Bytes16 := [0, 0, 0, 0, 0, 0, 0, 0, 0, 0, 0, 0, 0, 0, 0, 0]

  datatype Option<+T> = None | Some(value: T)
  datatype Result<+T, +E> = Ok(value: T) | Err(error: E)

  /** 256 to the power `width`: the number of values that fit in `width` bytes. */
  function Span(width: nat): (p: nat)
    ensures p > 0
  {
    if width == 0 then 1 else 256 * Span(width - 1)
  }

  /** The low `width` bytes of `n`, least significant first: a truncating cast, then `to_le_bytes`. */
  function Le(n: nat, width: nat): (s: Bytes)
    ensures |s| == width
  {
    if width == 0 then [] else [n % 256] + Le(n / 256, width - 1)
  }

  function FromLe(s: Bytes): nat {
    if s == [] then 0 else s[0] + 256 * FromLe(s[1..])
  }

  lemma DivModStep(n: nat, p: nat)
    requires p > 0
    ensures n % 256 + 256 * (n / 256 % p) == n % (256 * p)
  {
    var q, r := n / 256 / p, n / 256 % p;
    assert n / 256 == q * p + r;
    assert n == 256 * (q * p + r) + n % 256;
    assert n == q * (256 * p) + (256 * r + n % 256);
    assert 256 * r + n % 256 < 256 * p;
    ModUnique(n, 256 * p, q, 256 * r + n % 256);
  }

  lemma ModUnique(n: nat, m: nat, q: nat, r: nat)
    requires m > 0 && n == q * m + r && r < m
    ensures n % m == r
  {
    var d := n / m - q;
    assert d * m == r - n % m by {
      assert (n / m) * m + n % m == q * m + r;
      assert d * m == (n / m) * m - q * m;
    }
    if d >= 1 {
      Scale(d, m);
    } else if d <= -1 {
      Scale(-d, m);
    }
  }

  lemma Scale(d: int, m: int)
    requires d >= 1 && m > 0
    ensures d * m >= m
  {
    assert d * m == (d - 1) * m + m;
  }

  /** Reading back a truncated number yields it modulo the width; nothing is lost below `Span(width)`. */
  lemma {:induction false} FromLeOfLe(n: nat, width: nat)
    ensures FromLe(Le(n, width)) == n % Span(width)
    ensures n < Span(width) ==> FromLe(Le(n, width)) == n
  {
    if width > 0 {
      FromLeOfLe(n / 256, width - 1);
      assert Le(n, width)[1..] == Le(n / 256, width - 1);
      DivModStep(n, Span(width - 1));
    }
  }

  /** Every byte string is the little-endian form of its value, at its own width. */
  lemma {:induction false} LeOfFromLe(s: Bytes)
    ensures FromLe(s) < Span(|s|)
    ensures Le(FromLe(s), |s|) == s
  {
    if s != [] {
      LeOfFromLe(s[1..]);
      var tail := FromLe(s[1..]);
      assert FromLe(s) % 256 == s[0] && FromLe(s) / 256 == tail;
      assert Le(FromLe(s), |s|) == [s[0]] + s[1..];
    }
  }

  lemma SpanValues()
    ensures Span(2) == 65536
    ensures Span(4) == 4294967296
    ensures Span(8) == 18446744073709551616
  {
    assert Span(4) == 256 * 256 * Span(2);
    assert Span(8) == 256 * 256 * 256 * 256 * Span(4) by {
      assert Span(8) == 256 * Span(7);
      assert Span(7) == 256 * Span(6);
      assert Span(6) == 256 * Span(5);
    }
  }
}
