/** Fixed-width big-endian integers and the facts that make a stream of them parse in one way only. */
module Encoding {
  import opened Types

  /** The low `width` bytes of `n`, most significant first. */
  function BigEndian(n: nat, width: nat): (s: Bytes)
    ensures |s| == width
  {
    if width == 0 then [] else BigEndian(n / 256, width - 1) + [n % 256]
  }

  function BigEndianValue(s: Bytes): nat {
    if s == [] then 0 else BigEndianValue(s[..|s| - 1]) * 256 + s[|s| - 1]
  }

  function Pow256(width: nat): (p: nat)
    ensures p > 0
  {
    if width == 0 then 1 else 256 * Pow256(width - 1)
  }

  lemma {:induction false} BigEndianRoundTrip(n: nat, width: nat)
    requires n < Pow256(width)
    ensures BigEndianValue(BigEndian(n, width)) == n
  {
    if width > 0 {
      BigEndianRoundTrip(n / 256, width - 1);
      assert BigEndian(n, width)[..width - 1] == BigEndian(n / 256, width - 1);
    }
  }

  /** The most significant byte comes first. */
  lemma {:induction false} BigEndianDigits(n: nat, width: nat, i: nat)
    requires i < width
    ensures BigEndian(n, width)[i] as nat == n / Pow256(width - 1 - i) % 256
  {
    if i < width - 1 {
      BigEndianDigits(n / 256, width - 1, i);
      DivideTwice(n, Pow256(width - 2 - i));
    }
  }

  lemma DivideTwice(n: nat, p: nat)
    requires p > 0
    ensures n / 256 / p == n / (256 * p)
  {
    var q := n / 256 / p;
    assert n / 256 == q * p + n / 256 % p;
    assert n == (n / 256) * 256 + n % 256;
    assert n == q * (256 * p) + ((n / 256 % p) * 256 + n % 256);
    assert 0 <= (n / 256 % p) * 256 + n % 256 < 256 * p;
    QuotientUnique(n, 256 * p, q, (n / 256 % p) * 256 + n % 256);
  }

  lemma QuotientUnique(n: nat, d: nat, q: nat, r: nat)
    requires n == q * d + r && r < d
    ensures n / d == q
  {
    var q', r' := n / d, n % d;
    assert n == q' * d + r';
    assert (q' - q) * d == r - r';
    if q' > q { MultipleIsLarge(q' - q, d); }
    if q' < q { MultipleIsLarge(q - q', d); }
  }

  lemma MultipleIsLarge(z: nat, d: nat)
    requires z >= 1
    ensures z * d >= d
  {
    assert (z - 1) * d >= 0;
  }

  lemma Widths()
    ensures Pow256(4) == TWO32
    ensures Pow256(8) == TWO64
    ensures Pow256(32) == TWO256
  {
    assert Pow256(4) == TWO32;
    PowerSum(4, 4);
    assert Pow256(8) == TWO64;
    PowerSum(8, 8);
    assert Pow256(16) == TWO64 * TWO64;
    PowerSum(16, 16);
  }

  lemma {:induction false} PowerSum(a: nat, b: nat)
    ensures Pow256(a + b) == Pow256(a) * Pow256(b)
  {
    if a > 0 {
      PowerSum(a - 1, b);
      assert Pow256(a + b) == 256 * Pow256((a - 1) + b);
    }
  }

  lemma BigEndianInjective(m: nat, n: nat, width: nat)
    requires m < Pow256(width) && n < Pow256(width)
    requires BigEndian(m, width) == BigEndian(n, width)
    ensures m == n
  {
    BigEndianRoundTrip(m, width);
    BigEndianRoundTrip(n, width);
  }

  /** Equal streams whose first parts have equal lengths agree part by part. */
  lemma SplitEqual<T>(a: seq<T>, b: seq<T>, c: seq<T>, d: seq<T>)
    requires |a| == |c| && a + b == c + d
    ensures a == c && b == d
  {
    assert a == (a + b)[..|a|] && c == (c + d)[..|c|];
    assert b == (a + b)[|a|..] && d == (c + d)[|c|..];
  }

  lemma SplitInteger(m: nat, n: nat, width: nat, b: Bytes, d: Bytes)
    requires m < Pow256(width) && n < Pow256(width)
    requires BigEndian(m, width) + b == BigEndian(n, width) + d
    ensures m == n && b == d
  {
    SplitEqual(BigEndian(m, width), b, BigEndian(n, width), d);
    BigEndianInjective(m, n, width);
  }
}
