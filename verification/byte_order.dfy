/** Big-endian byte strings and the lexicographic (memcmp) order on them: the
    vocabulary in which the radix key encodings are stated. */
module ByteOrder {

  type Byte = x: int | 0 <= x < 256

  function Pow256(n: nat): (p: nat)
    ensures p > 0
  {
    if n == 0 then 1 else 256 * Pow256(n - 1)
  }

  lemma MulMono(a: int, b: int, c: nat)
    requires a <= b
    ensures a * c <= b * c
  {
  }

  lemma DivMod(x: int, p: int)
    requires p > 0
    ensures x == (x / p) * p + x % p && 0 <= x % p < p
  {
  }

  /** The n-byte big-endian representation of x: the representation of its
      higher bytes, then its lowest byte. */
  function BigEndian(x: nat, n: nat): (bs: seq<Byte>)
    requires x < Pow256(n)
    ensures |bs| == n
    decreases n
  {
    if n == 0 then [] else BigEndian(x / 256, n - 1) + [x % 256]
  }

  /** The number whose big-endian representation is bs. */
  function FromBigEndian(bs: seq<Byte>): (x: nat)
    ensures x < Pow256(|bs|)
    decreases |bs|
  {
    if |bs| == 0 then 0 else FromBigEndian(bs[..|bs| - 1]) * 256 + bs[|bs| - 1]
  }

  lemma {:induction false} FromBigEndianInverse(x: nat, n: nat)
    requires x < Pow256(n)
    ensures FromBigEndian(BigEndian(x, n)) == x
    decreases n
  {
    if n > 0 {
      var bs := BigEndian(x, n);
      assert bs[..n - 1] == BigEndian(x / 256, n - 1) && bs[n - 1] == x % 256;
      FromBigEndianInverse(x / 256, n - 1);
    }
  }

  lemma {:induction false} BigEndianInverse(bs: seq<Byte>)
    ensures BigEndian(FromBigEndian(bs), |bs|) == bs
    decreases |bs|
  {
    if |bs| > 0 {
      var n := |bs|;
      var y := FromBigEndian(bs);
      assert y / 256 == FromBigEndian(bs[..n - 1]) && y % 256 == bs[n - 1];
      BigEndianInverse(bs[..n - 1]);
      assert bs == bs[..n - 1] + [bs[n - 1]];
    }
  }

  lemma BigEndianInjective(x: nat, y: nat, n: nat)
    requires x < Pow256(n) && y < Pow256(n)
    ensures BigEndian(x, n) == BigEndian(y, n) <==> x == y
  {
    FromBigEndianInverse(x, n);
    FromBigEndianInverse(y, n);
  }

  /** Lexicographic order as memcmp sees it; a proper prefix sorts first. */
  predicate LexLess(a: seq<Byte>, b: seq<Byte>)
    decreases |a|
  {
    |b| > 0 && (|a| == 0 || a[0] < b[0] || (a[0] == b[0] && LexLess(a[1..], b[1..])))
  }

  lemma {:induction false} LexLessIrreflexive(a: seq<Byte>)
    ensures !LexLess(a, a)
    decreases |a|
  {
    if |a| > 0 {
      LexLessIrreflexive(a[1..]);
    }
  }

  /** Comparing two concatenations whose first parts have equal length compares
      the first parts, and only on a tie the second parts. */
  lemma {:induction false} LexLessConcat(a1: seq<Byte>, a2: seq<Byte>, b1: seq<Byte>, b2: seq<Byte>)
    requires |a1| == |b1|
    ensures LexLess(a1 + a2, b1 + b2) <==> LexLess(a1, b1) || (a1 == b1 && LexLess(a2, b2))
    decreases |a1|
  {
    if |a1| == 0 {
      assert a1 + a2 == a2 && b1 + b2 == b2;
      LexLessIrreflexive(a1);
    } else {
      assert (a1 + a2)[0] == a1[0] && (b1 + b2)[0] == b1[0];
      assert (a1 + a2)[1..] == a1[1..] + a2;
      assert (b1 + b2)[1..] == b1[1..] + b2;
      LexLessConcat(a1[1..], a2, b1[1..], b2);
      if a1[0] == b1[0] {
        assert a1 == b1 <==> a1[1..] == b1[1..] by {
          if a1[1..] == b1[1..] {
            assert a1 == [a1[0]] + a1[1..] && b1 == [b1[0]] + b1[1..];
          }
        }
      }
    }
  }

  /** Big-endian encoding of equal-width numbers preserves their order. */
  lemma {:induction false} BigEndianOrder(x: nat, y: nat, n: nat)
    requires x < Pow256(n) && y < Pow256(n)
    ensures x < y <==> LexLess(BigEndian(x, n), BigEndian(y, n))
    decreases n
  {
    if n > 0 {
      var hx, hy := BigEndian(x / 256, n - 1), BigEndian(y / 256, n - 1);
      LexLessConcat(hx, [x % 256], hy, [y % 256]);
      BigEndianOrder(x / 256, y / 256, n - 1);
      BigEndianInjective(x / 256, y / 256, n - 1);
    } else {
      LexLessIrreflexive([]);
    }
  }
}
