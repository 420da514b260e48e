/**
 Bitwise operations on unbounded non-negative integers and their big-endian byte form, as
 Python's `|`, `&`, `int.from_bytes` and `int.to_bytes` compute them.
 */
module Bits {

  type Byte = b: int | 0 <= b < 256

  /** Whether bit k of n is set, counting from the least significant. */
  predicate Bit(n: nat, k: nat) {
    if k == 0 then n % 2 == 1 else Bit(n / 2, k - 1)
  }

  function Pow(b: nat, e: nat): nat {
    if e == 0 then 1 else b * Pow(b, e - 1)
  }

  function And(a: nat, b: nat): nat {
    if a == 0 || b == 0 then 0
    else 2 * And(a / 2, b / 2) + (if a % 2 == 1 && b % 2 == 1 then 1 else 0)
  }

  function Or(a: nat, b: nat): nat {
    if a == 0 && b == 0 then 0
    else 2 * Or(a / 2, b / 2) + (if a % 2 == 1 || b % 2 == 1 then 1 else 0)
  }

  lemma {:induction false} NoBitsInZero(k: nat)
    ensures !Bit(0, k)
  {
    if k > 0 { NoBitsInZero(k - 1); }
  }

  lemma {:induction false} BitOfAnd(a: nat, b: nat, k: nat)
    ensures Bit(And(a, b), k) <==> Bit(a, k) && Bit(b, k)
    decreases k
  {
    if a == 0 || b == 0 {
      NoBitsInZero(k);
    } else if k > 0 {
      BitOfAnd(a / 2, b / 2, k - 1);
    }
  }

  lemma {:induction false} BitOfOr(a: nat, b: nat, k: nat)
    ensures Bit(Or(a, b), k) <==> Bit(a, k) || Bit(b, k)
    decreases k
  {
    if a == 0 && b == 0 {
      NoBitsInZero(k);
    } else if k > 0 {
      BitOfOr(a / 2, b / 2, k - 1);
    }
  }

  lemma {:induction false} BitOfShift(k: nat, j: nat)
    ensures Bit(Pow(2, k), j) <==> j == k
    decreases j
  {
    if k > 0 && j > 0 {
      BitOfShift(k - 1, j - 1);
    } else if j > 0 {
      NoBitsInZero(j - 1);
    }
  }

  /** Two numbers with the same bits are equal. */
  lemma {:induction false} SameBits(a: nat, b: nat)
    requires forall k: nat :: Bit(a, k) <==> Bit(b, k)
    ensures a == b
    decreases a + b
  {
    assert Bit(a, 0) <==> Bit(b, 0);
    if a != 0 || b != 0 {
      forall k: nat ensures Bit(a / 2, k) <==> Bit(b / 2, k) {
        assert Bit(a, k + 1) <==> Bit(b, k + 1);
      }
      SameBits(a / 2, b / 2);
    }
  }

  function FromBytes(bytes: seq<Byte>): nat {
    if bytes == [] then 0 else 256 * FromBytes(bytes[..|bytes| - 1]) + bytes[|bytes| - 1]
  }

  function ToBytes(n: nat, length: nat): seq<Byte> {
    if length == 0 then [] else ToBytes(n / 256, length - 1) + [n % 256]
  }

  lemma {:induction false} FromBytesFits(bytes: seq<Byte>)
    ensures FromBytes(bytes) < Pow(256, |bytes|)
  {
    if bytes != [] { FromBytesFits(bytes[..|bytes| - 1]); }
  }

  lemma {:induction false} ToBytesRoundTrip(n: nat, length: nat)
    requires n < Pow(256, length)
    ensures |ToBytes(n, length)| == length && FromBytes(ToBytes(n, length)) == n
    decreases length
  {
    if length > 0 {
      ToBytesRoundTrip(n / 256, length - 1);
      var high := ToBytes(n / 256, length - 1);
      assert (high + [n % 256])[..length - 1] == high;
    }
  }

  /** Byte strings of one length are determined by the number they spell. */
  lemma {:induction false} FromBytesInjective(a: seq<Byte>, b: seq<Byte>)
    requires |a| == |b| && FromBytes(a) == FromBytes(b)
    ensures a == b
  {
    if a != [] {
      var n := |a| - 1;
      FromBytesInjective(a[..n], b[..n]);
      assert a == a[..n] + [a[n]] && b == b[..n] + [b[n]];
    }
  }

  /** Bit k is the parity of the k-fold half. */
  lemma {:induction false} BitIsQuotient(n: nat, k: nat)
    ensures Pow(2, k) > 0 && (Bit(n, k) <==> (n / Pow(2, k)) % 2 == 1)
    decreases k
  {
    if k > 0 {
      BitIsQuotient(n / 2, k - 1);
      HalfTwice(n, Pow(2, k - 1));
    }
  }

  lemma HalfTwice(n: nat, m: nat)
    requires m > 0
    ensures n / 2 / m == n / (2 * m)
  {
    var q := n / 2 / m;
    var r := n / 2 - q * m;
    assert 0 <= r < m;
    assert n == (2 * m) * q + (2 * r + n % 2);
    Quotient(n, 2 * m, q, 2 * r + n % 2);
  }

  lemma Quotient(n: nat, m: nat, q: nat, r: nat)
    requires n == m * q + r && r < m
    ensures n / m == q
  {
    var d := n / m;
    assert n == m * d + n % m;
    NextMultiple(m, q, d);
    NextMultiple(m, d, q);
  }

  lemma {:induction false} NextMultiple(m: nat, a: nat, b: nat)
    ensures a < b ==> m * a + m <= m * b
    decreases b
  {
    if a < b {
      assert m * b == m * (b - 1) + m;
      NextMultiple(m, a, b - 1);
    }
  }

  lemma {:induction false} BitOfWord(high: nat, low: Byte, k: nat)
    ensures k < 8 ==> (Bit(256 * high + low, k) <==> Bit(low, k))
    ensures k >= 8 ==> (Bit(256 * high + low, k) <==> Bit(high, k - 8))
  {
    BitOfScaled(high, 8, low, k);
  }

  /** The low m bits are those of the small number, the rest those of the large one. */
  lemma {:induction false} BitOfScaled(high: nat, m: nat, low: nat, k: nat)
    requires low < Pow(2, m)
    ensures Bit(Pow(2, m) * high + low, k) <==> if k < m then Bit(low, k) else Bit(high, k - m)
    decreases m
  {
    if m > 0 {
      var h := Pow(2, m - 1);
      assert Pow(2, m) * high == 2 * (h * high) by { assert Pow(2, m) == 2 * h; }
      var n := Pow(2, m) * high + low;
      assert n % 2 == low % 2 && n / 2 == h * high + low / 2;
      if k > 0 { BitOfScaled(high, m - 1, low / 2, k - 1); }
    }
  }

  /** Byte j from the front of a big-endian string holds the bits from 8 x (length - 1 - j) on. */
  lemma {:induction false} BitOfByte(bytes: seq<Byte>, j: nat, k: nat)
    requires j < |bytes| && k < 8
    ensures Bit(FromBytes(bytes), 8 * (|bytes| - 1 - j) + k) <==> Bit(bytes[j], k)
    decreases |bytes|
  {
    var n := |bytes| - 1;
    BitOfWord(FromBytes(bytes[..n]), bytes[n], 8 * (n - j) + k);
    if j < n { BitOfByte(bytes[..n], j, k); }
  }
}
