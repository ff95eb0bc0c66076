/** Bytes and little-endian halfwords of an image, with the erased value filling the last odd halfword. */
module Bytes {

  type Byte = n: int | 0 <= n < 256
  type Half = n: int | 0 <= n < 0x1_0000

  const ERASED: Half := 0xFFFF

  function Combine(lo: Byte, hi: Byte): Half {
    lo + 256 * hi
  }

  function LowByte(h: Half): Byte {
    h % 256
  }

  function HighByte(h: Half): Byte {
    h / 256
  }

  /** Bitwise and, bit by bit from the lowest. */
  function And(a: nat, b: nat): (r: nat)
    ensures r <= a && r <= b
  {
    if a == 0 || b == 0 then 0
    else (if a % 2 == 1 && b % 2 == 1 then 1 else 0) + 2 * And(a / 2, b / 2)
  }

  lemma {:induction false} AndSymmetric(a: nat, b: nat)
    ensures And(a, b) == And(b, a)
  {
    if a != 0 && b != 0 {
      AndSymmetric(a / 2, b / 2);
    }
  }

  lemma {:induction false} AndOnes(a: nat, ones: nat, width: nat)
    requires ones == Ones(width) && a <= ones
    ensures And(a, ones) == a && And(ones, a) == a
  {
    if width > 0 {
      AndOnes(a / 2, ones / 2, width - 1);
    }
  }

  /** `width` one bits. */
  function Ones(width: nat): nat {
    if width == 0 then 0 else 2 * Ones(width - 1) + 1
  }

  /** Programming an erased halfword leaves the value, and programming the erased value leaves the halfword. */
  lemma AndErased(v: Half)
    ensures And(ERASED, v) == v && And(v, ERASED) == v
  {
    assert Ones(4) == 15 && Ones(8) == 0xFF && Ones(12) == 0xFFF && Ones(16) == 0xFFFF;
    AndOnes(v, ERASED, 16);
  }

  /** Every bit set in `a` is set in `b`. */
  predicate Subset(a: nat, b: nat) {
    And(a, b) == a
  }

  lemma {:induction false} SubsetSelf(a: nat)
    ensures Subset(a, a)
  {
    if a > 0 {
      SubsetSelf(a / 2);
    }
  }

  lemma {:induction false} AndInside(a: nat, b: nat)
    ensures Subset(And(a, b), a) && Subset(And(a, b), b)
  {
    if a > 0 && b > 0 {
      AndInside(a / 2, b / 2);
    }
  }

  lemma {:induction false} SubsetTrans(a: nat, b: nat, c: nat)
    requires Subset(a, b) && Subset(b, c)
    ensures Subset(a, c)
  {
    if a > 0 {
      SubsetTrans(a / 2, b / 2, c / 2);
    }
  }

  lemma {:induction false} SubsetAnti(a: nat, b: nat)
    requires Subset(a, b) && Subset(b, a)
    ensures a == b
  {
    AndSymmetric(a, b);
  }

  /** What is in both is in their and. */
  lemma {:induction false} IntoAnd(x: nat, a: nat, b: nat)
    requires Subset(x, a) && Subset(x, b)
    ensures Subset(x, And(a, b))
  {
    if x > 0 {
      IntoAnd(x / 2, a / 2, b / 2);
    }
  }

  function ByteAt(data: seq<Byte>, i: nat): Byte {
    if i < |data| then data[i] else 0xFF
  }

  /** The `j`-th halfword the data programs. */
  function HalfAt(data: seq<Byte>, j: nat): Half {
    Combine(ByteAt(data, 2 * j), ByteAt(data, 2 * j + 1))
  }

  function Halves(len: nat): nat {
    (len + 1) / 2
  }

  /** `s` with `[lo, hi)` overwritten by `v`. */
  function Fill<T>(s: seq<T>, lo: nat, hi: nat, v: T): (r: seq<T>)
    requires lo <= hi <= |s|
    ensures |r| == |s|
    ensures forall i :: 0 <= i < |s| ==> r[i] == if lo <= i < hi then v else s[i]
  {
    s[..lo] + seq(hi - lo, _ => v) + s[hi..]
  }
}
