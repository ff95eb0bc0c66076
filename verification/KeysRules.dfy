/** The store's flash rules: what a program answers, and what a whole-word write leaves on the device when it finishes and
    when it is torn. */
module KeysRules {
  import opened Bytes

  const PAGE := 4096
  const REGION := 2 * PAGE
  const CHUNK := 256
  const BLANK: Byte := 0xFF

  datatype Status = Done | Misaligned | OutOfBounds | ProgramFailed | EraseFailed

  // ---- bits ----

  lemma AndGrows(a: nat, b: nat, w: nat)
    requires Subset(a, b)
    ensures Subset(And(a, w), And(b, w))
  {
    AndInside(a, w);
    SubsetTrans(And(a, w), a, b);
    IntoAnd(And(a, w), b, w);
  }

  /** Bitwise or, bit by bit from the lowest. */
  function Or(a: nat, b: nat): nat
    decreases a + b
  {
    if a == 0 && b == 0 then 0 else (if a % 2 == 1 || b % 2 == 1 then 1 else 0) + 2 * Or(a / 2, b / 2)
  }

  lemma {:induction false} OrHolds(a: nat, b: nat)
    ensures Subset(a, Or(a, b)) && Subset(b, Or(a, b))
    decreases a + b
  {
    if a != 0 || b != 0 {
      OrHolds(a / 2, b / 2);
    }
  }

  lemma {:induction false} OrInside(a: nat, b: nat, h: nat)
    requires Subset(a, h) && Subset(b, h)
    ensures Subset(Or(a, b), h)
    decreases a + b
  {
    if a != 0 || b != 0 {
      OrInside(a / 2, b / 2, h / 2);
    }
  }

  lemma OrBetween(a: nat, b: nat, h: Byte)
    requires Subset(a, h) && Subset(b, h)
    ensures Subset(a, Or(a, b)) && Subset(b, Or(a, b)) && Subset(Or(a, b), h) && Or(a, b) < 256
  {
    OrHolds(a, b);
    OrInside(a, b, h);
    assert And(Or(a, b), h) <= h;
  }

  /** Masking an or adds nothing to a part that has the other part's masked bits. */
  lemma {:induction false} MaskedOr(y: nat, lo: nat, w: nat)
    requires Subset(And(lo, w), y)
    ensures Subset(And(Or(y, lo), w), y)
    decreases y + lo
  {
    if y != 0 || lo != 0 {
      if lo != 0 && w != 0 {
        assert Subset(And(lo / 2, w / 2), y / 2);
      }
      MaskedOr(y / 2, lo / 2, w / 2);
    }
  }

  lemma BlankHolds(b: Byte)
    ensures Subset(b, BLANK)
  {
    assert Ones(4) == 15 && Ones(8) == 0xFF;
    AndOnes(b, BLANK, 8);
  }

  // ---- the store's rules ----

  /** A halfword-aligned, write-once program: what it answers and leaves in a plain region. */
  function Refusal(m: seq<Byte>, off: nat, data: seq<Byte>): Status {
    if off % 2 != 0 || |data| % 2 != 0 then Misaligned
    else if off + |data| > |m| then OutOfBounds
    else if exists i :: 0 <= i < |data| && m[off + i] != BLANK && m[off + i] != data[i] then ProgramFailed
    else Done
  }

  function Patch(m: seq<Byte>, off: nat, data: seq<Byte>): (r: seq<Byte>)
    requires off + |data| <= |m|
    ensures |r| == |m|
    ensures forall i :: 0 <= i < |m| ==> r[i] == if off <= i < off + |data| then data[i - off] else m[i]
  {
    m[..off] + data + m[off + |data|..]
  }

  /** A program is taken exactly where each byte is blank or has its value already. Taken again it is taken, and changes
      nothing; another value on any byte it has programmed is refused. */
  lemma WriteOnce(m: seq<Byte>, off: nat, data: seq<Byte>, other: seq<Byte>)
    ensures Refusal(m, off, data) == Misaligned <==> off % 2 == 1 || |data| % 2 == 1
    ensures Refusal(m, off, data) == OutOfBounds <==> off % 2 == 0 && |data| % 2 == 0 && off + |data| > |m|
    ensures Refusal(m, off, data) == Done
            <==> off % 2 == 0 && |data| % 2 == 0 && off + |data| <= |m|
                 && forall i :: 0 <= i < |data| ==> m[off + i] == 0xFF || m[off + i] == data[i]
    ensures Refusal(m, off, data) == Done ==>
              && off + |data| <= |m| && Refusal(Patch(m, off, data), off, data) == Done
              && Patch(Patch(m, off, data), off, data) == Patch(m, off, data)
              && (|other| == |data| ==>
                    (Refusal(Patch(m, off, data), off, other) == ProgramFailed <==> exists i :: 0 <= i < |data| && data[i] != 0xFF && other[i] != data[i]))
  {
    if Refusal(m, off, data) == Done && |other| == |data| {
      var n := Patch(m, off, data);
      assert forall i :: 0 <= i < |data| ==> n[off + i] == data[i];
    }
  }

  /** The whole words a range falls in. */
  function WordsFrom(off: nat): (w: nat)
    ensures w <= off < w + 4 && w % 4 == 0
  {
    off / 4 * 4
  }

  function WordsTo(end: nat): (w: nat)
    ensures end <= w < end + 4 && w % 4 == 0 && (end <= REGION ==> w <= REGION)
  {
    (end + 3) / 4 * 4
  }

  // ---- what a write leaves ----

  /** A finished write has and-ed `img` into `[lo, hi)`; a torn one has got anywhere between. */
  ghost predicate Written(d0: seq<Byte>, d1: seq<Byte>, img: seq<Byte>, lo: nat, hi: nat) {
    && |d0| == |d1| == |img|
    && forall i :: 0 <= i < |d0| ==> d1[i] == if lo <= i < hi then And(d0[i], img[i]) else d0[i]
  }

  ghost predicate Torn(d0: seq<Byte>, d1: seq<Byte>, img: seq<Byte>, lo: nat, hi: nat) {
    && |d0| == |d1| == |img|
    && forall i :: 0 <= i < |d0| ==>
         if lo <= i < hi then Subset(And(d0[i], img[i]), d1[i]) && Subset(d1[i], d0[i]) else d1[i] == d0[i]
  }

  /** A device in step but for tears of one program, `data` at `off`: behind the mirror there, and in step with it everywhere
      else. */
  ghost predicate Near(d: seq<Byte>, m: seq<Byte>, off: nat, data: seq<Byte>) {
    && |d| == |m| && off + |data| <= |m|
    && forall i :: 0 <= i < |d| ==>
         if off <= i < off + |data| then Subset(data[i - off], d[i]) && Subset(d[i], m[i]) else d[i] == m[i]
  }

  ghost predicate Behind(d: seq<Byte>, m: seq<Byte>) {
    |d| == |m| && forall i :: 0 <= i < |d| ==> Subset(d[i], m[i])
  }

  lemma InStepIsNear(m: seq<Byte>, off: nat, data: seq<Byte>)
    requires Refusal(m, off, data).Done?
    ensures Near(m, m, off, data)
  {
    forall i | 0 <= i < |m|
      ensures if off <= i < off + |data| then Subset(data[i - off], m[i]) && Subset(m[i], m[i]) else true
    {
      SubsetSelf(m[i]);
      if off <= i < off + |data| {
        BlankHolds(data[i - off]);
        assert m[off + (i - off)] == BLANK || m[off + (i - off)] == data[i - off];
      }
    }
  }

  /** When a finished program's write leaves the device in step: each byte of the words written has every bit the mirror now
      has, and each byte beside them was in step already. */
  lemma InStepIff(d0: seq<Byte>, d1: seq<Byte>, m: seq<Byte>, off: nat, data: seq<Byte>, lo: nat, hi: nat)
    requires |d0| == |m| && off + |data| <= |m| && lo <= off && off + |data| <= hi && Written(d0, d1, Patch(m, off, data), lo, hi)
    ensures d1 == Patch(m, off, data)
            <==> forall i :: 0 <= i < |m| ==> if lo <= i < hi then Subset(Patch(m, off, data)[i], d0[i]) else d0[i] == m[i]
  {
    var img := Patch(m, off, data);
    forall i | 0 <= i < |m|
      ensures d1[i] == img[i] <==> if lo <= i < hi then Subset(img[i], d0[i]) else d0[i] == m[i]
    {
      AndSymmetric(img[i], d0[i]);
    }
    hide Patch, Subset, And;
  }

  /** A write that finishes brings in step a device that nothing but tears of this same program has put behind. */
  lemma WrittenInStep(d0: seq<Byte>, d1: seq<Byte>, m: seq<Byte>, off: nat, data: seq<Byte>, lo: nat, hi: nat)
    requires Near(d0, m, off, data) && lo <= off && off + |data| <= hi && Written(d0, d1, Patch(m, off, data), lo, hi)
    ensures d1 == Patch(m, off, data)
  {
    forall i | 0 <= i < |m|
      ensures d1[i] == Patch(m, off, data)[i]
    {
      SubsetSelf(d0[i]);
      if off <= i < off + |data| {
        AndSymmetric(data[i - off], d0[i]);
      }
    }
  }

  /** Another tear of it leaves such a device one, and every byte outside the program's own untouched. */
  lemma TornIsNear(d0: seq<Byte>, d1: seq<Byte>, m: seq<Byte>, off: nat, data: seq<Byte>, lo: nat, hi: nat)
    requires Near(d0, m, off, data) && lo <= off && off + |data| <= hi && Torn(d0, d1, Patch(m, off, data), lo, hi)
    ensures Near(d1, m, off, data)
    ensures forall i :: 0 <= i < |m| && !(off <= i < off + |data|) ==> d1[i] == d0[i]
  {
    forall i | 0 <= i < |m|
      ensures if off <= i < off + |data| then Subset(data[i - off], d1[i]) && Subset(d1[i], m[i]) else d1[i] == m[i]
    {
      SubsetSelf(d0[i]);
      if off <= i < off + |data| {
        AndSymmetric(data[i - off], d0[i]);
        SubsetTrans(d1[i], d0[i], m[i]);
      } else if lo <= i < hi {
        SubsetAnti(d0[i], d1[i]);
      }
    }
  }

  /** A program, finished or torn, gives the device no bit that its mirror has not. */
  lemma StaysBehind(d0: seq<Byte>, d1: seq<Byte>, m: seq<Byte>, img: seq<Byte>, lo: nat, hi: nat)
    requires Behind(d0, m) && |img| == |m|
    ensures Written(d0, d1, img, lo, hi) && (forall i :: 0 <= i < |m| && !(lo <= i < hi) ==> img[i] == m[i]) ==> Behind(d1, img)
    ensures Torn(d0, d1, img, lo, hi) ==> Behind(d1, m)
  {
    if Written(d0, d1, img, lo, hi) {
      forall i | 0 <= i < |m| && (img[i] == m[i] || lo <= i < hi)
        ensures Subset(d1[i], img[i])
      {
        AndInside(d0[i], img[i]);
      }
    }
    if Torn(d0, d1, img, lo, hi) {
      forall i | 0 <= i < |m|
        ensures Subset(d1[i], m[i])
      {
        SubsetSelf(d0[i]);
        SubsetTrans(d1[i], d0[i], m[i]);
      }
    }
  }

  /** What a program's writes leave, whole or torn. */
  lemma ProgramLeaves(d0: seq<Byte>, d1: seq<Byte>, m: seq<Byte>, off: nat, data: seq<Byte>, lo: nat, hi: nat)
    requires |d0| == |m| && off + |data| <= |m| && lo <= off && off + |data| <= hi
    ensures var img := Patch(m, off, data);
            && (Near(d0, m, off, data) && Written(d0, d1, img, lo, hi) ==> d1 == img)
            && (Near(d0, m, off, data) && Torn(d0, d1, img, lo, hi) ==> Near(d1, m, off, data))
            && (Behind(d0, m) && Written(d0, d1, img, lo, hi) ==> Behind(d1, img))
            && (Behind(d0, m) && Torn(d0, d1, img, lo, hi) ==> Behind(d1, m))
  {
    var img := Patch(m, off, data);
    if Near(d0, m, off, data) && Written(d0, d1, img, lo, hi) {
      WrittenInStep(d0, d1, m, off, data, lo, hi);
    }
    if Near(d0, m, off, data) && Torn(d0, d1, img, lo, hi) {
      TornIsNear(d0, d1, m, off, data, lo, hi);
    }
    if Behind(d0, m) {
      StaysBehind(d0, d1, m, img, lo, hi);
    }
  }
}
