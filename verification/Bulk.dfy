/** An image arriving in chunks: whichever come, however often, where they go and when they are all there. */
module Bulk {
  import opened Bytes
  import opened Parts

  const CAPACITY := IMAGE_BUFFER
  const MAX_CHUNKS := 2048
  const CHUNK := 48
  const ACK_EVERY := 8

  /** The receiver's state; `have` is its chunk bitmap. */
  datatype Rx = Rx(buf: seq<Byte>, len: nat, have: seq<bool>, contiguous: nat, unacked: nat) {

    predicate Wf() {
      |buf| == CAPACITY && |have| == MAX_CHUNKS && len <= CAPACITY && contiguous <= len
    }

    predicate Complete() {
      len > 0 && contiguous == len
    }

    function Data(): seq<Byte>
      requires Wf()
    {
      buf[..len]
    }
  }

  function Chunks(len: nat): nat {
    (len + CHUNK - 1) / 48
  }

  /** Bytes in the chunk at `off`. */
  function Want(len: nat, off: nat): nat
    requires off < len
  {
    if len - off < CHUNK then len - off else CHUNK
  }

  // ---- operations ----

  function Begin(rx: Rx, len: nat): (r: Option<Rx>)
    requires rx.Wf()
    ensures r.Some? ==> r.value.Wf()
  {
    if len > CAPACITY || len == 0 then None
    else
      var bits := (Chunks(len) + 7) / 8 * 8;
      Some(Rx(seq(CAPACITY, i requires 0 <= i < CAPACITY => if i < len then 0xFF else rx.buf[i]), len,
              seq(MAX_CHUNKS, i requires 0 <= i < MAX_CHUNKS => i >= bits && rx.have[i]), 0, 0))
  }

  /** The first offset at or above `at`, chunk by chunk, that has not arrived. */
  function Walk(have: seq<bool>, len: nat, at: nat): (r: nat)
    requires at <= len <= CHUNK * |have|
    ensures at <= r <= len
    decreases len - at
  {
    if at < len && have[at / 48] then Walk(have, len, if at + CHUNK < len then at + CHUNK else len) else at
  }

  function Accepts(rx: Rx, off: nat, data: seq<Byte>): bool {
    off % 48 == 0 && off < rx.len && |data| == Want(rx.len, off)
  }

  function Patch(buf: seq<Byte>, off: nat, data: seq<Byte>): (r: seq<Byte>)
    requires off + |data| <= |buf|
    ensures |r| == |buf|
  {
    buf[..off] + data + buf[off + |data|..]
  }

  /** Take one chunk; a refused one changes nothing. */
  function Take(rx: Rx, off: nat, data: seq<Byte>): (r: Option<Rx>)
    requires rx.Wf()
    ensures r.Some? ==> r.value.Wf() && r.value.len == rx.len
  {
    if !Accepts(rx, off, data) then None
    else
      var have := rx.have[off / 48 := true];
      Some(Rx(Patch(rx.buf, off, data), rx.len, have, Walk(have, rx.len, rx.contiguous), if rx.unacked < 255 then rx.unacked + 1 else 255))
  }

  predicate AckDue(rx: Rx) {
    rx.unacked != 0 && (rx.Complete() || rx.unacked >= ACK_EVERY)
  }

  function TakeAck(rx: Rx): Rx {
    if AckDue(rx) then rx.(unacked := 0) else rx
  }

  function Reset(rx: Rx): Rx {
    rx.(len := 0, contiguous := 0, unacked := 0)
  }

  /** Longer, the tail reading as erased flash; refused past the buffer. */
  function Grow(rx: Rx, end: nat): (r: Option<Rx>)
    requires rx.Wf()
    ensures r.Some? ==> r.value.Wf() && r.value.len >= end && end <= CAPACITY
  {
    if end > CAPACITY then None
    else if end > rx.len then
      Some(rx.(buf := seq(CAPACITY, i requires 0 <= i < CAPACITY => if rx.len <= i < end then 0xFF else rx.buf[i]), len := end))
    else Some(rx)
  }

  /** Data placed at any offset, outside the chunked protocol; erasing a range places erased bytes there. */
  function Place(rx: Rx, off: nat, data: seq<Byte>): (r: Option<Rx>)
    requires rx.Wf()
    ensures r.Some? ==> r.value.Wf()
  {
    var g := Grow(rx, off + |data|);
    if g.None? then None else Some(g.value.(buf := Patch(g.value.buf, off, data)))
  }

  /** `data` laid over a string of bytes from `off` on, erased bytes filling any gap. */
  function Overlay(a: seq<Byte>, off: nat, data: seq<Byte>): (r: seq<Byte>) {
    var end := if |a| < off + |data| then off + |data| else |a|;
    seq(end, i requires 0 <= i < end => if off <= i < off + |data| then data[i - off] else if i < |a| then a[i] else 0xFF)
  }

  /** Placed bytes lie over what there was; refused only past the buffer. */
  lemma PlaceOverlays(rx: Rx, off: nat, data: seq<Byte>)
    requires rx.Wf()
    ensures Place(rx, off, data).Some? <==> off + |data| <= IMAGE_BUFFER
    ensures Place(rx, off, data).Some? ==> Place(rx, off, data).value.Data() == Overlay(rx.Data(), off, data)
  {
  }

  function Erased(n: nat): seq<Byte> {
    seq(n, i => 0xFF)
  }

  // ---- what a transfer keeps ----

  /** The incremental acknowledgement is the one a walk from the start would give. */
  predicate Walked(rx: Rx)
    requires rx.Wf()
  {
    rx.contiguous == Walk(rx.have, rx.len, 0)
  }

  predicate Held(have: seq<bool>, to: nat)
    requires to <= CHUNK * |have|
  {
    forall i :: 0 <= i < Chunks(to) ==> have[i]
  }

  /** Walking on from where a walk over fewer chunks stopped is walking from the start. */
  lemma {:induction false} WalkResumes(have: seq<bool>, more: seq<bool>, len: nat, at: nat)
    requires at <= len <= CHUNK * |have| && |more| == |have|
    requires forall i :: 0 <= i < |have| && have[i] ==> more[i]
    ensures Walk(more, len, at) == Walk(more, len, Walk(have, len, at))
    decreases len - at
  {
    if at < len && have[at / 48] {
      WalkResumes(have, more, len, if at + CHUNK < len then at + CHUNK else len);
    }
  }

  /** The walk reaches the end exactly when every chunk has arrived; otherwise it stops at a chunk that has not. */
  lemma {:induction false} WalkEnds(have: seq<bool>, len: nat, at: nat)
    requires at <= len <= CHUNK * |have| && (at % 48 == 0 || at == len)
    ensures Walk(have, len, at) == len <==> forall i :: at / 48 <= i < Chunks(len) && at < len ==> have[i]
    ensures var w := Walk(have, len, at); w < len ==> w % 48 == 0 && !have[w / 48]
    ensures forall i :: at / 48 <= i < Walk(have, len, at) / 48 ==> have[i]
    decreases len - at
  {
    if at < len && have[at / 48] {
      var next := if at + CHUNK < len then at + CHUNK else len;
      WalkEnds(have, len, next);
      assert next < len ==> next / 48 == at / 48 + 1;
      assert next == len ==> Chunks(len) == at / 48 + 1;
    }
  }

  /** Taken are the transfer's own chunks, whole, and nothing else; each writes its bytes and no other. */
  lemma TakesItsChunk(rx: Rx, off: nat, data: seq<Byte>)
    requires rx.Wf()
    ensures Take(rx, off, data).Some? <==>
              exists k: nat :: off == 48 * k && data != [] && off + |data| <= rx.len && (|data| == 48 || (|data| < 48 && off + |data| == rx.len))
    ensures Take(rx, off, data).Some? ==>
              var r := Take(rx, off, data).value;
              && off + |data| <= rx.len && r.unacked == (if rx.unacked < 255 then rx.unacked + 1 else 255)
              && (forall i :: 0 <= i < CAPACITY ==> r.buf[i] == if off <= i < off + |data| then data[i - off] else rx.buf[i])
              && forall k :: 0 <= k < MAX_CHUNKS ==> r.have[k] == (rx.have[k] || 48 * k == off)
  {
    if Take(rx, off, data).Some? {
      assert off == 48 * (off / 48);
    }
  }

  /** A transfer begins with nothing acknowledged, none of its chunks there, and its whole length erased. */
  lemma BeginClears(rx: Rx, len: nat)
    requires rx.Wf()
    ensures Begin(rx, len).Some? <==> 1 <= len <= IMAGE_BUFFER
    ensures Begin(rx, len).Some? ==>
              var r := Begin(rx, len).value;
              && r.len == len && r.contiguous == 0 && r.unacked == 0 && !r.Complete()
              && (forall i :: 0 <= i < CAPACITY ==> r.buf[i] == if i < len then 0xFF else rx.buf[i])
              && forall k :: 0 <= k < MAX_CHUNKS && 48 * k < len ==> !r.have[k]
  {
  }

  /** Forgotten, a transfer leaves no data, nothing to acknowledge and nothing to complete. */
  lemma ResetForgets(rx: Rx)
    requires rx.Wf()
    ensures var r := Reset(rx); r.Wf() && r.Data() == [] && !r.Complete() && !AckDue(r) && r.buf == rx.buf && r.have == rx.have
  {
  }

  lemma BeginWalked(rx: Rx, len: nat)
    requires rx.Wf() && Begin(rx, len).Some?
    ensures Walked(Begin(rx, len).value)
    ensures forall i :: 0 <= i < Chunks(len) ==> !Begin(rx, len).value.have[i]
  {
  }

  lemma TakeWalked(rx: Rx, off: nat, data: seq<Byte>)
    requires rx.Wf() && Walked(rx) && Take(rx, off, data).Some?
    ensures Walked(Take(rx, off, data).value)
  {
    WalkResumes(rx.have, rx.have[off / 48 := true], rx.len, 0);
  }

  /** Every chunk that has arrived holds the image's bytes. */
  predicate Matches(rx: Rx, image: seq<Byte>)
    requires rx.Wf() && |image| == rx.len
  {
    forall o :: 0 <= o < rx.len && rx.have[o / 48] ==> rx.buf[o] == image[o]
  }

  /** An honest sender's chunk, however often and in whatever order it comes. */
  lemma TakeMatches(rx: Rx, off: nat, image: seq<Byte>)
    requires rx.Wf() && |image| == rx.len && Matches(rx, image) && off % 48 == 0 && off < rx.len
    ensures var r := Take(rx, off, image[off..off + Want(rx.len, off)]);
            r.Some? && Matches(r.value, image)
  {
    var r := Take(rx, off, image[off..off + Want(rx.len, off)]).value;
    forall o | 0 <= o < r.len && r.have[o / 48]
      ensures r.buf[o] == image[o]
    {
      if o / 48 == off / 48 {
        assert off <= o < off + Want(rx.len, off);
      }
    }
  }

  predicate Offsets(offs: seq<nat>, len: nat) {
    forall j :: 0 <= j < |offs| ==> offs[j] % 48 == 0 && offs[j] < len
  }

  /** The offsets a sender's chunks name, whatever their order. */
  function TakeAll(rx: Rx, offs: seq<nat>, image: seq<Byte>): (r: Rx)
    requires rx.Wf() && |image| == rx.len && Offsets(offs, rx.len)
    ensures r.Wf() && r.len == rx.len
  {
    if offs == [] then rx
    else
      var front, off := offs[..|offs| - 1], offs[|offs| - 1];
      var p := TakeAll(rx, front, image);
      TakeAck(Take(p, off, image[off..off + Want(p.len, off)]).value)
  }

  /** The chunks at `offs` have come as well. */
  predicate Gained(before: seq<bool>, after: seq<bool>, offs: seq<nat>) {
    && |before| == |after|
    && forall i :: 0 <= i < |after| ==> (after[i] <==> before[i] || i * CHUNK in offs)
  }

  lemma GainsOne(a: seq<bool>, b: seq<bool>, c: seq<bool>, offs: seq<nat>)
    requires offs != [] && Gained(a, b, offs[..|offs| - 1]) && Gained(b, c, [offs[|offs| - 1]])
    ensures Gained(a, c, offs)
  {
    assert offs == offs[..|offs| - 1] + [offs[|offs| - 1]];
  }

  lemma {:induction false} TakeAllKeeps(rx: Rx, offs: seq<nat>, image: seq<Byte>)
    requires rx.Wf() && |image| == rx.len && Offsets(offs, rx.len)
    requires Walked(rx) && Matches(rx, image)
    ensures var r := TakeAll(rx, offs, image);
            && Walked(r) && Matches(r, image) && Gained(rx.have, r.have, offs)
  {
    if offs == [] {
      TakeAllNone(rx, image);
    } else {
      var front, off := offs[..|offs| - 1], offs[|offs| - 1];
      assert Offsets(front, rx.len) && off % 48 == 0 && off < rx.len;
      hide TakeAll, Take, TakeAck, Walk, Patch, Matches, Walked, Rx.Wf, Gained, Offsets, Want, Chunks;
      TakeAllKeeps(rx, front, image);
      TakeAllLast(rx, offs, image);
      TakeKeeps(TakeAll(rx, front, image), off, image);
      GainsOne(rx.have, TakeAll(rx, front, image).have, TakeAll(rx, offs, image).have, offs);
    }
  }

  lemma TakeKeeps(p: Rx, off: nat, image: seq<Byte>)
    requires p.Wf() && |image| == p.len && off % 48 == 0 && off < p.len && Walked(p) && Matches(p, image)
    ensures var t := Take(p, off, image[off..off + Want(p.len, off)]);
            && t.Some? && TakeAck(t.value).Wf() && TakeAck(t.value).len == |image|
            && Walked(TakeAck(t.value)) && Matches(TakeAck(t.value), image)
            && Gained(p.have, TakeAck(t.value).have, [off])
  {
    TakeMatches(p, off, image);
    TakeWalked(p, off, image[off..off + Want(p.len, off)]);
    assert off == off / 48 * CHUNK;
    hide Walk, Patch;
  }

  /** While the transfer is short of its end every eighth chunk is acknowledged, whichever they are and duplicates included,
      and the one that completes it is. */
  lemma {:induction false} EveryEighth(rx: Rx, offs: seq<nat>, image: seq<Byte>)
    requires rx.Wf() && |image| == rx.len && Offsets(offs, rx.len) && rx.unacked < 8 && offs != []
    requires forall k :: 0 <= k < |offs| ==> !TakeAll(rx, offs[..k], image).Complete()
    ensures var off, p := offs[|offs| - 1], TakeAll(rx, offs[..|offs| - 1], image);
            var t, r := Take(p, off, image[off..off + Want(p.len, off)]).value, TakeAll(rx, offs, image);
            && p.unacked == (rx.unacked + |offs| - 1) % 8
            && (AckDue(t) <==> t.Complete() || (rx.unacked + |offs|) % 8 == 0)
            && r == t.(unacked := if AckDue(t) then 0 else t.unacked)
            && (!t.Complete() ==> r.unacked == (rx.unacked + |offs|) % 8)
  {
    hide TakeAll, Take, TakeAck, AckDue, Rx.Wf, Walk, Patch;
    var front, off := offs[..|offs| - 1], offs[|offs| - 1];
    var p := TakeAll(rx, front, image);
    assert front == offs[..|front|];
    if front == [] {
      TakeAllNone(rx, image);
    } else {
      assert forall k :: 0 <= k < |front| ==> front[..k] == offs[..k];
      EveryEighth(rx, front, image);
    }
    TakeAllLast(rx, offs, image);
    TakeCounts(p, off, image[off..off + Want(p.len, off)]);
    NextOfEight(rx.unacked + |offs| - 1);
  }

  lemma TakeAllNone(rx: Rx, image: seq<Byte>)
    requires rx.Wf() && |image| == rx.len
    ensures TakeAll(rx, [], image) == rx
  {
  }

  lemma TakeAllLast(rx: Rx, offs: seq<nat>, image: seq<Byte>)
    requires rx.Wf() && |image| == rx.len && Offsets(offs, rx.len) && offs != []
    ensures var off, p := offs[|offs| - 1], TakeAll(rx, offs[..|offs| - 1], image);
            var t := Take(p, off, image[off..off + Want(p.len, off)]);
            t.Some? && TakeAll(rx, offs, image) == TakeAck(t.value)
  {
    hide Patch, Walk;
  }

  lemma TakeCounts(p: Rx, off: nat, data: seq<Byte>)
    requires p.Wf() && p.unacked < 8 && Take(p, off, data).Some?
    ensures var t := Take(p, off, data).value;
            && t.unacked == p.unacked + 1 && (AckDue(t) <==> t.Complete() || p.unacked == 7)
            && TakeAck(t) == t.(unacked := if AckDue(t) then 0 else t.unacked)
  {
  }

  lemma NextOfEight(n: nat)
    ensures (n + 1) % 8 == if n % 8 == 7 then 0 else n % 8 + 1
  {
  }

  /** A transfer is complete exactly when every chunk of the image has come, in whatever order and however often; the
      buffer is then the image. */
  lemma TransferDelivers(rx: Rx, offs: seq<nat>, image: seq<Byte>)
    requires rx.Wf() && 0 < |image| <= CAPACITY && Offsets(offs, |image|)
    ensures var r := TakeAll(Begin(rx, |image|).value, offs, image);
            && (r.Complete() <==> forall i :: 0 <= i < Chunks(|image|) ==> i * CHUNK in offs)
            && (r.Complete() ==> r.Data() == image)
  {
    var b := Begin(rx, |image|).value;
    BeginWalked(rx, |image|);
    assert Matches(b, image);
    TakeAllKeeps(b, offs, image);
    hide Begin, TakeAll, Walked, Matches, Rx.Complete, Walk, Rx.Wf;
    Delivered(TakeAll(b, offs, image), image);
  }

  lemma Delivered(r: Rx, image: seq<Byte>)
    requires r.Wf() && 0 < |image| == r.len && Walked(r) && Matches(r, image)
    ensures r.Complete() <==> forall i :: 0 <= i < Chunks(r.len) ==> r.have[i]
    ensures r.Complete() ==> r.Data() == image
  {
    WalkEnds(r.have, r.len, 0);
    if r.Complete() {
      assert forall o :: 0 <= o < r.len ==> 0 <= o / 48 < Chunks(r.len);
    }
    hide Walk;
  }

  class BulkRx {
    const buf: array<Byte>
    const have: array<bool>
    var len: nat
    var contiguous: nat
    var unacked: nat

    ghost function View(): Rx
      reads this, buf, have
    {
      Rx(buf[..], len, have[..], contiguous, unacked)
    }

    ghost predicate Valid()
      reads this, buf, have
    {
      View().Wf()
    }

    /** An idle receiver. */
    constructor ()
      ensures Valid() && fresh(buf) && fresh(have) && len == 0
      ensures View() == Rx(Erased(CAPACITY), 0, seq(MAX_CHUNKS, _ => false), 0, 0)
    {
      buf := new Byte[CAPACITY](_ => 0xFF);
      have := new bool[MAX_CHUNKS](_ => false);
      len, contiguous, unacked := 0, 0, 0;
    }

    /** A new transfer: none of the old one's chunks count, and none of its bytes are left inside the new length. */
    method Start(n: nat) returns (ok: bool)
      requires Valid()
      modifies this, buf, have
      ensures Valid() && ok == Begin(old(View()), n).Some?
      ensures View() == if ok then Begin(old(View()), n).value else old(View())
    {
      if n > CAPACITY || n == 0 {
        return false;
      }
      len, contiguous, unacked := n, 0, 0;
      var bits := (Chunks(n) + 7) / 8 * 8;
      forall i | 0 <= i < bits {
        have[i] := false;
      }
      forall i | 0 <= i < n {
        buf[i] := 0xFF;
      }
      ok := true;
    }

    method Copy(off: nat, data: seq<Byte>)
      requires Valid() && off + |data| <= CAPACITY
      modifies buf
      ensures Valid() && View() == old(View()).(buf := Patch(old(buf[..]), off, data))
    {
      forall i | 0 <= i < |data| {
        buf[off + i] := data[i];
      }
      assert buf[..] == Patch(old(buf[..]), off, data);
    }

    /** Take one chunk, and walk the acknowledgement on over everything that has arrived. */
    method Chunk(off: nat, data: seq<Byte>) returns (ok: bool)
      requires Valid()
      modifies this, buf, have
      ensures Valid() && ok == Take(old(View()), off, data).Some?
      ensures View() == if ok then Take(old(View()), off, data).value else old(View())
    {
      if off % 48 != 0 || off >= len {
        return false;
      }
      var want := if CHUNK < len - off then CHUNK else len - off;
      if |data| != want {
        return false;
      }
      Copy(off, data);
      have[off / 48] := true;
      unacked := if unacked < 255 then unacked + 1 else 255;
      ghost var target := Walk(have[..], len, contiguous);
      while contiguous < len
        invariant contiguous <= len && Walk(have[..], len, contiguous) == target
        decreases len - contiguous
        modifies this`contiguous
      {
        if !have[contiguous / 48] {
          break;
        }
        contiguous := if contiguous + CHUNK < len then contiguous + CHUNK else len;
      }
      ok := true;
    }

    /** How much has come without a gap, whenever enough is new or it is everything. */
    method NextAck() returns (a: Option<nat>)
      requires Valid()
      modifies this`unacked
      ensures Valid() && View() == TakeAck(old(View()))
      ensures a == if AckDue(old(View())) then Some(contiguous) else None
    {
      if unacked == 0 || !((len > 0 && contiguous == len) || unacked >= ACK_EVERY) {
        return None;
      }
      unacked := 0;
      a := Some(contiguous);
    }

    method Forget()
      requires Valid()
      modifies this
      ensures Valid() && View() == Reset(old(View()))
    {
      len, contiguous, unacked := 0, 0, 0;
    }

    method GrowTo(end: nat) returns (ok: bool)
      requires Valid()
      modifies this`len, buf
      ensures Valid() && ok == Grow(old(View()), end).Some?
      ensures View() == if ok then Grow(old(View()), end).value else old(View())
    {
      if end > CAPACITY {
        return false;
      }
      if end > len {
        forall i | len <= i < end {
          buf[i] := 0xFF;
        }
        len := end;
      }
      ok := true;
    }

    /** GDB's way in: no chunks, any offset, the length following the highest byte written. */
    method PlaceAt(off: nat, data: seq<Byte>) returns (ok: bool)
      requires Valid()
      modifies this`len, buf
      ensures Valid() && ok == Place(old(View()), off, data).Some?
      ensures View() == if ok then Place(old(View()), off, data).value else old(View())
    {
      ok := GrowTo(off + |data|);
      if ok {
        Copy(off, data);
      }
    }
  }
}
