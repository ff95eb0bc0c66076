/** The bridge's store in NOR flash behind a RAM mirror: programs written through word by word, pages erased. */
module Keys {
  import opened Bytes
  import opened KeysRules
  import opened KeysRuns

  // ---- the plain region ----

  class RamFlash {
    var bytes: array<Byte>
    const page: nat

    ghost predicate Valid()
      reads this
    {
      bytes.Length == 2 * page
    }

    constructor (page: nat)
      ensures Valid() && fresh(bytes) && this.page == page && bytes[..] == seq(2 * page, _ => BLANK)
    {
      this.page := page;
      bytes := new Byte[2 * page](_ => BLANK);
    }

    method ErasePage(n: nat) returns (r: Status)
      requires Valid()
      modifies bytes
      ensures r == if n * page + page > bytes.Length then EraseFailed else Done
      ensures bytes[..] == if r.Done? then Fill(old(bytes[..]), n * page, n * page + page, BLANK) else old(bytes[..])
    {
      var start := n * page;
      if start + page > bytes.Length {
        return EraseFailed;
      }
      forall i | start <= i < start + page {
        bytes[i] := BLANK;
      }
      r := Done;
    }

    method Program(off: nat, data: seq<Byte>) returns (r: Status)
      requires Valid()
      modifies bytes
      ensures r == Refusal(old(bytes[..]), off, data)
      ensures bytes[..] == if r.Done? then Patch(old(bytes[..]), off, data) else old(bytes[..])
    {
      if off % 2 != 0 || |data| % 2 != 0 {
        return Misaligned;
      }
      if off + |data| > bytes.Length {
        return OutOfBounds;
      }
      var i := 0;
      while i < |data|
        invariant 0 <= i <= |data|
        invariant forall j :: 0 <= j < i ==> bytes[off + j] == BLANK || bytes[off + j] == data[j]
      {
        if bytes[off + i] != BLANK && bytes[off + i] != data[i] {
          return ProgramFailed;
        }
        i := i + 1;
      }
      forall k | 0 <= k < |data| {
        bytes[off + k] := data[k];
      }
      r := Done;
    }
  }

  // ---- the mirrored region ----

  class KeysFlash {
    /** The partition's bytes: the device, which a failed operation may leave anywhere its rules allow. */
    ghost var dev: seq<Byte>
    const mirror: array<Byte>
    var persists: bool
    /** The region at boot, and what has been done to it since. */
    ghost var boot: seq<Byte>
    ghost var acts: seq<Act>

    ghost predicate Sized()
      reads this
    {
      mirror.Length == REGION && |dev| == |boot| == REGION
    }

    /** While the region persists, mirror and device are where its history can have left them. */
    ghost predicate Valid()
      reads this, mirror
    {
      Sized() && (persists ==> mirror[..] == MirrorAfter(boot, acts) && Reach(boot, acts, dev))
    }

    /** At boot the mirror is the device's copy, or blank and the device out of use where it cannot be read. */
    constructor (region: seq<Byte>, readable: bool)
      requires |region| == REGION
      ensures Valid() && fresh(mirror) && dev == region && persists == readable && boot == region && acts == []
      ensures mirror[..] == if readable then region else seq(REGION, _ => BLANK)
    {
      dev, persists, boot, acts := region, readable, region, [];
      mirror := new Byte[REGION](i requires 0 <= i < REGION => if readable then region[i] else BLANK);
    }

    method RamOnly()
      requires Valid()
      modifies this`persists, mirror
      ensures Valid() && !persists && mirror[..] == seq(REGION, _ => BLANK)
    {
      persists := false;
      forall i | 0 <= i < REGION {
        mirror[i] := BLANK;
      }
    }

    /** The device's write: whole words, and-ed in; a failed one may have done any part of it. */
    method DeviceWrite(at: nat, buf: seq<Byte>) returns (ok: bool)
      requires Sized() && at % 4 == 0 && |buf| % 4 == 0 && at + |buf| <= REGION
      modifies this`dev
      ensures Sized()
      ensures ok ==> Written(old(dev), dev, Patch(old(dev), at, buf), at, at + |buf|)
      ensures !ok ==> Torn(old(dev), dev, Patch(old(dev), at, buf), at, at + |buf|)
    {
      ghost var before, img := dev, Patch(dev, at, buf);
      ghost var full := Anded(before, img, at, at + |buf|);
      ok := *;
      if ok {
        dev := full;
      } else {
        ghost var torn: seq<Byte> :| |torn| == |before| && Torn(before, torn, img, at, at + |buf|);
        dev := torn;
      }
    }

    /** The sector erased; a failed erase leaves anything in it. */
    method DeviceErase(at: nat) returns (ok: bool)
      requires Sized() && at + PAGE <= REGION
      modifies this`dev
      ensures Sized()
      ensures forall i :: 0 <= i < REGION && !(at <= i < at + PAGE) ==> dev[i] == old(dev)[i]
      ensures ok ==> dev == Fill(old(dev), at, at + PAGE, BLANK)
    {
      ok := *;
      assert |dev[..PAGE]| == PAGE;
      ghost var left: seq<Byte> :| |left| == PAGE;
      if ok {
        dev := Fill(dev, at, at + PAGE, BLANK);
      } else {
        dev := Patch(dev, at, left);
      }
    }

    /** One page erased, the device first; only its own bytes of the device can change. */
    method ErasePage(n: nat) returns (r: Status)
      requires Valid()
      modifies this`dev, this`acts, mirror
      ensures Valid() && boot == old(boot) && acts == old(acts) + [Act(Erase(n), r.Done?)]
      ensures r.OutOfBounds? <==> n * PAGE + PAGE > REGION
      ensures r.Done? ==> mirror[..] == Fill(old(mirror[..]), n * PAGE, n * PAGE + PAGE, BLANK)
      ensures !r.Done? ==> mirror[..] == old(mirror[..])
      ensures !persists || r.OutOfBounds? ==> dev == old(dev) && (r.Done? || r.OutOfBounds?)
      ensures r.Done? && persists ==> dev == Fill(old(dev), n * PAGE, n * PAGE + PAGE, BLANK)
      ensures forall i :: 0 <= i < REGION && !(n * PAGE <= i < n * PAGE + PAGE) ==> dev[i] == old(dev)[i]
    {
      ghost var m, d0 := mirror[..], dev;
      var start := n * PAGE;
      if start + PAGE > REGION {
        RecordErase(m, d0, n, false);
        return OutOfBounds;
      }
      if persists {
        var ok := DeviceErase(start);
        if !ok {
          RecordErase(m, d0, n, false);
          return EraseFailed;
        }
      }
      RecordErase(m, d0, n, true);
      forall i | start <= i < start + PAGE {
        mirror[i] := BLANK;
      }
      assert mirror[..] == Fill(m, start, start + PAGE, BLANK);
      r := Done;
    }

    /** The history grows by an erase and the device it left. */
    ghost method RecordErase(m: seq<Byte>, d0: seq<Byte>, n: nat, done: bool)
      requires Sized() && |m| == |d0| == REGION
      requires persists ==> m == MirrorAfter(boot, acts) && Reach(boot, acts, d0)
      requires if n * PAGE + PAGE > REGION then dev == d0
               else persists ==>
                      (forall i :: 0 <= i < REGION && !InPage(n, i) ==> dev[i] == d0[i])
                      && (done ==> dev == Fill(d0, n * PAGE, n * PAGE + PAGE, BLANK))
      modifies this`acts
      ensures Sized() && acts == old(acts) + [Act(Erase(n), done)]
      ensures persists ==> Mirrored(m, Act(Erase(n), done)) == MirrorAfter(boot, acts) && Reach(boot, acts, dev)
    {
      if persists {
        if n * PAGE + PAGE > REGION {
          RefusedLeaves(m, d0, Act(Erase(n), done));
        } else {
          EraseLeaves(m, d0, n, done, dev);
        }
        ReachOn(boot, acts, d0, Act(Erase(n), done), dev);
      }
      hide Reach, MirrorAfter, Mirrored;
      acts := acts + [Act(Erase(n), done)];
    }

    /** Up to a chunk of the words being written: the mirror's bytes, with the program's own where it has any. */
    method Words(at: nat, n: nat, off: nat, data: seq<Byte>) returns (buf: seq<Byte>)
      requires Sized() && at + n <= REGION && off + |data| <= REGION
      ensures buf == Patch(mirror[..], off, data)[at..at + n]
    {
      buf := [];
      var i := at;
      while i < at + n
        invariant at <= i <= at + n && buf == Patch(mirror[..], off, data)[at..i]
      {
        buf := buf + [if off <= i < off + |data| then data[i - off] else mirror[i]];
        i := i + 1;
      }
    }

    method WriteChunk(off: nat, data: seq<Byte>, at: nat, n: nat) returns (ok: bool)
      requires Sized() && off + |data| <= REGION && at % 4 == 0 && n % 4 == 0 && at + n <= REGION
      modifies this`dev
      ensures Sized()
      ensures var img := Patch(old(dev), at, Patch(mirror[..], off, data)[at..at + n]);
              if ok then Written(old(dev), dev, img, at, at + n) else Torn(old(dev), dev, img, at, at + n)
    {
      hide Written, Torn, Patch;
      var buf := Words(at, n, off, data);
      ok := DeviceWrite(at, buf);
    }

    /** The words the program falls in, written through a chunk at a time. */
    method WriteThrough(off: nat, data: seq<Byte>) returns (ok: bool)
      requires Sized() && off + |data| <= REGION
      modifies this`dev
      ensures Sized()
      ensures var lo, hi, img := WordsFrom(off), WordsTo(off + |data|), Patch(mirror[..], off, data);
              && lo <= off && off + |data| <= hi <= REGION
              && if ok then Written(old(dev), dev, img, lo, hi) else Torn(old(dev), dev, img, lo, hi)
    {
      var lo, hi := WordsFrom(off), WordsTo(off + |data|);
      ghost var img, d0 := Patch(mirror[..], off, data), dev;
      Untouched(d0, img, lo);
      hide Written, Torn, Patch, WordsFrom, WordsTo, Subset, And;
      var at := lo;
      while at < hi
        invariant lo <= at <= hi && at % 4 == 0 && (hi - at) % 4 == 0 && Sized()
        invariant Written(d0, dev, img, lo, at)
      {
        var n := if hi - at < CHUNK then hi - at else CHUNK;
        ghost var d1 := dev;
        NextWords(at, hi, n);
        ok := WriteChunk(off, data, at, n);
        Chained(d0, d1, dev, img, lo, at, n, hi);
        if !ok {
          return;
        }
        at := at + n;
      }
      ok := true;
    }

    /** Halfword-aligned and write-once. It answers as the plain region does unless the device fails, and then the mirror is
        as it was. Success leaves the device in step when it was before, or was behind only by failures of this program. */
    method Program(off: nat, data: seq<Byte>) returns (r: Status)
      requires Valid()
      modifies this`dev, this`acts, mirror
      ensures Valid() && boot == old(boot) && acts == old(acts) + [Act(Op.Program(off, data), r.Done?)]
      ensures !Refusal(old(mirror[..]), off, data).Done? ==> r == Refusal(old(mirror[..]), off, data) && dev == old(dev)
      ensures Refusal(old(mirror[..]), off, data).Done? ==> r.Done? || (r.ProgramFailed? && persists)
      ensures mirror[..] == if r.Done? then Patch(old(mirror[..]), off, data) else old(mirror[..])
      ensures persists && r.Done? && Near(old(dev), old(mirror[..]), off, data) ==> dev == mirror[..]
      ensures Near(old(dev), old(mirror[..]), off, data) && !r.Done? ==> Near(dev, mirror[..], off, data)
      ensures persists && r.Done? && old(dev) == old(mirror[..]) ==> dev == mirror[..]
      ensures Refusal(old(mirror[..]), off, data).Done? && old(dev) == old(mirror[..]) && !r.Done? ==> Near(dev, mirror[..], off, data)
      ensures Behind(old(dev), old(mirror[..])) && persists ==> Behind(dev, mirror[..])
      ensures !persists ==> dev == old(dev)
    {
      ghost var m, d0, img := mirror[..], dev, if off + |data| <= REGION then Patch(mirror[..], off, data) else mirror[..];
      hide Reach, MirrorAfter, Near, Behind, Leaves;
      var fault := Check(off, data);
      if !fault.Done? {
        RecordProgram(m, d0, off, data, false);
        return fault;
      }
      InStepIsNear(m, off, data);
      if persists {
        var ok := WriteThrough(off, data);
        ProgramLeaves(d0, dev, m, off, data, WordsFrom(off), WordsTo(off + |data|));
        if !ok {
          RecordProgram(m, d0, off, data, false);
          return ProgramFailed;
        }
      }
      RecordProgram(m, d0, off, data, true);
      forall k | 0 <= k < |data| {
        mirror[off + k] := data[k];
      }
      assert mirror[..] == img;
      r := Done;
    }

    /** The refusals, from the mirror alone. */
    method Check(off: nat, data: seq<Byte>) returns (r: Status)
      requires Sized()
      ensures r == Refusal(mirror[..], off, data)
    {
      if off % 2 != 0 || |data| % 2 != 0 {
        return Misaligned;
      }
      if off + |data| > REGION {
        return OutOfBounds;
      }
      ghost var m := mirror[..];
      var i := 0;
      while i < |data|
        invariant 0 <= i <= |data|
        invariant forall j :: 0 <= j < i ==> m[off + j] == BLANK || m[off + j] == data[j]
      {
        if mirror[off + i] != BLANK && mirror[off + i] != data[i] {
          return ProgramFailed;
        }
        i := i + 1;
      }
      r := Done;
    }

    /** The history grows by a program and the device it left. */
    ghost method RecordProgram(m: seq<Byte>, d0: seq<Byte>, off: nat, data: seq<Byte>, done: bool)
      requires Sized() && |m| == |d0| == REGION
      requires persists ==> m == MirrorAfter(boot, acts) && Reach(boot, acts, d0)
      requires !Refusal(m, off, data).Done? ==> dev == d0
      requires Refusal(m, off, data).Done? && persists ==>
                 var lo, hi, img := WordsFrom(off), WordsTo(off + |data|), Patch(m, off, data);
                 if done then Written(d0, dev, img, lo, hi) else Torn(d0, dev, img, lo, hi)
      modifies this`acts
      ensures Sized() && acts == old(acts) + [Act(Op.Program(off, data), done)]
      ensures persists ==> Mirrored(m, Act(Op.Program(off, data), done)) == MirrorAfter(boot, acts) && Reach(boot, acts, dev)
    {
      var a := Act(Op.Program(off, data), done);
      hide Written, Torn, Patch;
      if persists {
        if Refusal(m, off, data).Done? {
          WritesLeave(m, d0, off, data, done, dev);
        } else {
          RefusedLeaves(m, d0, a);
        }
        ReachOn(boot, acts, d0, a, dev);
      }
      hide Reach, MirrorAfter, Mirrored;
      acts := acts + [a];
    }

    /** In a caller's terms: once every operation the device failed has since succeeded, or had its page erased, the device
        is in step. */
    lemma MendedIsInStep()
      requires Valid() && persists
      requires forall k: nat, i: nat :: i < REGION && FailedOn(boot, acts, k, i) ==> Mended(boot, acts, k, i)
      ensures dev == mirror[..]
    {
      MendedInStep(boot, acts, dev);
    }
  }

  lemma NextWords(at: nat, hi: nat, n: nat)
    requires at < hi && at % 4 == 0 && (hi - at) % 4 == 0 && n == if hi - at < CHUNK then hi - at else CHUNK
    ensures n % 4 == 0 && (at + n) % 4 == 0 && (hi - (at + n)) % 4 == 0
  {
  }

  lemma Untouched(d: seq<Byte>, img: seq<Byte>, at: nat)
    requires |img| == |d|
    ensures Written(d, d, img, at, at)
  {
  }

  /** One chunk more, whole or torn, onto the chunks before it. */
  lemma Chained(d0: seq<Byte>, d1: seq<Byte>, d2: seq<Byte>, img: seq<Byte>, lo: nat, at: nat, n: nat, hi: nat)
    requires Written(d0, d1, img, lo, at) && lo <= at && at + n <= hi && hi <= |img|
    ensures Written(d1, d2, Patch(d1, at, img[at..at + n]), at, at + n) ==> Written(d0, d2, img, lo, at + n)
    ensures Torn(d1, d2, Patch(d1, at, img[at..at + n]), at, at + n) ==> Torn(d0, d2, img, lo, hi)
  {
    if Torn(d1, d2, Patch(d1, at, img[at..at + n]), at, at + n) {
      forall i | 0 <= i < |d0| && lo <= i < hi
        ensures Subset(And(d0[i], img[i]), d2[i]) && Subset(d2[i], d0[i])
      {
        AndInside(d0[i], img[i]);
        SubsetSelf(d0[i]);
        SubsetSelf(d2[i]);
      }
    }
  }

  /** The finished write, which is one of the ways a torn one can end. */
  ghost function Anded(d: seq<Byte>, img: seq<Byte>, lo: nat, hi: nat): (r: seq<Byte>)
    requires |img| == |d|
    ensures Written(d, r, img, lo, hi) && Torn(d, r, img, lo, hi)
  {
    var r := seq(|d|, i requires 0 <= i < |d| => if lo <= i < hi then (And(d[i], img[i]) as Byte) else d[i]);
    AndedTorn(d, r, img, lo, hi);
    r
  }

  lemma AndedTorn(d: seq<Byte>, r: seq<Byte>, img: seq<Byte>, lo: nat, hi: nat)
    requires Written(d, r, img, lo, hi)
    ensures Torn(d, r, img, lo, hi)
  {
    forall i | 0 <= i < |d| && lo <= i < hi
      ensures Subset(And(d[i], img[i]), r[i]) && Subset(r[i], d[i])
    {
      SubsetSelf(r[i]);
      AndInside(d[i], img[i]);
    }
  }
}
