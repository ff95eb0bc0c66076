/** What every interleaving of the bridge and the RAM loader keeps, and where every run ends. */
module LoaderProofs {
  import opened Bytes
  import opened Parts
  import opened Chips
  import opened Ring
  import opened Loaders

  /** What a run was started on: the data for `addr`, and the flash as it was. */
  datatype Task = Task(part: Part, addr: int, data: seq<Byte>, flash: seq<Half>, closed: seq<bool>, writes: nat) {

    /** The first halfword's index, the halfwords to program, and the ring's cells. */
    function Base(): int {
      HalfIndex(addr)
    }

    function Count(): nat {
      Halves(|data|)
    }

    function Cells(): (m: nat)
      requires Sound(part)
      ensures 0 < m && m % 512 == 0 && part.ring == 2 * m
    {
      part.ring / 2
    }

    predicate Ok() {
      && Sound(part)
      && FLASH_BASE <= addr && addr % 2 == 0
      && |flash| == |closed| == part.FlashLen() / 2
      && Base() + Count() <= StoreHalf(part)
    }

    /** The halfword that stops a run: it needs programming, and its cell cannot take it. */
    predicate Bad(j: nat)
      requires Ok() && j < Count()
    {
      var hw := HalfAt(data, j);
      hw != ERASED && hw != 0 && (flash[Base() + j] != ERASED || closed[Base() + j])
    }

    predicate Clean(k: nat)
      requires Ok() && k <= Count()
    {
      forall j :: 0 <= j < k ==> !Bad(j)
    }
  }

  /** Flash and closed halfwords once the first `k` halfwords of `data` are programmed from cell `b` up. */
  function After(p: Part, f: seq<Half>, z: seq<bool>, b: nat, data: seq<Byte>, k: nat): (r: (seq<Half>, seq<bool>))
    requires |f| == |z| && b + k <= |f|
    ensures |r.0| == |r.1| == |f|
  {
    if k == 0 then (f, z)
    else
      var prev := After(p, f, z, b, data, k - 1);
      var i := b + k - 1;
      var hw := HalfAt(data, k - 1);
      if hw == ERASED then prev
      else (prev.0[i := And(prev.0[i], hw)],
            if ClosesBelow(p, FLASH_BASE + 2 * i) && 0 < i then prev.1[i - 1 := true] else prev.1)
  }

  /** Each programmed cell holds its old bits masked by the data, and every other cell is untouched. */
  lemma {:induction false} AfterFlash(p: Part, f: seq<Half>, z: seq<bool>, b: nat, data: seq<Byte>, k: nat, i: nat)
    requires |f| == |z| && b + k <= |f| && i < |f|
    ensures After(p, f, z, b, data, k).0[i] == if b <= i < b + k then And(f[i], HalfAt(data, i - b)) else f[i]
  {
    if k > 0 {
      AfterFlash(p, f, z, b, data, k - 1, i);
      var hw := HalfAt(data, k - 1);
      if i == b + k - 1 && hw == ERASED {
        AndErased(f[i]);
      }
    }
  }

  /** No cell from the next one up has been closed, nor, when the run starts a page, any cell below it. */
  lemma {:induction false} AfterClosed(p: Part, f: seq<Half>, z: seq<bool>, b: nat, data: seq<Byte>, k: nat, i: nat)
    requires |f| == |z| && b + k <= |f| && i < |f|
    requires b + k <= i || (i < b && !ClosesBelow(p, FLASH_BASE + 2 * b))
    ensures After(p, f, z, b, data, k).1[i] == z[i]
  {
    if k > 0 {
      AfterClosed(p, f, z, b, data, k - 1, i);
    }
  }

  /** Halfwords consumed by the loader, put in the ring by the bridge, and known consumed to the bridge. */
  function Taken(t: Task, c: Chip): int {
    ((if c.loader.On? then c.loader.addr else c.regs.r2) - t.addr) / 2
  }

  function Fed(r: Run): nat {
    Halves(r.sent)
  }

  function Known(r: Run): int
    requires r.Wf()
  {
    Fed(r) - r.Used() / 2
  }

  /** The halfwords in the ring with those of the chunk being written. */
  function Filled(r: Run): nat {
    Fed(r) + if r.pc.Writing? then 2 * r.pc.w else 0
  }

  function At(j: nat, m: nat): int
    requires 0 < m
  {
    RING_START + 2 * Wrap(j, m)
  }

  /** The bridge's own fields. */
  ghost predicate HostOk(r: Run, m: nat)
  {
    && r.Wf() && r.ringLen == 2 * m && 0 < m && m % 512 == 0
    && (r.phase.Feed? ==> r.sent % 1024 == 0 && (r.sent < r.len || r.len == 0))
    && (r.phase.Drain? ==> r.sent == r.len)
    && (r.pc.Writing? ==> r.phase.Feed? && r.pc.w <= r.Words() && r.Room())
    && (r.pc.Ending? ==> r.phase.Drain? && r.rp == r.wp)
  }

  /** The three counts in order, less than a ring apart, and the pointers that stand for them. */
  ghost predicate CountsOk(r: Run, m: nat, k: int)
    requires r.Wf() && 0 < m
  {
    && 0 <= Known(r) <= k <= Fed(r)
    && Fed(r) - Known(r) < m
    && r.wp == At(Fed(r), m)
    && r.rp == At(Known(r), m)
  }

  /** The loader and the flash behind it. */
  ghost predicate BoardOk(t: Task, c: Chip)
    requires t.Ok()
  {
    && 0 <= Taken(t, c) <= t.Count()
    && Wf(c) && c.part == t.part && !c.protected && !c.locked && c.storeWrites == t.writes
    && (c.flash, c.closed) == After(t.part, t.flash, t.closed, t.Base(), t.data, Taken(t, c))
    && t.Clean(Taken(t, c))
    && if c.loader.On? then RunningOk(t, c) else StoppedOk(t, c)
  }

  ghost predicate RunningOk(t: Task, c: Chip)
    requires t.Ok() && c.loader.On? && 0 <= Taken(t, c) <= t.Count()
  {
    var k := Taken(t, c);
    && c.loader.addr == t.addr + 2 * k
    && c.loader.count == t.Count() - k
    && c.loader.rp == At(k, t.Cells())
    && c.rp == c.loader.rp
    && c.ctl.pg && !c.stat.Failed() && !c.halted
  }

  ghost predicate StoppedOk(t: Task, c: Chip)
    requires t.Ok() && 0 <= Taken(t, c) <= t.Count()
  {
    var k := Taken(t, c);
    && c.halted
    && c.regs.r2 == t.addr + 2 * k
    && c.regs.stat == c.stat
    && if c.stat.Failed() then c.rp == 0 && k < t.Count() && t.Bad(k)
       else k == t.Count() && c.rp == At(k, t.Cells())
  }

  /** What the ring holds while the loader runs: every halfword it has yet to read, in order. */
  ghost predicate RingOk(t: Task, c: Chip, filled: nat)
    requires t.Ok() && Wf(c) && c.part == t.part
  {
    c.loader.On? ==>
      forall j :: 0 <= Taken(t, c) <= j < filled ==> c.ring[Wrap(j, t.Cells())] == HalfAt(t.data, j)
  }

  /** What the two ends agree on, phase by phase. */
  ghost predicate PhaseOk(t: Task, r: Run, c: Chip) {
    match r.phase
    case Feed => c.wp == r.wp
    case Drain => c.wp == r.wp
    case Halt => c.loader.On? ==> c.wp == 0 && Taken(t, c) == t.Count()
    case Done(o) => c.loader.Off? && o == Outcome(c.regs.stat, c.regs.r2)
  }

  ghost predicate Inv(t: Task, r: Run, c: Chip) {
    && t.Ok() && r.addr == t.addr && r.len == |t.data|
    && BoardOk(t, c) && HostOk(r, t.Cells())
    && CountsOk(r, t.Cells(), Taken(t, c)) && RingOk(t, c, Filled(r)) && PhaseOk(t, r, c)
  }

  // ---- pointers and counts ----

  lemma AtIndex(j: nat, m: nat)
    requires 0 < m
    ensures RING_START <= At(j, m) < RING_START + 2 * m && (At(j, m) - RING_START) / 2 == Wrap(j, m) && At(j, m) % 2 == 0
  {
  }

  lemma AtInjective(i: nat, j: nat, m: nat)
    requires 0 < m && i <= j < i + m
    ensures At(i, m) == At(j, m) <==> i == j
  {
    if i < j {
      WrapApart(i, j, m);
    }
  }

  /** The bridge's view of what is in the ring, from its pointers. */
  lemma UsedIs(r: Run, known: nat, fed: nat, m: nat)
    requires r.Wf() && 0 < m && r.ringLen == 2 * m && known <= fed < known + m
    requires r.wp == At(fed, m) && r.rp == At(known, m)
    ensures r.Used() == 2 * (fed - known)
  {
    WrapDistance(known, fed, m);
  }

  // ---- the loader's turns ----

  lemma LoaderStops(t: Task, r: Run, c: Chip)
    requires Inv(t, r, c) && c.loader.On? && (c.loader.count == 0 || c.wp == 0)
    ensures Inv(t, r, LoaderStep(c)) && LoaderStep(c).loader.Off? && Taken(t, LoaderStep(c)) == Taken(t, c) == t.Count()
  {
  }

  ghost predicate Takes(t: Task, r: Run, c: Chip) {
    Inv(t, r, c) && c.loader.On? && c.loader.count != 0 && c.wp != 0 && c.wp != c.loader.rp
  }

  /** What the loader reads next, and that its cell is as the run found it. */
  lemma NextHalfword(t: Task, r: Run, c: Chip)
    requires Takes(t, r, c)
    ensures Taken(t, c) < Fed(r)
    ensures RingAt(c, c.loader.rp) == HalfAt(t.data, Taken(t, c))
    ensures HalfIndex(c.loader.addr) == t.Base() + Taken(t, c) < StoreHalf(t.part) <= |c.flash|
    ensures c.flash[HalfIndex(c.loader.addr)] == t.flash[HalfIndex(c.loader.addr)]
    ensures c.closed[HalfIndex(c.loader.addr)] == t.closed[HalfIndex(c.loader.addr)]
  {
    var k := Taken(t, c);
    assert k < Fed(r);
    AtIndex(k, t.Cells());
    var i := t.Base() + k;
    AfterFlash(t.part, t.flash, t.closed, t.Base(), t.data, k, i);
    AfterClosed(t.part, t.flash, t.closed, t.Base(), t.data, k, i);
  }

  /** A halfword its cell cannot take stops the loader there, and nothing is programmed. */
  lemma LoaderRefused(t: Task, r: Run, c: Chip)
    requires Takes(t, r, c) && t.Bad(Taken(t, c))
    ensures Inv(t, r, LoaderStep(c)) && LoaderStep(c).loader.Off? && Taken(t, LoaderStep(c)) == Taken(t, c)
  {
    NextHalfword(t, r, c);
    TakeRefused(c);
  }

  lemma AfterNext(p: Part, f: seq<Half>, z: seq<bool>, b: nat, data: seq<Byte>, k: nat)
    requires |f| == |z| && b + k < |f|
    ensures After(p, f, z, b, data, k + 1) ==
            var prev, i, hw := After(p, f, z, b, data, k), b + k, HalfAt(data, k);
            if hw == ERASED then prev
            else (prev.0[i := And(prev.0[i], hw)], if ClosesBelow(p, FLASH_BASE + 2 * i) && 0 < i then prev.1[i - 1 := true] else prev.1)
  {
    hide HalfAt, And, ClosesBelow;
  }

  /** What taking the next halfword leaves. */
  ghost predicate TookOne(t: Task, c: Chip, d: Chip)
    requires t.Ok() && 0 <= Taken(t, c) < t.Count()
  {
    var k := Taken(t, c) + 1;
    && Wf(d)
    && (d.flash, d.closed) == After(t.part, t.flash, t.closed, t.Base(), t.data, k)
    && d.loader.On? && d.loader.addr == t.addr + 2 * k && d.loader.count == t.Count() - k && d.loader.rp == At(k, t.Cells())
    && d.rp == d.loader.rp && !d.stat.Failed()
    && d == c.(loader := d.loader, rp := d.rp, stat := d.stat, busy := d.busy, flash := d.flash, closed := d.closed)
  }

  /** Any other halfword is programmed, or skipped when it is the erased value, and the loader moves on. */
  lemma TakesOne(t: Task, r: Run, c: Chip)
    requires Takes(t, r, c) && !t.Bad(Taken(t, c))
    ensures Taken(t, c) < Fed(r) <= t.Count() && TookOne(t, c, LoaderStep(c))
  {
    NextHalfword(t, r, c);
    assert Taken(t, c) < t.Count() && LoaderStep(c) == LoaderTake(c);
    TakesOneOf(t, c);
  }

  /** The cell of the `k`-th halfword, and its address. */
  lemma CellOf(addr: int, k: nat)
    requires FLASH_BASE <= addr && addr % 2 == 0
    ensures HalfIndex(addr + 2 * k) == HalfIndex(addr) + k && FLASH_BASE + 2 * (HalfIndex(addr) + k) == addr + 2 * k
  {
  }

  /** The next halfword taken, as the chip sees it. */
  lemma TakenCell(t: Task, c: Chip)
    requires t.Ok() && BoardOk(t, c) && c.loader.On? && Taken(t, c) < t.Count() && !t.Bad(Taken(t, c))
    requires RingAt(c, c.loader.rp) == HalfAt(t.data, Taken(t, c))
    requires c.flash[t.Base() + Taken(t, c)] == t.flash[t.Base() + Taken(t, c)]
    requires c.closed[t.Base() + Taken(t, c)] == t.closed[t.Base() + Taken(t, c)]
    ensures var d, k := LoaderTake(c), Taken(t, c);
            var i, hw, rp := t.Base() + k, HalfAt(t.data, k), if c.loader.rp + 2 >= c.loader.ringEnd then c.loader.ringStart else c.loader.rp + 2;
            && d == c.(loader := On(c.loader.ringStart, c.loader.ringEnd, c.loader.addr + 2, c.loader.count - 1, rp), rp := rp,
                       stat := d.stat, busy := d.busy, flash := d.flash, closed := d.closed)
            && !d.stat.Failed()
            && d.flash == (if hw == ERASED then c.flash else c.flash[i := And(c.flash[i], hw)])
            && d.closed == (if hw != ERASED && ClosesBelow(c.part, FLASH_BASE + 2 * i) && 0 < i then c.closed[i - 1 := true] else c.closed)
  {
    CellOf(t.addr, Taken(t, c));
    TakeProgress(c);
    hide LoaderTake, After, And, ClosesBelow, HalfAt, Wrap, At;
  }

  lemma TakesOneOf(t: Task, c: Chip)
    requires t.Ok() && BoardOk(t, c) && c.loader.On? && Taken(t, c) < t.Count() && !t.Bad(Taken(t, c))
    requires RingAt(c, c.loader.rp) == HalfAt(t.data, Taken(t, c))
    requires c.flash[t.Base() + Taken(t, c)] == t.flash[t.Base() + Taken(t, c)]
    requires c.closed[t.Base() + Taken(t, c)] == t.closed[t.Base() + Taken(t, c)]
    ensures TookOne(t, c, LoaderTake(c))
  {
    hide LoaderTake, RingAt, And, ClosesBelow, HalfAt;
    TakenCell(t, c);
    AfterNext(t.part, t.flash, t.closed, t.Base(), t.data, Taken(t, c));
    hide After, Task.Bad, Task.Clean, LoaderFits, Sound;
    NextRp(c.loader.rp, Taken(t, c), t.Cells());
    hide Wrap, At;
  }

  /** The read pointer after one halfword, wrapped at the ring's end. */
  lemma NextRp(rp: int, k: nat, m: nat)
    requires 0 < m && rp == At(k, m)
    ensures (if rp + 2 >= RING_START + 2 * m then RING_START else rp + 2) == At(k + 1, m)
  {
    WrapStep(k, m);
  }

  /** The board after it, */
  lemma TookBoard(t: Task, c: Chip, d: Chip)
    requires t.Ok() && BoardOk(t, c) && c.loader.On? && Taken(t, c) < t.Count() && !t.Bad(Taken(t, c)) && TookOne(t, c, d)
    ensures Taken(t, d) == Taken(t, c) + 1 && BoardOk(t, d)
  {
    hide Task.Ok, After, At, Sound, LoaderFits, StoppedOk;
    assert Taken(t, d) == Taken(t, c) + 1;
    CleanNext(t, Taken(t, c));
    hide Task.Bad, Task.Clean;
  }

  lemma CleanNext(t: Task, k: nat)
    requires t.Ok() && k < t.Count() && t.Clean(k) && !t.Bad(k)
    ensures t.Clean(k + 1)
  {
    hide Task.Ok, Task.Bad;
  }

  /** and what the two ends agree on. */
  lemma TookShared(t: Task, r: Run, c: Chip, d: Chip)
    requires Takes(t, r, c) && Taken(t, c) < Fed(r) && 0 <= Taken(t, c) < t.Count() && TookOne(t, c, d)
    requires Taken(t, d) == Taken(t, c) + 1
    ensures CountsOk(r, t.Cells(), Taken(t, d)) && RingOk(t, d, Filled(r)) && PhaseOk(t, r, d)
  {
    hide BoardOk, HostOk, Known, Taken, HalfAt, Wrap, After, At, Fed, Wf, Task.Ok;
  }

  lemma LoaderTakes(t: Task, r: Run, c: Chip)
    requires Takes(t, r, c) && !t.Bad(Taken(t, c))
    ensures Inv(t, r, LoaderStep(c)) && LoaderStep(c).loader.On? && Taken(t, LoaderStep(c)) == Taken(t, c) + 1
  {
    var d := LoaderStep(c);
    TakesOne(t, r, c);
    assert d.loader.On? && Taken(t, c) < t.Count();
    hide LoaderStep, TookOne;
    TookBoard(t, c, d);
    TookShared(t, r, c, d);
    hide BoardOk, HostOk, CountsOk, RingOk, PhaseOk, Taken, Task.Bad;
  }

  lemma LoaderKeeps(t: Task, r: Run, c: Chip)
    requires Inv(t, r, c)
    ensures Inv(t, r, LoaderStep(c))
  {
    if c.loader.On? {
      if c.loader.count == 0 || c.wp == 0 {
        LoaderStops(t, r, c);
      } else if c.wp != c.loader.rp {
        if t.Bad(Taken(t, c)) {
          LoaderRefused(t, r, c);
        } else {
          LoaderTakes(t, r, c);
        }
      }
    }
  }

  // ---- the bridge's accesses ----

  /** A chunk is read from the data in order, and its padding is the data's own erased tail. */
  lemma ChunkHalves(data: seq<Byte>, at: nat, n: nat, j: nat)
    requires at % 2 == 0 && at + n <= |data| && (at + n == |data| || 2 * j + 1 < n)
    ensures ChunkHalf(data, at, n, j) == HalfAt(data, at / 2 + j)
  {
    assert 2 * (at / 2 + j) == at + 2 * j;
  }

  /** With room for a chunk of `n` bytes, its `w`-th word lands in two cells inside the ring that hold nothing
      the loader has yet to read, the padding halfword of a last odd word included. */
  lemma WordCells(known: nat, taken: nat, fed: nat, n: nat, w: nat, m: nat)
    requires m % 512 == 0 && 0 < m && fed % 512 == 0 && n <= CHUNK && w < (n + 3) / 4
    requires known <= taken <= fed && fed - known + Halves(n) < m
    ensures Wrap(fed + 2 * w, m) == Wrap(fed, m) + 2 * w
    ensures Wrap(fed + 2 * w + 1, m) == Wrap(fed, m) + 2 * w + 1 < m
    ensures forall i :: taken <= i < fed + 2 * w ==> Wrap(i, m) != Wrap(fed + 2 * w, m) && Wrap(i, m) != Wrap(fed + 2 * w + 1, m)
  {
    hide Wrap;
    WrapAligned(fed, m);
    WrapAdd(fed, 2 * w, m);
    WrapAdd(fed, 2 * w + 1, m);
    forall i | taken <= i < fed + 2 * w
      ensures Wrap(i, m) != Wrap(fed + 2 * w, m) && Wrap(i, m) != Wrap(fed + 2 * w + 1, m)
    {
      WrapApart(i, fed + 2 * w, m);
      WrapApart(i, fed + 2 * w + 1, m);
    }
  }

  /** The bridge's room test, in counts. */
  lemma RoomIs(r: Run, m: nat, k: int)
    requires HostOk(r, m) && CountsOk(r, m, k) && r.Room()
    ensures Fed(r) - Known(r) + Halves(r.Next()) < m
  {
    UsedIs(r, Known(r), Fed(r), m);
  }

  /** A write of the ring or of `wp` leaves the loader and the flash as they are. */
  lemma BoardFrame(t: Task, c: Chip, d: Chip)
    requires t.Ok() && BoardOk(t, c) && d == c.(ring := d.ring, wp := d.wp) && |d.ring| == |c.ring|
    ensures BoardOk(t, d) && Taken(t, d) == Taken(t, c)
  {
  }

  function WriteAt(c: Chip, i: nat, lo: Half, hi: Half): Chip
    requires i + 1 < |c.ring|
  {
    c.(ring := c.ring[i := lo][i + 1 := hi])
  }

  lemma WriteRingIs(c: Chip, i: nat, lo: Half, hi: Half)
    requires Wf(c) && i + 1 < |c.ring|
    ensures WriteRing(c, RING_START + 2 * i, lo, hi) == WriteAt(c, i, lo, hi)
  {
  }

  lemma WordHost(r: Run, m: nat, k: int)
    requires HostOk(r, m) && CountsOk(r, m, k) && r.pc.Writing? && r.pc.w < r.Words()
    ensures HostOk(r.(pc := Writing(r.pc.w + 1)), m) && CountsOk(r.(pc := Writing(r.pc.w + 1)), m, k)
  {
  }

  lemma WordAddress(r: Run, m: nat, k: int)
    requires HostOk(r, m) && CountsOk(r, m, k) && r.pc.Writing? && r.pc.w < r.Words()
    ensures Wrap(Filled(r), m) + 1 < m
    ensures r.wp + 4 * r.pc.w == RING_START + 2 * Wrap(Filled(r), m)
  {
    WordFree(r, m, k);
    WordStart(r, m, k);
    hide HostOk, CountsOk, Wrap, Run.Room, Run.Used;
  }

  lemma WordStart(r: Run, m: nat, k: int)
    requires HostOk(r, m) && CountsOk(r, m, k) && r.pc.Writing? && r.pc.w < r.Words()
    ensures r.wp == RING_START + 2 * Wrap(Fed(r), m) && Wrap(Filled(r), m) == Wrap(Fed(r), m) + 2 * r.pc.w
  {
    RoomIs(r, m, k);
    FedAligned(r.sent);
    hide Wrap, Run.Room, Run.Used, Known, Halves;
    WordCells(Known(r), k, Fed(r), r.Next(), r.pc.w, m);
  }

  lemma FedAligned(sent: nat)
    requires sent % 1024 == 0
    ensures Halves(sent) % 512 == 0
  {
    var q := sent / 1024;
    assert sent == 1024 * q && Halves(sent) == 512 * q;
  }

  lemma EvenSent(sent: nat)
    requires sent % 1024 == 0
    ensures sent % 2 == 0 && sent / 2 == Halves(sent)
  {
    var q := sent / 1024;
    assert sent == 2 * (512 * q);
  }

  lemma WordData(r: Run, m: nat, data: seq<Byte>)
    requires HostOk(r, m) && r.len == |data| && r.pc.Writing? && r.pc.w < r.Words()
    ensures ChunkHalf(data, r.sent, r.Next(), 2 * r.pc.w) == HalfAt(data, Filled(r))
    ensures ChunkHalf(data, r.sent, r.Next(), 2 * r.pc.w + 1) == HalfAt(data, Filled(r) + 1)
  {
    hide ChunkHalf, HalfAt, Wrap, Run.Room, Run.Used;
    EvenSent(r.sent);
    assert r.sent + r.Next() == |data| || r.Next() == CHUNK;
    hide HostOk;
    ChunkHalves(data, r.sent, r.Next(), 2 * r.pc.w);
    ChunkHalves(data, r.sent, r.Next(), 2 * r.pc.w + 1);
  }

  /** The access that writes a chunk's `w`-th word. */
  lemma WordAccess(r: Run, c: Chip, data: seq<Byte>, w: nat)
    requires r.Wf() && Wf(c) && r.phase.Feed? && r.pc == Writing(w) && w < r.Words()
    ensures var lo, hi := ChunkHalf(data, r.sent, r.Next(), 2 * w), ChunkHalf(data, r.sent, r.Next(), 2 * w + 1);
            HostStep(r, c, data) == (r.(pc := Writing(w + 1)), WriteRing(c, r.wp + 4 * w, lo, hi))
  {
    hide ChunkHalf, WriteRing;
  }

  lemma WordWrites(r: Run, c: Chip, data: seq<Byte>, m: nat, k: int)
    requires HostOk(r, m) && CountsOk(r, m, k) && r.len == |data| && r.pc.Writing? && r.pc.w < r.Words()
    requires Wf(c) && |c.ring| == m
    ensures Wrap(Filled(r), m) + 1 < m
    ensures HostStep(r, c, data) ==
            (r.(pc := Writing(r.pc.w + 1)),
             WriteAt(c, Wrap(Filled(r), m), HalfAt(data, Filled(r)), HalfAt(data, Filled(r) + 1)))
  {
    WordAddress(r, m, k);
    WordData(r, m, data);
    WordAccess(r, c, data, r.pc.w);
    hide HalfAt, ChunkHalf, Wrap, CountsOk, WriteRing, WriteAt, Filled, Run.Used, Run.Room, HostStep;
    WriteRingIs(c, Wrap(Filled(r), m), HalfAt(data, Filled(r)), HalfAt(data, Filled(r) + 1));
  }

  lemma RingGrows(ring: seq<Half>, m: nat, data: seq<Byte>, k: nat, j: nat)
    requires |ring| == m && 0 < m && Wrap(j, m) + 1 == Wrap(j + 1, m) < m
    requires forall i :: k <= i < j ==> ring[Wrap(i, m)] == HalfAt(data, i)
    requires forall i :: k <= i < j ==> Wrap(i, m) != Wrap(j, m) && Wrap(i, m) != Wrap(j + 1, m)
    ensures var next := ring[Wrap(j, m) := HalfAt(data, j)][Wrap(j, m) + 1 := HalfAt(data, j + 1)];
            forall i :: k <= i < j + 2 ==> next[Wrap(i, m)] == HalfAt(data, i)
  {
    hide HalfAt;
  }

  lemma WordFree(r: Run, m: nat, k: int)
    requires HostOk(r, m) && CountsOk(r, m, k) && r.pc.Writing? && r.pc.w < r.Words()
    ensures Wrap(Filled(r), m) + 1 == Wrap(Filled(r) + 1, m) < m
    ensures forall i :: k <= i < Filled(r) ==> Wrap(i, m) != Wrap(Filled(r), m) && Wrap(i, m) != Wrap(Filled(r) + 1, m)
  {
    RoomIs(r, m, k);
    hide Wrap, Run.Room, Run.Used;
    WordCells(Known(r), k, Fed(r), r.Next(), r.pc.w, m);
  }

  lemma WordRing(t: Task, r: Run, c: Chip, d: Chip)
    requires t.Ok() && HostOk(r, t.Cells()) && CountsOk(r, t.Cells(), Taken(t, c)) && r.pc.Writing? && r.pc.w < r.Words()
    requires Wf(c) && c.part == t.part && RingOk(t, c, Filled(r))
    requires Wrap(Filled(r), t.Cells()) + 1 < t.Cells()
    requires d == WriteAt(c, Wrap(Filled(r), t.Cells()), HalfAt(t.data, Filled(r)), HalfAt(t.data, Filled(r) + 1))
    ensures RingOk(t, d, Filled(r) + 2)
  {
    var m := t.Cells();
    WordFree(r, m, Taken(t, c));
    assert 0 <= Taken(t, c) && |c.ring| == m && Taken(t, d) == Taken(t, c);
    hide HalfAt, Wrap, Run.Room, Run.Used, HostOk, CountsOk, Taken, Filled, Task.Ok;
    if c.loader.On? {
      RingGrows(c.ring, m, t.data, Taken(t, c), Filled(r));
    }
  }

  lemma WordKeeps(t: Task, r: Run, c: Chip)
    requires Inv(t, r, c) && r.pc.Writing? && r.pc.w < r.Words()
    ensures var n := HostStep(r, c, t.data); Inv(t, n.0, n.1)
  {
    WordWrites(r, c, t.data, t.Cells(), Taken(t, c));
    var n := HostStep(r, c, t.data);
    WordRing(t, r, c, n.1);
    BoardFrame(t, c, n.1);
    WordHost(r, t.Cells(), Taken(t, c));
    assert Filled(n.0) == Filled(r) + 2;
    assert PhaseOk(t, n.0, n.1);
    hide HalfAt, Wrap, BoardOk, RingOk, HostOk, CountsOk, PhaseOk, HostStep, Task.Ok;
  }

  /** `wp` after a chunk, wrapped at the ring's end, is where the next chunk goes. */
  lemma PublishWp(r: Run, m: nat, k: int)
    requires HostOk(r, m) && CountsOk(r, m, k) && r.pc.Writing? && r.pc.w == r.Words()
    ensures var wp := if r.wp + r.Advance() == RING_START + r.ringLen then RING_START else r.wp + r.Advance();
            wp == At(Fed(r) + Halves(r.Next()), m)
    ensures Fed(r) + Halves(r.Next()) == Halves(r.sent + r.Next()) <= Filled(r)
    ensures Fed(r) + Halves(r.Next()) - Known(r) < m
  {
    RoomIs(r, m, k);
    FedAligned(r.sent);
    SentHalves(r.sent, r.Next());
    assert r.wp == At(Fed(r), m) && r.Next() <= CHUNK;
    hide Wrap, Run.Room, Run.Used, HostOk, CountsOk, Known, Halves;
    WrapAligned(Fed(r), m);
    RoomToEnd(Wrap(Fed(r), m), m);
    WrapAdd(Fed(r), Halves(r.Next()), m);
  }

  lemma SentHalves(sent: nat, n: nat)
    requires sent % 1024 == 0
    ensures Halves(sent) + Halves(n) == Halves(sent + n) <= Halves(sent) + 2 * ((n + 3) / 4)
    ensures n <= 1024 ==> Halves(n) <= 512
  {
    var q := sent / 1024;
    assert sent == 1024 * q;
  }

  lemma RoomToEnd(w: nat, m: nat)
    requires w < m && w % 512 == 0 && m % 512 == 0
    ensures w + 512 <= m
  {
    var a, b := w / 512, m / 512;
    assert w == 512 * a && m == 512 * b;
  }

  lemma NextSent(sent: nat, len: nat)
    requires sent % 1024 == 0 && sent <= len
    ensures var n := if len - sent < CHUNK then len - sent else CHUNK; sent + n == len || (sent + n) % 1024 == 0
  {
  }

  lemma PublishCounts(r: Run, m: nat, k: int, c: Chip)
    requires HostOk(r, m) && CountsOk(r, m, k) && r.pc.Writing? && r.pc.w == r.Words() && Wf(c)
    ensures var n := Publish(r, c); HostOk(n.0, m) && CountsOk(n.0, m, k) && Known(n.0) == Known(r) && Fed(n.0) <= Filled(r)
  {
    hide Wrap, At;
    NextSent(r.sent, r.len);
    PublishWp(r, m, k);
    UsedIs(Publish(r, c).0, Known(r), Fed(r) + Halves(r.Next()), m);
  }

  lemma PublishKeeps(t: Task, r: Run, c: Chip)
    requires Inv(t, r, c) && r.pc.Writing? && r.pc.w == r.Words()
    ensures var n := HostStep(r, c, t.data); Inv(t, n.0, n.1)
  {
    PublishCounts(r, t.Cells(), Taken(t, c), c);
    BoardFrame(t, c, HostStep(r, c, t.data).1);
  }

  /** A read of `rp` while the run is under way tells the bridge exactly what has been consumed. */
  lemma ReadRp(t: Task, r: Run, c: Chip)
    requires Inv(t, r, c) && c.rp != 0
    ensures var q := r.(rp := c.rp);
            q.rp == At(Taken(t, c), t.Cells()) && Known(q) == Taken(t, c) && CountsOk(q, t.Cells(), Taken(t, c))
  {
    UsedIs(r.(rp := c.rp), Taken(t, c), Fed(r), t.Cells());
  }

  /** Whoever reads 0 there knows that the loader has stopped. */
  lemma ErrorSeen(t: Task, r: Run, c: Chip)
    requires Inv(t, r, c) && c.rp == 0
    ensures c.loader.Off?
  {
  }

  /** The bridge's side of an access that only reads: the run's next fields, from what `rp` reads. */
  lemma FeedHost(r: Run, m: nat, k: nat, rp: int)
    requires HostOk(r, m) && CountsOk(r, m, k) && r.phase.Feed? && !r.pc.Writing?
    requires rp != 0 ==> rp == At(k, m)
    ensures HostOk(r.(pc := Writing(0)), m) <== r.Room()
    ensures CountsOk(r.(pc := Writing(0)), m, k)
    ensures HostOk(r.(phase := Halt), m) && CountsOk(r.(phase := Halt), m, k)
    ensures rp != 0 ==> var q := r.(rp := rp); HostOk(q, m) && CountsOk(q, m, k) && CountsOk(q.(pc := Writing(0)), m, k)
    ensures rp != 0 ==> var q := r.(rp := rp); q.Room() ==> HostOk(q.(pc := Writing(0)), m)
  {
    hide Wrap, At;
    if rp != 0 {
      UsedIs(r.(rp := rp), k, Fed(r), m);
    }
  }

  lemma FeedKeeps(t: Task, r: Run, c: Chip)
    requires Inv(t, r, c) && r.phase.Feed? && !r.pc.Writing?
    ensures var n := HostStep(r, c, t.data); Inv(t, n.0, n.1)
  {
    if c.rp == 0 {
      ErrorSeen(t, r, c);
    } else {
      ReadRp(t, r, c);
    }
    FeedHost(r, t.Cells(), Taken(t, c), c.rp);
  }

  /** Equal pointers mean an empty ring, never a full one. */
  lemma Drained(t: Task, r: Run, c: Chip)
    requires Inv(t, r, c) && r.wp == r.rp
    ensures Known(r) == Taken(t, c) == Fed(r)
  {
    AtInjective(Known(r), Fed(r), t.Cells());
  }

  lemma EndingKeeps(t: Task, r: Run, c: Chip)
    requires Inv(t, r, c) && r.pc.Ending?
    ensures var n := HostStep(r, c, t.data); Inv(t, n.0, n.1)
  {
    Drained(t, r, c);
    BoardFrame(t, c, HostStep(r, c, t.data).1);
  }

  lemma DrainHost(r: Run, m: nat, k: nat, rp: int)
    requires HostOk(r, m) && CountsOk(r, m, k) && r.phase.Drain? && r.pc.Idle?
    requires rp != 0 ==> rp == At(k, m)
    ensures HostOk(r.(phase := Halt), m) && CountsOk(r.(phase := Halt), m, k)
    ensures rp != 0 ==> var q := r.(rp := rp); HostOk(q, m) && CountsOk(q, m, k) && CountsOk(q.(pc := Ending), m, k)
    ensures rp != 0 ==> var q := r.(rp := rp); rp == r.wp ==> HostOk(q.(pc := Ending), m)
  {
    hide Wrap, At;
    if rp != 0 {
      UsedIs(r.(rp := rp), k, Fed(r), m);
    }
  }

  lemma DrainKeeps(t: Task, r: Run, c: Chip)
    requires Inv(t, r, c) && r.phase.Drain? && r.pc.Idle?
    ensures var n := HostStep(r, c, t.data); Inv(t, n.0, n.1)
  {
    if c.rp == 0 {
      ErrorSeen(t, r, c);
    } else {
      ReadRp(t, r, c);
    }
    DrainHost(r, t.Cells(), Taken(t, c), c.rp);
  }

  lemma HostKeeps(t: Task, r: Run, c: Chip)
    requires Inv(t, r, c)
    ensures var n := HostStep(r, c, t.data); Inv(t, n.0, n.1)
  {
    match r.phase
    case Feed =>
      if !r.pc.Writing? {
        FeedKeeps(t, r, c);
      } else if r.pc.w < r.Words() {
        WordKeeps(t, r, c);
      } else {
        PublishKeeps(t, r, c);
      }
    case Drain =>
      if r.pc.Ending? {
        EndingKeeps(t, r, c);
      } else {
        DrainKeeps(t, r, c);
      }
    case Halt =>
    case Done(_) =>
  }
}
