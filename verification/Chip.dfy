/** The board's flash controller, its SRAM ring and the RAM loader running on its core: what each bus
    access and each halfword of the loader does to them. */
module Chips {
  import opened Bytes
  import opened Parts

  /** The loader's entry, its control words' neighbourhood and its ring, in SRAM. */
  const LOADER_BASE := 0x2000_0000
  const RING_START := 0x2000_0400

  /** The controller's status bits. */
  datatype Stat = Stat(pgerr: bool, wperr: bool, endf: bool) {
    predicate Failed() {
      pgerr || wperr
    }
  }

  const STAT_CLEAR := Stat(false, false, false)

  /** The controller's control bits a flash job writes: program, page erase, start, lock. */
  datatype Ctl = Ctl(pg: bool, per: bool, start: bool, lk: bool)

  const CTL_NONE := Ctl(false, false, false, false)
  const CTL_PG := CTL_NONE.(pg := true)
  const CTL_PER := CTL_NONE.(per := true)
  const CTL_LK := CTL_NONE.(lk := true)

  /** The loader's registers while it runs. */
  datatype Loader = Off | On(ringStart: int, ringEnd: int, addr: int, count: nat, rp: int)

  /** The core registers a loader run is started with and answers in; `stat` is `r0` as the loader leaves it. */
  datatype Regs = Regs(r0: int, r1: int, r2: int, r3: nat, sp: int, pc: int, thumb: bool, stat: Stat)

  datatype Chip = Chip(
    part: Part,
    flash: seq<Half>,
    closed: seq<bool>,
    ring: seq<Half>,
    wp: int,
    rp: int,
    codeOk: bool,
    protected: bool,
    locked: bool,
    ctl: Ctl,
    stat: Stat,
    addr: int,
    busy: nat,
    halted: bool,
    regs: Regs,
    loader: Loader,
    storeWrites: nat
  )

  predicate Wf(c: Chip) {
    && Sound(c.part)
    && |c.flash| == |c.closed| == c.part.FlashLen() / 2
    && |c.ring| == c.part.ring / 2
    && (c.loader.On? ==> LoaderFits(c.part, c.loader))
  }

  /** A running loader reads inside the part's ring and programs inside its flash. */
  predicate LoaderFits(p: Part, l: Loader)
    requires l.On?
  {
    && l.ringStart == RING_START && l.ringEnd == RING_START + p.ring
    && l.ringStart <= l.rp < l.ringEnd && l.rp % 2 == 0
    && FLASH_BASE <= l.addr && l.addr % 2 == 0
    && l.addr + 2 * l.count <= FLASH_BASE + p.FlashLen()
  }

  function StoreHalf(p: Part): int {
    (p.StoreStart() - FLASH_BASE) / 2
  }

  /** A flash operation finished: the status says so and `BUSY` reads set twice more. */
  function OpDone(c: Chip): Chip {
    c.(busy := 2, stat := c.stat.(endf := true))
  }

  /** The page holding the controller's address is erased, and its closed halfwords open again. */
  function ErasePage(c: Chip): (r: Chip)
    requires Wf(c)
    ensures Wf(r)
  {
    if FLASH_BASE <= c.addr < FLASH_BASE + c.part.FlashLen() then
      var lo := PageHalf(c.part, c.addr - FLASH_BASE);
      c.(flash := Fill(c.flash, lo, lo + c.part.page / 2, ERASED),
         closed := Fill(c.closed, lo, lo + c.part.page / 2, false),
         storeWrites := c.storeWrites + if lo >= StoreHalf(c.part) then 1 else 0)
    else c
  }

  /** A write of the control register. */
  function CtlWrite(c: Chip, v: Ctl): (r: Chip)
    requires Wf(c)
    ensures Wf(r)
  {
    if c.locked then c
    else if v.lk then c.(locked := true, ctl := CTL_LK)
    else
      var d := c.(ctl := v);
      if !v.start then d
      else
        var e := if v.per then ErasePage(d) else d;
        OpDone(e.(ctl := e.ctl.(start := false)))
  }

  function HalfIndex(addr: int): int {
    (addr - FLASH_BASE) / 2
  }

  /** A halfword write to flash: once per erase, and never into a halfword its successor has closed. */
  function ProgramHalf(c: Chip, addr: int, val: Half): (r: Chip)
    requires Wf(c)
    requires 0 <= HalfIndex(addr) < |c.flash|
    ensures Wf(r)
    ensures r == c.(flash := r.flash, closed := r.closed, stat := r.stat, busy := r.busy, storeWrites := r.storeWrites)
  {
    if c.locked || !c.ctl.pg then c.(stat := c.stat.(pgerr := true))
    else if c.protected then c.(stat := c.stat.(wperr := true))
    else
      var i := HalfIndex(addr);
      var d := c.(storeWrites := c.storeWrites + if i >= StoreHalf(c.part) then 1 else 0);
      if (c.flash[i] != ERASED || c.closed[i]) && val != 0 then
        OpDone(d.(stat := d.stat.(pgerr := true)))
      else
        OpDone(d.(flash := c.flash[i := And(c.flash[i], val)],
                  closed := if ClosesBelow(c.part, addr) && 0 < i then c.closed[i - 1 := true] else c.closed))
  }

  /** A page's first byte, on the two page sizes there are. */
  predicate PageStart(p: Part, addr: int) {
    if p.page == 1024 then addr % 1024 == 0 else addr % 2048 == 0
  }

  /** The first halfword of the page holding `off`, an offset into flash. */
  function PageHalf(p: Part, off: int): int {
    if p.page == 1024 then off / 1024 * 512 else off / 2048 * 1024
  }

  /** Programming at `addr` closes the halfword below: on an F1x0, at a word's low halfword, inside a page. */
  predicate ClosesBelow(p: Part, addr: int)
  {
    p.family == FAMILY_F1X0 && addr % 4 == 0 && !PageStart(p, addr)
  }

  function RingAt(c: Chip, a: int): Half
    requires RING_START <= a < RING_START + 2 * |c.ring|
  {
    c.ring[(a - RING_START) / 2]
  }

  /** The loader stops: the controller's program bit cleared, `r0` and `r2` answered, the core halted. */
  function LoaderStop(c: Chip): (r: Chip)
    requires Wf(c) && c.loader.On?
    ensures Wf(r)
  {
    var d := CtlWrite(c, CTL_NONE);
    d.(regs := d.regs.(stat := d.stat, r2 := c.loader.addr), loader := Off, halted := true)
  }

  /** One turn of the loader's loop: stop, spin on an empty ring, or take one halfword. */
  function LoaderStep(c: Chip): (r: Chip)
    requires Wf(c)
    ensures Wf(r)
  {
    match c.loader
    case Off => c
    case On(_, _, _, _, _) =>
      if c.loader.count == 0 || c.wp == 0 then LoaderStop(c)
      else if c.wp == c.loader.rp then c
      else LoaderTake(c)
  }

  function LoaderTake(c: Chip): (r: Chip)
    requires Wf(c) && c.loader.On? && c.loader.count > 0
    ensures Wf(r)
  {
    var l := c.loader;
    var hw := RingAt(c, l.rp);
    var d := if hw == ERASED then c else ProgramHalf(c, l.addr, hw).(busy := 0);
    if hw != ERASED && d.stat.Failed() then LoaderStop(d.(rp := 0))
    else
      var rp := if l.rp + 2 >= l.ringEnd then l.ringStart else l.rp + 2;
      d.(loader := On(l.ringStart, l.ringEnd, l.addr + 2, l.count - 1, rp), rp := rp)
  }

  /** The loader's progress over `n` turns. */
  function LoaderRun(c: Chip, n: nat): (r: Chip)
    requires Wf(c)
    ensures Wf(r)
  {
    if n == 0 then c else LoaderStep(LoaderRun(c, n - 1))
  }

  /** Let go, the core runs. It is a loader only where the pc, in Thumb state, is on code that has been written. */
  function Resume(c: Chip): (r: Chip)
    requires Wf(c) && c.loader.Off? && ResumeFits(c)
    ensures Wf(r)
  {
    var d := c.(halted := false);
    if c.regs.pc / 2 * 2 != LOADER_BASE || !c.regs.thumb || !c.codeOk then d
    else CtlWrite(d, CTL_PG).(loader := On(c.regs.r0, c.regs.r1, c.regs.r2, c.regs.r3, c.regs.r0))
  }

  predicate ResumeFits(c: Chip) {
    var l := On(c.regs.r0, c.regs.r1, c.regs.r2, c.regs.r3, c.regs.r0);
    LoaderFits(c.part, l) && c.regs.r1 <= c.regs.sp <= SRAM_BASE + c.part.sramKib * 1024
  }

  /** A system reset caught at the reset vector: the controller locked and idle, no loader, the core halted. */
  function ResetHalted(c: Chip): (r: Chip)
    requires Wf(c)
    ensures Wf(r)
  {
    c.(locked := true, ctl := CTL_LK, stat := STAT_CLEAR, busy := 0, loader := Off, halted := true)
  }

  function Restarted(c: Chip): (r: Chip)
    requires Wf(c)
    ensures Wf(r)
  {
    ResetHalted(c).(halted := false)
  }

  /** The unlock key sequence took. */
  function Unlocked(c: Chip): Chip {
    if c.locked then c.(locked := false, ctl := c.ctl.(lk := false)) else c
  }

  // ---- the controller's rules ----

  /** The byte below `addr` is in the same page. */
  predicate Inside(p: Part, addr: int) {
    PageOf(p, addr - FLASH_BASE - 1) == PageOf(p, addr - FLASH_BASE)
  }

  /** A halfword is written where the cell is erased and still open, or with zeros anywhere; a refused one changes no cell. On
      an F1x0 a word's low halfword, written inside a page, closes the halfword before it. */
  lemma ProgramOnce(c: Chip, addr: int, v: Half)
    requires Wf(c) && FLASH_BASE <= addr && addr % 2 == 0 && (addr - FLASH_BASE) / 2 < |c.flash|
    ensures var i, d := (addr - FLASH_BASE) / 2, ProgramHalf(c, addr, v);
            if c.locked || !c.ctl.pg then d == c.(stat := c.stat.(pgerr := true))
            else if c.protected then d == c.(stat := c.stat.(wperr := true))
            else if v == 0 || (c.flash[i] == 0xFFFF && !c.closed[i]) then
              && d.flash == c.flash[i := v] && d.stat == c.stat.(endf := true) && d.busy == 2
              && d.closed == if c.part.family == FAMILY_F1X0 && addr % 4 == 0 && Inside(c.part, addr) then c.closed[i - 1 := true] else c.closed
            else d.flash == c.flash && d.closed == c.closed && d.stat.pgerr
  {
    assert |c.flash| == |c.closed| && Sound(c.part);
    hide Wf, Sound, LoaderFits, And, ClosesBelow, StoreHalf, Inside, PageOf;
    AndErased(v);
    AndNothing(c.flash[(addr - FLASH_BASE) / 2]);
    ClosesIs(c.part, addr);
  }

  lemma AndNothing(x: Half)
    ensures And(x, 0) == 0
  {
  }

  lemma ClosesIs(p: Part, addr: int)
    requires Sound(p) && FLASH_BASE <= addr && addr % 2 == 0
    ensures ClosesBelow(p, addr) <==> p.family == FAMILY_F1X0 && addr % 4 == 0 && Inside(p, addr)
    ensures ClosesBelow(p, addr) ==> 0 < (addr - FLASH_BASE) / 2
  {
    StartOfPage(addr - FLASH_BASE);
    hide Sound;
  }

  lemma StartOfPage(off: nat)
    ensures (FLASH_BASE + off) % 1024 == 0 <==> (off - 1) / 1024 != off / 1024
    ensures (FLASH_BASE + off) % 2048 == 0 <==> (off - 1) / 2048 != off / 2048
  {
    StartsAt(off, 1024, 0x0800_0000 / 1024);
    StartsAt(off, 2048, 0x0800_0000 / 2048);
  }

  lemma StartsAt(off: nat, page: nat, base: nat)
    requires (page == 1024 && base == 0x2_0000) || (page == 2048 && base == 0x1_0000)
    ensures (page * base + off) % page == 0 <==> (off - 1) / page != off / page
  {
    if page == 1024 {
      var q, r := off / 1024, off % 1024;
      assert 1024 * base + off == 1024 * (base + q) + r;
    } else {
      var q, r := off / 2048, off % 2048;
      assert 2048 * base + off == 2048 * (base + q) + r;
    }
  }

  /** A word's low halfword written, as the halfword before it sees it. */
  lemma LowHalfFirst(c: Chip, addr: int, v: Half)
    requires Wf(c) && FLASH_BASE < addr && addr % 4 == 0 && Inside(c.part, addr) && (addr - FLASH_BASE) / 2 < |c.flash|
    requires !c.locked && c.ctl.pg && !c.protected && v != 0
    requires c.flash[(addr - FLASH_BASE) / 2] == 0xFFFF && !c.closed[(addr - FLASH_BASE) / 2]
    ensures var before, d := (addr - FLASH_BASE) / 2 - 1, ProgramHalf(c, addr, v);
            && 0 <= before < |d.flash| == |d.closed|
            && d.flash[before] == c.flash[before] && d.closed[before] == (c.part.family == FAMILY_F1X0 || c.closed[before])
            && !d.locked && d.ctl.pg && !d.protected && d.part == c.part
  {
    assert |c.flash| == |c.closed|;
    hide ProgramHalf, Wf, Inside;
    ProgramOnce(c, addr, v);
    var d := ProgramHalf(c, addr, v);
    assert d == c.(flash := d.flash, closed := d.closed, stat := d.stat, busy := d.busy, storeWrites := d.storeWrites);
  }

  /** So on an F1x0 a word is programmed upwards: its low halfword first, or not at all. */
  lemma ProgramUpwards(c: Chip, addr: int, v: Half, w: Half)
    requires Wf(c) && FLASH_BASE < addr && addr % 4 == 0 && Inside(c.part, addr) && (addr - FLASH_BASE) / 2 < |c.flash|
    requires !c.locked && c.ctl.pg && !c.protected && v != 0 && w != 0
    requires c.flash[(addr - FLASH_BASE) / 2] == 0xFFFF && !c.closed[(addr - FLASH_BASE) / 2]
    ensures 0 < (addr - FLASH_BASE) / 2
    ensures var before := (addr - FLASH_BASE) / 2 - 1;
            var n := ProgramHalf(ProgramHalf(c, addr, v), addr - 2, w);
            if c.part.family != FAMILY_F1X0 && c.flash[before] == 0xFFFF && !c.closed[before] then n.flash[before] == w
            else n.flash[before] == c.flash[before] && n.stat.pgerr
  {
    LowHalfFirst(c, addr, v);
    assert (addr - 2 - FLASH_BASE) / 2 == (addr - FLASH_BASE) / 2 - 1;
    hide ProgramHalf, Wf, Inside;
    ProgramOnce(ProgramHalf(c, addr, v), addr - 2, w);
  }

  /** A page erase erases and opens the cells of the page its address is in, and no other cell; the store's pages are
      counted. No other write of the control register touches a cell. */
  lemma ErasesItsPage(c: Chip, v: Ctl, y: nat)
    requires Wf(c) && FLASH_BASE <= c.addr < FLASH_BASE + c.part.FlashLen() && y < |c.flash|
    ensures var d := CtlWrite(c, v);
            if !c.locked && !v.lk && v.per && v.start then
              && (d.flash[y], d.closed[y])
                 == (if PageOf(c.part, 2 * y) == PageOf(c.part, c.addr - FLASH_BASE) then (0xFFFF, false) else (c.flash[y], c.closed[y]))
              && d.storeWrites == c.storeWrites + (if c.addr >= c.part.StoreStart() then 1 else 0) && d.busy == 2 && d.stat.endf
            else (d.flash, d.closed, d.storeWrites) == (c.flash, c.closed, c.storeWrites)
    ensures CtlWrite(c, v).locked == (c.locked || v.lk)
  {
    hide LoaderFits;
    PageOfCell(c.part, y, c.addr - FLASH_BASE);
  }

  /** A core let go is the loader exactly when it stands at the entry in Thumb state over written code; the loader then has its
      register arguments, and the controller programs if it is unlocked. */
  lemma ResumesAsLoader(c: Chip)
    requires Wf(c) && c.loader.Off? && ResumeFits(c)
    ensures var d := Resume(c);
            && !d.halted && d.flash == c.flash && d.locked == c.locked
            && (d.loader.On? <==> c.regs.thumb && c.codeOk && (c.regs.pc == 0x2000_0000 || c.regs.pc == 0x2000_0001))
            && (d.loader.On? ==>
                  && d.loader == On(c.regs.r0, c.regs.r1, c.regs.r2, c.regs.r3, c.regs.r0)
                  && (!c.locked ==> d.ctl == Ctl(true, false, false, false)))
  {
  }

  /** A reset, caught or not, leaves the controller locked and idle with a clear status, no loader, and every cell, the ring and
      the protection as they were. */
  lemma ResetsTheController(c: Chip)
    requires Wf(c)
    ensures ResetHalted(c).halted && !Restarted(c).halted && Restarted(c) == ResetHalted(c).(halted := false)
    ensures var d := ResetHalted(c);
            && d.locked && d.loader.Off? && d.busy == 0 && d.stat == Stat(false, false, false) && d.ctl == Ctl(false, false, false, true)
            && (d.flash, d.closed, d.storeWrites, d.ring, d.protected, d.part) == (c.flash, c.closed, c.storeWrites, c.ring, c.protected, c.part)
  {
  }

  lemma PageOfCell(p: Part, y: nat, off: nat)
    requires Sound(p)
    ensures PageHalf(p, off) <= y < PageHalf(p, off) + p.page / 2 <==> PageOf(p, 2 * y) == PageOf(p, off)
    ensures off < p.FlashLen() ==> (PageHalf(p, off) >= StoreHalf(p) <==> FLASH_BASE + off >= p.StoreStart())
  {
    CellsOfPage(y, off);
    if off < p.FlashLen() {
      StorePage(p, off);
    }
  }

  lemma CellsOfPage(y: nat, off: nat)
    ensures off / 1024 * 512 <= y < off / 1024 * 512 + 512 <==> 2 * y / 1024 == off / 1024
    ensures off / 2048 * 1024 <= y < off / 2048 * 1024 + 1024 <==> 2 * y / 2048 == off / 2048
  {
  }

  lemma StorePage(p: Part, off: nat)
    requires Sound(p)
    ensures PageHalf(p, off) >= StoreHalf(p) <==> FLASH_BASE + off >= p.StoreStart()
  {
    var pages := p.flashKib / 2;
    assert p.flashKib == 2 * pages;
    if p.page == 1024 {
      assert StoreHalf(p) == 1024 * pages - 1024;
    } else {
      assert StoreHalf(p) == 1024 * pages - 2048;
    }
    hide Sound;
  }

  /** A halfword the loader can program or skip: the flash takes it, the loader moves on one halfword. */
  lemma TakeProgress(c: Chip)
    requires Wf(c) && c.loader.On? && c.loader.count > 0
    requires !c.locked && c.ctl.pg && !c.protected && !c.stat.Failed()
    requires HalfIndex(c.loader.addr) < StoreHalf(c.part)
    requires var i, hw := HalfIndex(c.loader.addr), RingAt(c, c.loader.rp);
             hw == ERASED || hw == 0 || (c.flash[i] == ERASED && !c.closed[i])
    ensures var d, i, hw := LoaderTake(c), HalfIndex(c.loader.addr), RingAt(c, c.loader.rp);
            && var rp := if c.loader.rp + 2 >= c.loader.ringEnd then c.loader.ringStart else c.loader.rp + 2;
            && d == c.(loader := On(c.loader.ringStart, c.loader.ringEnd, c.loader.addr + 2, c.loader.count - 1, rp), rp := rp,
                       stat := d.stat, busy := d.busy, flash := d.flash, closed := d.closed)
            && !d.stat.Failed()
            && d.flash == (if hw == ERASED then c.flash else c.flash[i := And(c.flash[i], hw)])
            && d.closed == (if hw != ERASED && ClosesBelow(c.part, c.loader.addr) && 0 < i then c.closed[i - 1 := true] else c.closed)
  {
  }

  /** A halfword the loader cannot program: nothing is written, and the loader stops with `rp` 0. */
  lemma TakeRefused(c: Chip)
    requires Wf(c) && c.loader.On? && c.loader.count > 0
    requires !c.locked && c.ctl.pg && !c.protected
    requires HalfIndex(c.loader.addr) < StoreHalf(c.part)
    requires var i, hw := HalfIndex(c.loader.addr), RingAt(c, c.loader.rp);
             hw != ERASED && hw != 0 && (c.flash[i] != ERASED || c.closed[i])
    ensures var d := LoaderTake(c);
            && d.loader.Off? && d.halted && d.rp == 0 && d.stat.Failed()
            && d.regs.stat == d.stat && d.regs.r2 == c.loader.addr
            && d.flash == c.flash && d.closed == c.closed && d.storeWrites == c.storeWrites
            && d.wp == c.wp && d.part == c.part && d.protected == c.protected && d.locked == c.locked
  {
  }
}
