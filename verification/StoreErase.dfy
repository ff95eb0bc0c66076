/** The store erased on purpose, its pages and no others. */
module StoreErase {
  import opened Bytes
  import opened Parts
  import opened Chips
  import opened Flash
  import opened Boards
  import opened FlashJobs

  /** Halfwords in one piece of the read-back. */
  const READ_CHUNK := 512

  /** The first of the store's halfwords that does not read erased, in order. */
  function FirstWritten(w: seq<Half>, k: nat): (r: Option<nat>)
    requires k <= |w|
    ensures r.Some? ==> k <= r.value < |w| && w[r.value] != ERASED
    ensures r.None? <==> forall i :: k <= i < |w| ==> w[i] == ERASED
    decreases |w| - k
  {
    if k == |w| then None else if w[k] != ERASED then Some(k) else FirstWritten(w, k + 1)
  }

  lemma StoreGeometry(p: Part)
    requires Sound(p)
    ensures 0 <= StoreHalf(p) && StoreHalf(p) + p.page == p.FlashLen() / 2 && StoreHalf(p) % 2 == 0 && p.page % 512 == 0
    ensures PageHalf(p, p.StoreStart() - FLASH_BASE) == StoreHalf(p)
    ensures PageHalf(p, p.StoreStart() + p.page - FLASH_BASE) == StoreHalf(p) + p.page / 2
    ensures FLASH_BASE <= p.StoreStart() && p.StoreStart() + 2 * p.page == FLASH_BASE + p.FlashLen()
  {
  }

  /** What erasing one store page leaves. */
  ghost predicate ErasedAt(c: Chip, d: Chip, lo: nat, n: nat) {
    && lo + n <= |c.flash| == |c.closed|
    && d.flash == Fill(c.flash, lo, lo + n, ERASED) && d.closed == Fill(c.closed, lo, lo + n, false)
    && !d.stat.Failed() && d.storeWrites == c.storeWrites + 1
    && d == c.(flash := d.flash, closed := d.closed, storeWrites := d.storeWrites, ctl := CTL_NONE, stat := d.stat, addr := d.addr, busy := d.busy)
  }

  lemma StoreEraseStarts(c: Chip, lo: nat)
    requires Wf(c) && !c.locked && FLASH_BASE <= c.addr < FLASH_BASE + c.part.FlashLen()
    requires lo == PageHalf(c.part, c.addr - FLASH_BASE) && StoreHalf(c.part) <= lo && lo + c.part.page / 2 <= |c.flash|
    ensures CtlWrite(c, CTL_PER.(start := true)) ==
            c.(ctl := CTL_PER, flash := Fill(c.flash, lo, lo + c.part.page / 2, ERASED),
               closed := Fill(c.closed, lo, lo + c.part.page / 2, false), storeWrites := c.storeWrites + 1,
               busy := 2, stat := c.stat.(endf := true))
  {
    hide Fill, Sound, StoreHalf, PageHalf, LoaderFits;
  }

  lemma StorePageErased(c: Chip, addr: int, lo: nat)
    requires Wf(c) && !c.locked && FLASH_BASE <= addr < FLASH_BASE + c.part.FlashLen()
    requires lo == PageHalf(c.part, addr - FLASH_BASE) && StoreHalf(c.part) <= lo && lo + c.part.page / 2 <= |c.flash|
    ensures ErasedAt(c, ErasePageAt(c, addr), lo, c.part.page / 2)
  {
    var ready := ClearStat(WaitIdle(c)).(ctl := CTL_PER, addr := addr);
    StoreEraseStarts(ready, lo);
    hide PageHalf, ErasePage, StoreHalf, LoaderFits, Fill;
  }

  lemma FillTwice<T>(s: seq<T>, a: nat, b: nat, c: nat, v: T)
    requires a <= b <= c <= |s|
    ensures Fill(Fill(s, a, b, v), b, c, v) == Fill(s, a, c, v)
  {
  }

  /** The whole store erased, and nothing else of the chip's flash or protection changed. */
  ghost predicate StoreErased(c: Chip, d: Chip) {
    && 0 <= StoreHalf(c.part) <= |c.flash| == |c.closed|
    && d.flash == Fill(c.flash, StoreHalf(c.part), |c.flash|, ERASED) && d.closed == Fill(c.closed, StoreHalf(c.part), |c.flash|, false)
    && d.storeWrites == c.storeWrites + 2 && d.part == c.part && d.protected == c.protected
  }

  lemma TwoPages(c: Chip, d: Chip, f: Chip, lo: nat, half: nat)
    requires ErasedAt(c, d, lo, half) && ErasedAt(d, f, lo + half, half) && lo == StoreHalf(c.part) && lo + half + half == |c.flash|
    ensures StoreErased(c, f) && f.loader == c.loader && f.halted == c.halted && f.locked == c.locked
  {
    FillTwice(c.flash, lo, lo + half, lo + half + half, ERASED);
    FillTwice(c.closed, lo, lo + half, lo + half + half, false);
    hide Fill, StoreHalf;
  }

  /** One store page. */
  method EraseOne(m: Gd32, addr: int, ghost lo: nat) returns (e: Option<FlashError>)
    requires m.Valid() && m.loader.Off? && !m.locked && FLASH_BASE <= addr < FLASH_BASE + m.part.FlashLen()
    requires lo == PageHalf(m.part, addr - FLASH_BASE) && StoreHalf(m.part) <= lo && lo + m.part.page / 2 <= |m.flash|
    modifies m
    ensures m.Valid() && m.loader.Off? && !m.locked && m.keyStage == old(m.keyStage) && m.rushed == old(m.rushed) && e.None?
    ensures ErasedAt(old(m.View()), m.View(), lo, m.part.page / 2)
  {
    StorePageErased(m.View(), addr, lo);
    hide ErasePageAt, PageHalf, StoreHalf, Sound, LoaderFits, Fill;
    e := ErasePageOf(m, addr);
  }

  /** The store's two pages, one after the other; the first error ends it. */
  method ErasePages(m: Gd32) returns (e: Option<FlashError>)
    requires m.Valid() && m.loader.Off? && !m.locked
    modifies m
    ensures m.Valid() && m.loader.Off? && !m.locked && m.keyStage == old(m.keyStage) && m.rushed == old(m.rushed) && m.halted == old(m.halted) && e.None?
    ensures StoreErased(old(m.View()), m.View())
  {
    ghost var c, lo, half := m.View(), StoreHalf(m.part), m.part.page / 2;
    StoreGeometry(m.part);
    hide PageHalf, StoreHalf, Sound, LoaderFits, Wf;
    e := EraseOne(m, m.part.StoreStart(), lo);
    if e.None? {
      ghost var d := m.View();
      e := EraseOne(m, m.part.StoreStart() + m.part.page, lo + half);
      TwoPages(c, d, m.View(), lo, half);
    }
  }

  /** The error names the word of a halfword that did not read erased. */
  ghost predicate Names(flash: seq<Half>, lo: nat, e: FlashError) {
    e.NotErased? && exists i :: lo <= i < |flash| && flash[i] != ERASED && e.addr == FLASH_BASE + i / 2 * 4
  }

  /** One piece read back, from halfword `at`. */
  method ReadPiece(m: Gd32, at: nat) returns (e: Option<FlashError>)
    requires m.Valid() && m.loader.Off? && at % 2 == 0 && at + READ_CHUNK <= |m.flash|
    modifies m
    ensures m.Valid() && m.View() == old(m.View()) && m.keyStage == old(m.keyStage) && m.rushed == old(m.rushed)
    ensures e.None? <==> forall i :: at <= i < at + READ_CHUNK ==> m.flash[i] == ERASED
    ensures e.Some? ==> Names(m.flash, at, e.value)
  {
    hide Wf;
    var w := ReadWords(m, at, 256);
    ghost var flash := m.flash;
    assert w == flash[at..at + READ_CHUNK];
    var k := FirstWritten(w, 0);
    if k.Some? {
      assert w[k.value] == flash[at + k.value];
      WordOf(at, k.value);
      return Some(NotErased(FLASH_BASE + 2 * at + k.value / 2 * 4));
    }
    PieceErased(flash, at, at + READ_CHUNK);
    e := None;
  }

  /** Both pages read back a piece at a time, every word erased. */
  method ReadBack(m: Gd32) returns (e: Option<FlashError>)
    requires m.Valid() && m.loader.Off? && 0 <= StoreHalf(m.part)
    modifies m
    ensures m.Valid() && m.View() == old(m.View()) && m.keyStage == old(m.keyStage) && m.rushed == old(m.rushed)
    ensures e.None? <==> forall i :: StoreHalf(m.part) <= i < |m.flash| ==> m.flash[i] == ERASED
    ensures e.Some? ==> Names(m.flash, StoreHalf(m.part), e.value)
  {
    var at, left := StoreHalf(m.part), m.part.page / 512;
    StorePieces(m.View(), left);
    hide StoreHalf, Wf, Names;
    while left > 0
      invariant at + READ_CHUNK * left == |m.flash| && at % 2 == 0 && 0 <= StoreHalf(m.part) <= at <= |m.flash|
      invariant m.Valid() && m.View() == old(m.View()) && m.keyStage == old(m.keyStage) && m.rushed == old(m.rushed)
      invariant forall i :: StoreHalf(m.part) <= i < at ==> m.flash[i] == ERASED
    {
      e := ReadPiece(m, at);
      if e.Some? {
        NamesFrom(m.flash, StoreHalf(m.part), at, e.value);
        return;
      }
      at, left := at + READ_CHUNK, left - 1;
    }
    e := None;
  }

  lemma StorePieces(c: Chip, left: nat)
    requires Wf(c) && left == c.part.page / 512
    ensures StoreHalf(c.part) % 2 == 0 && StoreHalf(c.part) + 512 * left == |c.flash|
  {
    StoreGeometry(c.part);
    hide StoreHalf, LoaderFits;
  }

  lemma NamesFrom(flash: seq<Half>, lo: nat, at: nat, e: FlashError)
    requires lo <= at && Names(flash, at, e)
    ensures Names(flash, lo, e)
  {
  }

  lemma WordOf(at: nat, k: nat)
    requires at % 2 == 0
    ensures (at + k) / 2 * 4 == 2 * at + k / 2 * 4
  {
    var h := at / 2;
    assert at == 2 * h && (2 * h + k) / 2 == h + k / 2;
  }

  lemma PieceErased(flash: seq<Half>, from: nat, to: nat)
    requires from <= to <= |flash| && forall i :: 0 <= i < to - from ==> flash[from..to][i] == ERASED
    ensures forall i :: from <= i < to ==> flash[i] == ERASED
  {
    forall i | from <= i < to
      ensures flash[i] == ERASED
    {
      assert flash[from..to][i - from] == flash[i];
    }
  }

  /** The operation: refused on a protected part, having changed nothing; otherwise the store is erased, every cell of the
      image's pages is as it was, and the core runs from its reset vector. */
  method EraseStore(m: Gd32) returns (e: Option<FlashError>)
    requires m.Valid() && m.loader.Off? && m.keyStage == 0
    modifies m
    ensures m.Valid() && m.keyStage == 0 && m.rushed == old(m.rushed)
    ensures e == if m.protected then Some(Protected) else None
    ensures if e.Some? then m.View() == old(m.View()) else StoreErased(old(m.View()), m.View()) && m.locked && !m.halted && m.loader.Off?
  {
    var on := m.ReadProtection();
    if on {
      return Some(Protected);
    }
    ghost var c := m.View();
    m.ResetHalt();
    var ok := Unlock(m);
    ghost var d := m.View();
    hide StoreHalf, Fill, Wf;
    e := ErasePages(m);
    assert StoreErased(c, m.View());
    m.WriteCtl(CTL_LK);
    if e.None? {
      e := ReadBack(m);
    }
    if e.None? {
      m.Restart();
    }
  }
}
