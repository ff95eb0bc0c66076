/** The board as the bridge meets it over the bus: every access answers, then the core runs for a while. */
module Boards {
  import opened Bytes
  import opened Parts
  import opened Chips
  import opened Loaders

  datatype Key = Key1 | Key2

  /** `k` turns of the loader as a schedule. */
  function Turns(k: nat): (s: seq<Actor>)
    ensures |s| == k && forall a :: a in s ==> a == Board
  {
    seq(k, _ => Board)
  }

  lemma {:induction false} OffStays(c: Chip, k: nat)
    requires Wf(c) && c.loader.Off?
    ensures LoaderRun(c, k) == c
  {
    if k > 0 {
      OffStays(c, k - 1);
    }
  }

  class Gd32 {
    const part: Part
    var flash: seq<Half>
    var closed: seq<bool>
    var ring: seq<Half>
    var wp: int
    var rp: int
    var codeOk: bool
    const protected: bool
    var locked: bool
    var keyStage: nat
    var ctl: Ctl
    var stat: Stat
    var addr: int
    var busy: nat
    var halted: bool
    var regs: Regs
    var loader: Loader
    var storeWrites: nat
    /** The bridge has written the controller while it was busy, other than to lock it. */
    ghost var rushed: bool

    ghost function View(): Chip
      reads this
    {
      Chip(part, flash, closed, ring, wp, rp, codeOk, protected, locked, ctl, stat, addr, busy, halted, regs, loader, storeWrites)
    }

    ghost predicate Valid()
      reads this
    {
      Wf(View()) && busy <= 2
    }

    constructor (c: Chip)
      requires Wf(c) && c.busy <= 2
      ensures Valid() && View() == c && keyStage == 0 && !rushed
    {
      part, flash, closed, ring, wp, rp := c.part, c.flash, c.closed, c.ring, c.wp, c.rp;
      codeOk, protected, locked, ctl, stat, addr := c.codeOk, c.protected, c.locked, c.ctl, c.stat, c.addr;
      busy, halted, regs, loader, storeWrites, keyStage := c.busy, c.halted, c.regs, c.loader, c.storeWrites, 0;
      rushed := false;
    }

    // ---- the flash controller ----

    method OpFinished()
      requires Valid()
      modifies this`busy, this`stat
      ensures Valid() && View() == OpDone(old(View()))
    {
      busy := 2;
      stat := stat.(endf := true);
    }

    /** The page holding the controller's address, erased. */
    method EraseHeldPage()
      requires Valid()
      modifies this`flash, this`closed, this`storeWrites
      ensures Valid() && View() == ErasePage(old(View()))
    {
      if FLASH_BASE <= addr < FLASH_BASE + part.FlashLen() {
        var lo := PageHalf(part, addr - FLASH_BASE);
        var hi := lo + part.page / 2;
        if lo >= StoreHalf(part) {
          storeWrites := storeWrites + 1;
        }
        flash := Fill(flash, lo, hi, ERASED);
        closed := Fill(closed, lo, hi, false);
      }
    }

    method WriteControl(v: Ctl)
      requires Valid()
      modifies this
      ensures Valid() && View() == CtlWrite(old(View()), v) && keyStage == old(keyStage) && rushed == old(rushed)
    {
      hide ErasePage, Fill;
      if locked {
        return;
      }
      if v.lk {
        locked, ctl := true, CTL_LK;
        return;
      }
      ctl := v;
      if v.start {
        if v.per {
          EraseHeldPage();
        }
        ctl := ctl.(start := false);
        OpFinished();
      }
    }

    method ProgramHalfword(a: int, val: Half)
      requires Valid() && 0 <= HalfIndex(a) < |flash|
      modifies this
      ensures Valid() && View() == ProgramHalf(old(View()), a, val) && keyStage == old(keyStage) && rushed == old(rushed)
    {
      if !locked && ctl.pg && !protected {
        ProgramOpen(a, val);
        return;
      }
      hide Wf;
      stat := if locked || !ctl.pg then stat.(pgerr := true) else stat.(wperr := true);
    }

    /** With the controller open for programming. */
    method ProgramOpen(a: int, val: Half)
      requires Valid() && 0 <= HalfIndex(a) < |flash| && !locked && ctl.pg && !protected
      modifies this`flash, this`closed, this`stat, this`busy, this`storeWrites
      ensures Valid() && View() == ProgramHalf(old(View()), a, val)
    {
      hide ClosesBelow, StoreHalf, Sound, And, LoaderFits;
      assert |flash| == |closed|;
      hide Wf;
      var i := HalfIndex(a);
      storeWrites := storeWrites + if i >= StoreHalf(part) then 1 else 0;
      busy := 2;
      if (flash[i] != ERASED || closed[i]) && val != 0 {
        stat := stat.(pgerr := true, endf := true);
        return;
      }
      stat, flash := stat.(endf := true), flash[i := And(flash[i], val)];
      if ClosesBelow(part, a) && 0 < i {
        closed := closed[i - 1 := true];
      }
    }

    // ---- the core ----

    /** The core runs for `pace` halfwords of the loader, whatever `pace` is, or until it can go no further. */
    method RunLoader() returns (ghost k: nat)
      requires Valid()
      modifies this
      ensures Valid() && View() == LoaderRun(old(View()), k) && keyStage == old(keyStage) && rushed == old(rushed)
      ensures old(loader.Off?) ==> k == 0 && View() == old(View())
      ensures k >= 1 || LoaderStep(View()) == View()
    {
      hide LoaderTake, LoaderStop;
      var pace: nat :| pace >= 1;
      k := 0;
      while loader.On? && loader.count != 0 && wp != 0 && wp != loader.rp && pace > 0
        invariant Valid() && View() == LoaderRun(old(View()), k) && keyStage == old(keyStage) && rushed == old(rushed)
        invariant old(loader.Off?) ==> k == 0 && View() == old(View())
        invariant k >= 1 || pace >= 1
        decreases pace
      {
        pace := pace - 1;
        Take();
        k := k + 1;
      }
      if loader.On? && (loader.count == 0 || wp == 0) {
        Stop();
        k := k + 1;
      }
    }

    /** The loader takes one halfword from the ring: programs it, or skips an erased one, or stops on an error. */
    method Take()
      requires Valid() && loader.On? && loader.count != 0
      modifies this
      ensures Valid() && View() == LoaderTake(old(View())) && keyStage == old(keyStage) && rushed == old(rushed)
    {
      hide ProgramHalf, CtlWrite;
      var l := loader;
      var hw := ring[(l.rp - RING_START) / 2];
      if hw != ERASED {
        ProgramHalfword(l.addr, hw);
        busy := 0;
        if stat.Failed() {
          rp := 0;
          Stop();
          return;
        }
      }
      rp := if l.rp + 2 >= l.ringEnd then l.ringStart else l.rp + 2;
      loader := On(l.ringStart, l.ringEnd, l.addr + 2, l.count - 1, rp);
    }

    method Stop()
      requires Valid() && loader.On?
      modifies this
      ensures Valid() && View() == LoaderStop(old(View())) && keyStage == old(keyStage) && rushed == old(rushed)
    {
      WriteControl(CTL_NONE);
      regs := regs.(stat := stat, r2 := loader.addr);
      loader, halted := Off, true;
    }

    // ---- bus accesses ----

    method ReadRp() returns (v: int, ghost k: nat)
      requires Valid()
      modifies this
      ensures v == old(rp) && Valid() && View() == LoaderRun(old(View()), k) && keyStage == old(keyStage) && rushed == old(rushed)
      ensures k >= 1 || LoaderStep(View()) == View()
    {
      v := rp;
      k := RunLoader();
    }

    method WriteWp(v: int) returns (ghost k: nat)
      requires Valid()
      modifies this
      ensures Valid() && View() == LoaderRun(old(View()).(wp := v), k) && keyStage == old(keyStage) && rushed == old(rushed)
      ensures k >= 1 || LoaderStep(View()) == View()
      ensures old(loader.Off?) ==> View() == old(View()).(wp := v)
    {
      wp := v;
      k := RunLoader();
    }

    method WriteRingWord(a: int, lo: Half, hi: Half) returns (ghost k: nat)
      requires Valid()
      modifies this
      ensures Valid() && View() == LoaderRun(WriteRing(old(View()), a, lo, hi), k) && keyStage == old(keyStage) && rushed == old(rushed)
      ensures k >= 1 || LoaderStep(View()) == View()
    {
      hide LoaderRun, LoaderStep, Sound, LoaderFits;
      if RING_START <= a && a + 4 <= RING_START + 2 * |ring| {
        var i := (a - RING_START) / 2;
        ring := ring[i := lo][i + 1 := hi];
      }
      k := RunLoader();
    }

    method ReadHalted() returns (h: bool, ghost k: nat)
      requires Valid()
      modifies this
      ensures h == old(halted) && Valid() && View() == LoaderRun(old(View()), k) && keyStage == old(keyStage) && rushed == old(rushed)
      ensures k >= 1 || LoaderStep(View()) == View()
      ensures old(loader.Off?) ==> View() == old(View())
    {
      h := halted;
      k := RunLoader();
    }

    /** A read of the status register: its bits, and whether `BUSY` is set. */
    method ReadStat() returns (st: Stat, b: bool)
      requires Valid() && loader.Off?
      modifies this
      ensures st == old(stat) && b == (old(busy) > 0)
      ensures Valid() && View() == old(View()).(busy := if old(busy) > 0 then old(busy) - 1 else 0) && keyStage == old(keyStage) && rushed == old(rushed)
    {
      st, b := stat, busy > 0;
      if b {
        busy := busy - 1;
      }
      ghost var k := RunLoader();
    }

    method ClearStatus()
      requires Valid() && loader.Off?
      modifies this
      ensures Valid() && View() == old(View()).(stat := STAT_CLEAR) && keyStage == old(keyStage)
      ensures rushed == (old(rushed) || old(busy) > 0)
    {
      rushed := rushed || busy > 0;
      stat := STAT_CLEAR;
      ghost var k := RunLoader();
    }

    method WriteCtl(v: Ctl)
      requires Valid() && loader.Off?
      modifies this
      ensures Valid() && View() == CtlWrite(old(View()), v) && keyStage == old(keyStage) && loader.Off?
      ensures rushed == (old(rushed) || (old(busy) > 0 && !v.lk))
    {
      rushed := rushed || (busy > 0 && !v.lk);
      WriteControl(v);
      ghost var k := RunLoader();
    }

    method WriteAddr(v: int)
      requires Valid() && loader.Off?
      modifies this
      ensures Valid() && View() == old(View()).(addr := v) && keyStage == old(keyStage)
      ensures rushed == (old(rushed) || old(busy) > 0)
    {
      rushed := rushed || busy > 0;
      addr := v;
      ghost var k := RunLoader();
    }

    /** The unlock register: `Key1` then `Key2` unlocks, anything else locks. */
    method WriteKey(v: Key)
      requires Valid() && loader.Off?
      modifies this
      ensures Valid()
      ensures if old(keyStage) == 0 && v.Key1? then keyStage == 1 && View() == old(View())
              else if old(keyStage) == 1 && v.Key2? then keyStage == 0 && View() == old(View()).(locked := false, ctl := old(ctl).(lk := false))
              else keyStage == 0 && View() == old(View()).(locked := true)
      ensures rushed == old(rushed)
    {
      if keyStage == 0 && v.Key1? {
        keyStage := 1;
      } else if keyStage == 1 && v.Key2? {
        keyStage, locked, ctl := 0, false, ctl.(lk := false);
      } else {
        keyStage, locked := 0, true;
      }
      ghost var k := RunLoader();
    }

    method ReadLocked() returns (b: bool)
      requires Valid() && loader.Off?
      modifies this
      ensures b == old(locked) && Valid() && View() == old(View()) && keyStage == old(keyStage) && rushed == old(rushed)
    {
      b := locked;
      ghost var k := RunLoader();
    }

    /** The option bytes: whether the flash is protected. */
    method ReadProtection() returns (b: bool)
      requires Valid() && loader.Off?
      modifies this
      ensures b == protected && Valid() && View() == old(View()) && keyStage == old(keyStage) && rushed == old(rushed)
    {
      b := protected;
      ghost var k := RunLoader();
    }

    /** A word of main flash, as its two halfwords. */
    method ReadFlash(i: nat) returns (lo: Half, hi: Half)
      requires Valid() && loader.Off? && i + 1 < |flash|
      modifies this
      ensures lo == old(flash)[i] && hi == old(flash)[i + 1] && Valid() && View() == old(View()) && keyStage == old(keyStage) && rushed == old(rushed)
    {
      lo, hi := flash[i], flash[i + 1];
      ghost var k := RunLoader();
    }

    /** The loader's code written into SRAM. */
    method LoadCode()
      requires Valid() && loader.Off?
      modifies this
      ensures Valid() && View() == old(View()).(codeOk := true) && keyStage == old(keyStage) && rushed == old(rushed)
    {
      codeOk := true;
      ghost var k := RunLoader();
    }

    /** The writes that set up a run, all on a halted core. */
    method WriteRp(v: int)
      requires Valid() && loader.Off?
      modifies this
      ensures Valid() && View() == old(View()).(rp := v) && keyStage == old(keyStage) && rushed == old(rushed)
    {
      rp := v;
      ghost var k := RunLoader();
    }

    method WriteRegs(r: Regs)
      requires Valid() && loader.Off?
      modifies this
      ensures Valid() && View() == old(View()).(regs := r) && keyStage == old(keyStage) && rushed == old(rushed)
    {
      regs := r;
      ghost var k := RunLoader();
    }

    method ResumeCore() returns (ghost k: nat)
      requires Valid() && loader.Off? && ResumeFits(View())
      modifies this
      ensures Valid() && View() == LoaderRun(Resume(old(View())), k) && keyStage == old(keyStage) && rushed == old(rushed)
      ensures k >= 1 || LoaderStep(View()) == View()
    {
      halted := false;
      if regs.pc / 2 * 2 == LOADER_BASE && regs.thumb && codeOk {
        WriteControl(CTL_PG);
        loader := On(regs.r0, regs.r1, regs.r2, regs.r3, regs.r0);
      }
      k := RunLoader();
    }

    /** The reset caught at the reset vector. */
    method ResetHalt()
      requires Valid()
      modifies this
      ensures Valid() && View() == ResetHalted(old(View())) && keyStage == old(keyStage) && rushed == old(rushed)
    {
      locked, ctl, stat, busy := true, CTL_LK, STAT_CLEAR, 0;
      loader, halted := Off, true;
      ghost var k := RunLoader();
    }

    /** A reset and the core let go: it starts from the reset vector, so no loader runs. */
    method Restart()
      requires Valid()
      modifies this
      ensures Valid() && View() == Restarted(old(View())) && keyStage == old(keyStage) && rushed == old(rushed)
    {
      ResetHalt();
      halted := false;
      ghost var k := RunLoader();
    }
  }
}
