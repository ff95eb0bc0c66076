/** The job's checks on chips of any content, those no sound run would leave included: what the read-back finds, and what a
    finished loader run is taken for. */
module FlashChecks {
  import opened Bytes
  import opened Parts
  import opened Chips
  import opened Loaders
  import opened LoaderProofs
  import opened Flash
  import opened FlashProofs
  import opened FlashRuns
  import opened FlashTheorems

  // ---- the core ----

  /** The core is halted wherever the job itself works on the flash or reads it. */
  predicate CoreHeld(s: System) {
    s.step.Erase? || s.step.Load? || s.step.Verify? ==> s.chip.halted
  }

  lemma EraseHolds(c: Chip, addr: int)
    requires Wf(c)
    ensures ErasePageAt(c, addr).halted == c.halted && Lock(c).halted == c.halted
  {
    hide LoaderFits, Sound, PageHalf, Fill;
  }

  lemma HeldStep(g: Goal, s: System)
    requires JobInv(g, s) && CoreHeld(s)
    ensures CoreHeld(JobStep(s, g.image))
  {
    assert Wf(s.chip.(codeOk := true));
    hide ErasePageAt, Lock, Wf, HostStep, StartSegment, SegmentAt;
    match s.step
    case Erase(i) => EraseHolds(s.chip, PageAddress(s.chip.part, |g.image|, i));
    case Program(k, run) => HeldProgram(g, s);
    case Load => StartIsProgram(s.chip.(codeOk := true), 0, g.image);
    case _ =>
  }

  lemma HeldProgram(g: Goal, s: System)
    requires JobInv(g, s) && s.step.Program?
    ensures CoreHeld(JobStep(s, g.image))
  {
    var k, run := s.step.seg, s.step.run;
    if run.phase.Done? {
      DoneIsHalted(TaskAt(g, k), run, s.chip);
      EraseHolds(s.chip, 0);
      StartIsProgram(s.chip, k + 1, g.image);
    }
    hide JobInv, Lock, Wf, HostStep, StartSegment, SegmentAt;
  }

  lemma DoneIsHalted(t: Task, r: Run, c: Chip)
    requires Inv(t, r, c) && r.phase.Done?
    ensures c.halted
  {
  }

  lemma StartIsProgram(c: Chip, k: nat, image: seq<Byte>)
    requires Wf(c)
    ensures StartSegment(c, k, image).step.Program? || StartSegment(c, k, image).step.Finished?
  {
  }

  /** In every state any schedule reaches from a board handed over, whatever its core was doing, the core is halted while the
      job erases and while it reads back. */
  lemma {:induction false} HeldThroughout(c: Chip, image: seq<Byte>, sch: seq<Actor>)
    requires AtRest(c)
    ensures CoreHeld(SystemAll(System(Prepare, c), sch, image))
  {
    if sch != [] {
      var front := sch[..|sch| - 1];
      var g, s := GoalOf(c, image), SystemAll(System(Prepare, c), front, image);
      HeldThroughout(c, image, front);
      JobBegins(c, image);
      SystemKeeps(g, System(Prepare, c), front);
      hide SystemAll, JobStep;
      HeldStep(g, s);
      OffWhileHeld(g, s);
    }
  }

  lemma OffWhileHeld(g: Goal, s: System)
    requires JobInv(g, s) && CoreHeld(s)
    ensures CoreHeld(s.(chip := LoaderStep(s.chip)))
  {
  }

  // ---- the read-back ----

  /** Every byte of `image` below `end` reads back from flash at its own address. */
  predicate ReadsBack(image: seq<Byte>, flash: seq<Half>, end: nat)
    requires end <= |image| && (end + 1) / 2 <= |flash|
  {
    forall o :: 0 <= o < end ==> image[o] == if o % 2 == 0 then flash[o / 2] % 256 else flash[o / 2] / 256
  }

  /** Byte `o` is the first that does not. */
  predicate FirstWrong(image: seq<Byte>, flash: seq<Half>, o: int)
    requires (|image| + 1) / 2 <= |flash|
  {
    && 0 <= o < |image| && ReadsBack(image, flash, o)
    && image[o] != if o % 2 == 0 then flash[o / 2] % 256 else flash[o / 2] / 256
  }

  /** `n` pieces of the job with the core halted. */
  function Pieces(n: nat): (s: seq<Actor>)
    ensures |s| == n && forall i :: 0 <= i < n ==> s[i] == Bridge
  {
    seq(n, _ => Bridge)
  }

  /** The job's state `n` pieces into the read-back of a flash. */
  ghost predicate Verified(c: Chip, image: seq<Byte>, n: nat, s: System)
    requires (|image| + 1) / 2 <= |c.flash|
  {
    match s.step
    case Verify(off) => s.chip == c && off == 1024 * n < |image| && ReadsBack(image, c.flash, off)
    case Finished(Passed) => s.chip.flash == c.flash && s.chip.halted && s.chip.locked && |image| <= 1024 * n && ReadsBack(image, c.flash, |image|)
    case Finished(Failed(VerifyFailed(a))) =>
      s.chip.flash == c.flash && s.chip.locked && FirstWrong(image, c.flash, a - FLASH_BASE)
    case _ => false
  }

  lemma {:induction false} VerifyPieces(c: Chip, image: seq<Byte>, n: nat)
    requires Wf(c) && image != [] && (|image| + 1) / 2 <= |c.flash|
    ensures Verified(c, image, n, SystemAll(System(Verify(0), c), Pieces(n), image))
  {
    if n > 0 {
      VerifyPieces(c, image, n - 1);
      var s := SystemAll(System(Verify(0), c), Pieces(n - 1), image);
      assert Pieces(n)[..n - 1] == Pieces(n - 1);
      assert SystemAll(System(Verify(0), c), Pieces(n), image) == JobStep(s, image);
      hide SystemAll;
      VerifyPiece(c, image, n - 1, s);
    }
  }

  lemma VerifyPiece(c: Chip, image: seq<Byte>, n: nat, s: System)
    requires s.Wf() && Wf(c) && (|image| + 1) / 2 <= |c.flash| && Verified(c, image, n, s)
    ensures Verified(c, image, n + 1, JobStep(s, image))
  {
    hide Sound, LoaderFits, ReadsBack, FirstWrong, VerifyStep;
    if s.step.Verify? {
      ComparePiece(c, image, n);
    }
  }

  lemma ComparePiece(c: Chip, image: seq<Byte>, n: nat)
    requires Wf(c) && 1024 * n < |image| && (|image| + 1) / 2 <= |c.flash| && ReadsBack(image, c.flash, 1024 * n)
    ensures Verified(c, image, n + 1, VerifyStep(c, 1024 * n, image))
  {
    var off := 1024 * n;
    FirstDifferenceIs(image, c.flash, off, if |image| - off < 1024 then |image| else off + 1024);
    hide FirstDifference, ReadsBack, FirstWrong, Sound, LoaderFits;
  }

  lemma {:induction false} FirstDifferenceIs(image: seq<Byte>, flash: seq<Half>, off: nat, end: nat)
    requires off <= end <= |image| && (|image| + 1) / 2 <= |flash| && ReadsBack(image, flash, off)
    ensures var d := FirstDifference(image, flash, off, end);
            if d.None? then ReadsBack(image, flash, end)
            else off <= d.value < end && FirstWrong(image, flash, d.value)
    decreases end - off
  {
    if off < end && image[off] == FlashByte(flash, off) {
      FirstDifferenceIs(image, flash, off + 1, end);
    }
  }

  /** Whatever the flash holds, the read-back passes exactly when every byte of the image is there, and otherwise names the
      first that is not. */
  lemma VerifyIsExact(c: Chip, image: seq<Byte>)
    requires Wf(c) && image != [] && (|image| + 1) / 2 <= |c.flash|
    ensures var s := SystemAll(System(Verify(0), c), Pieces((|image| + 1023) / 1024), image);
            && s.chip.flash == c.flash && s.chip.locked
            && (s.step == Finished(Passed) <==> ReadsBack(image, c.flash, |image|))
            && forall o :: FirstWrong(image, c.flash, o) ==> s.step == Finished(Failed(VerifyFailed(FLASH_BASE + o)))
  {
    var n := (|image| + 1023) / 1024;
    VerifyPieces(c, image, n);
    assert |image| <= 1024 * n;
    hide SystemAll, Wf, Verified, ReadsBack, FirstWrong;
    VerifiedToTheEnd(c, image, n, SystemAll(System(Verify(0), c), Pieces(n), image));
  }

  lemma VerifiedToTheEnd(c: Chip, image: seq<Byte>, n: nat, s: System)
    requires (|image| + 1) / 2 <= |c.flash| && |image| <= 1024 * n && Verified(c, image, n, s)
    ensures s.chip.flash == c.flash && s.chip.locked && (s.step == Finished(Passed) <==> ReadsBack(image, c.flash, |image|))
    ensures forall o :: FirstWrong(image, c.flash, o) ==> s.step == Finished(Failed(VerifyFailed(FLASH_BASE + o)))
  {
    forall o | FirstWrong(image, c.flash, o)
      ensures s.step == Finished(Failed(VerifyFailed(FLASH_BASE + o)))
    {
      if s.step != Finished(Passed) {
        OnlyOneFirst(image, c.flash, o, s.step.verdict.error.addr - FLASH_BASE);
      }
    }
  }

  lemma OnlyOneFirst(image: seq<Byte>, flash: seq<Half>, a: int, b: int)
    requires (|image| + 1) / 2 <= |flash| && FirstWrong(image, flash, a) && FirstWrong(image, flash, b)
    ensures a == b
  {
  }

  /** What a finished run is taken for: an error bit is an error at the address the loader stopped at; stopped without one
      anywhere but at the end of its data it is an error of the loader's; and nothing else is one. */
  lemma RunIsJudged(c: Chip, k: nat, run: Run, image: seq<Byte>)
    requires Wf(c) && run.Wf() && run.phase.Done? && SegmentAt(c.part, |image|, k).Some?
    requires FLASH_BASE + |image| <= c.part.StoreStart()
    ensures var o, n := run.phase.outcome, JobStep(System(Program(k, run), c), image);
            if o.stat.pgerr || o.stat.wperr then n.step == Finished(Failed(ProgramFailed(o.addr)))
            else if o.addr != run.addr + 2 * ((run.len + 1) / 2) then n.step == Finished(Failed(LoaderStopped))
            else if SegmentAt(c.part, |image|, k + 1).Some? then n.step.Program? && n.step.seg == k + 1
            else n.step == Verify(0) && n.chip.locked
  {
  }
}
