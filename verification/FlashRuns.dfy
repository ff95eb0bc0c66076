/** Whole flash jobs, over every schedule of the bridge and the loader. */
module FlashRuns {
  import opened Bytes
  import opened Parts
  import opened Chips
  import opened Loaders
  import opened LoaderProofs
  import opened LoaderRuns
  import opened Flash
  import opened FlashProofs

  /** The invariant, step by step of the job. */
  ghost predicate JobInv(g: Goal, s: System) {
    && g.Ok() && s.Wf() && s.chip.part == g.part && s.chip.storeWrites == g.writes && s.chip.protected == g.protected
    && StepInv(g, s.step, s.chip)
  }

  ghost predicate StepInv(g: Goal, step: Step, c: Chip)
    requires g.Ok() && Wf(c) && (step.Program? ==> step.run.Wf())
  {
    match step
    case Prepare => c.loader.Off? && (c.flash, c.closed) == (g.flash, g.closed)
    case Erase(i) => Accepted(g) && i < g.PageCount() && c.loader.Off? && !c.locked && (c.flash, c.closed) == ErasedAfter(g, i)
    case Load => Accepted(g) && c.loader.Off? && !c.locked && (c.flash, c.closed) == ErasedAfter(g, g.PageCount())
    case Program(k, run) => Accepted(g) && SegmentAt(g.part, |g.image|, k).Some? && c.codeOk && Inv(TaskAt(g, k), run, c)
    case Verify(off) => Accepted(g) && off < |g.image| && c.loader.Off? && IsFinal(g, c.flash)
    case Finished(Passed) => Accepted(g) && c.loader.Off? && c.halted && c.locked && IsFinal(g, c.flash)
    case Finished(Failed(e)) => e == Refusal(g) && !Accepted(g) && c.loader.Off? && c.locked && (c.flash, c.closed) == (g.flash, g.closed)
  }

  /** What the job refuses, before it touches the board. */
  predicate Accepted(g: Goal) {
    !g.protected && g.Fits()
  }

  function Refusal(g: Goal): FlashError {
    if g.protected then Protected else StoreRange
  }

  // ---- the steps ----

  lemma PrepareKeeps(g: Goal, s: System)
    requires JobInv(g, s) && s.step.Prepare?
    ensures JobInv(g, JobStep(s, g.image))
  {
    if Accepted(g) {
      PagesFit(g);
    }
  }

  /** What the register sequence of a page erase leaves. */
  ghost predicate ErasedPage(c: Chip, d: Chip, lo: int, n: int) {
    && 0 <= lo && 0 <= n && lo + n <= |c.flash| == |c.closed|
    && d.flash == Fill(c.flash, lo, lo + n, ERASED)
    && d.closed == Fill(c.closed, lo, lo + n, false)
    && !d.stat.Failed()
    && d == c.(flash := d.flash, closed := d.closed, ctl := CTL_NONE, stat := d.stat, addr := d.addr, busy := d.busy)
  }

  lemma EraseStarts(c: Chip, lo: int)
    requires Wf(c) && !c.locked && FLASH_BASE <= c.addr && lo == PageHalf(c.part, c.addr - FLASH_BASE) < StoreHalf(c.part)
    ensures lo + c.part.page / 2 <= |c.flash|
    ensures CtlWrite(c, CTL_PER.(start := true)) ==
            c.(ctl := CTL_PER, flash := Fill(c.flash, lo, lo + c.part.page / 2, ERASED),
               closed := Fill(c.closed, lo, lo + c.part.page / 2, false), busy := 2, stat := c.stat.(endf := true))
  {
    hide Fill;
  }

  lemma ErasePageIs(c: Chip, addr: int)
    requires Wf(c) && !c.locked && FLASH_BASE <= addr && PageHalf(c.part, addr - FLASH_BASE) < StoreHalf(c.part)
    ensures ErasedPage(c, ErasePageAt(c, addr), PageHalf(c.part, addr - FLASH_BASE), c.part.page / 2)
  {
    var ready := ClearStat(WaitIdle(c)).(ctl := CTL_PER, addr := addr);
    EraseStarts(ready, PageHalf(c.part, addr - FLASH_BASE));
    hide PageHalf, ErasePage, StoreHalf, LoaderFits, Fill;
  }

  lemma PageOfErase(g: Goal, i: nat)
    requires g.Ok() && g.Fits() && i < g.PageCount()
    ensures var addr, n := PageAddress(g.part, |g.image|, i), PageNumber(g.part, |g.image|, i);
            && FLASH_BASE <= addr < g.part.StoreStart()
            && PageHalf(g.part, addr - FLASH_BASE) == g.Span(n) < StoreHalf(g.part)
            && g.Span(1) == g.part.page / 2
  {
  }

  lemma EraseStepIs(g: Goal, c: Chip, i: nat)
    requires g.Ok() && g.Fits() && Wf(c) && c.part == g.part && !c.locked && i < g.PageCount()
    ensures EraseStep(c, i, g.image).step == if i + 1 == g.PageCount() then Load else Erase(i + 1)
    ensures var n := PageNumber(g.part, |g.image|, i); ErasedPage(c, EraseStep(c, i, g.image).chip, g.Span(n), g.Span(1))
  {
    var addr := PageAddress(g.part, |g.image|, i);
    PageOfErase(g, i);
    ErasePageIs(c, addr);
    hide Goal.Ok, Goal.Fits, ErasePageAt, PageAddress, PageHalf, Pages, Goal.Span, Part.StoreStart, Fill;
  }

  lemma EraseKeeps(g: Goal, s: System)
    requires JobInv(g, s) && s.step.Erase?
    ensures JobInv(g, JobStep(s, g.image))
  {
    EraseStepIs(g, s.chip, s.step.i);
    hide Goal.Ok, Goal.Fits, EraseStep, Pages, Goal.Span, PageNumber, Fill;
  }

  lemma StartFits(g: Goal, c: Chip, k: nat)
    requires g.Ok() && Accepted(g) && Wf(c) && c.part == g.part && c.storeWrites == g.writes && !c.protected
    requires SegmentAt(g.part, |g.image|, k).Some? && c.loader.Off? && !c.locked && c.codeOk
    requires (c.flash, c.closed) == (TaskAt(g, k).flash, TaskAt(g, k).closed)
    ensures var d, t := ClearStat(WaitIdle(c)), TaskAt(g, k);
            && Startable(t, d) && LaunchFits(d, t.addr, |t.data|) && Launch(d, t.addr, |t.data|).codeOk
            && StartSegment(c, k, g.image) == System(Program(k, Begin(g.part, t.addr, |t.data|)), Launch(d, t.addr, |t.data|))
  {
    PagesFit(g);
    TaskFits(g, k);
    hide ErasedAfter, After, Pages;
  }

  lemma StartKeeps(g: Goal, c: Chip, k: nat)
    requires g.Ok() && Accepted(g) && Wf(c) && c.part == g.part && c.storeWrites == g.writes && !c.protected
    requires SegmentAt(g.part, |g.image|, k).Some? && c.loader.Off? && !c.locked && c.codeOk
    requires (c.flash, c.closed) == (TaskAt(g, k).flash, TaskAt(g, k).closed)
    ensures JobInv(g, StartSegment(c, k, g.image))
    ensures var n := StartSegment(c, k, g.image);
            n.step.Program? && n.step.seg == k && n.step.run.phase.Feed? && n.step.run.pc.Idle?
  {
    StartFits(g, c, k);
    var t, d := TaskAt(g, k), ClearStat(WaitIdle(c));
    BeginHolds(t, d);
    assert Inv(t, Begin(t.part, t.addr, |t.data|), Launch(d, t.addr, |t.data|));
    assert BoardOk(t, Launch(d, t.addr, |t.data|));
    hide Inv, Startable, Goal.Fits, Launch, StartSegment, TaskAt;
  }

  lemma LoadKeeps(g: Goal, s: System)
    requires JobInv(g, s) && s.step.Load?
    ensures JobInv(g, JobStep(s, g.image))
  {
    PagesFit(g);
    StartKeeps(g, s.chip.(codeOk := true), 0);
  }

  /** The bridge writes only the ring and `wp`. */
  lemma HostFrame(r: Run, c: Chip, data: seq<Byte>)
    requires r.Wf() && Wf(c)
    ensures var d := HostStep(r, c, data).1; d == c.(ring := d.ring, wp := d.wp)
  {
    hide Run.Room, Run.Words, Run.Next, Run.Advance, Run.Used, ChunkHalf, Wf, Run.Wf;
  }

  lemma CtlFrame(c: Chip, v: Ctl)
    requires Wf(c)
    ensures CtlWrite(c, v).codeOk == c.codeOk && CtlWrite(c, v).protected == c.protected && CtlWrite(c, v).part == c.part
  {
  }

  lemma TakeFrame(c: Chip)
    requires Wf(c) && c.loader.On? && c.loader.count > 0
    ensures LoaderTake(c).codeOk == c.codeOk && LoaderTake(c).protected == c.protected && LoaderTake(c).part == c.part
  {
    hide ProgramHalf, CtlWrite;
    CtlFrame(c, CTL_NONE);
    if RingAt(c, c.loader.rp) != ERASED {
      CtlFrame(ProgramHalf(c, c.loader.addr, RingAt(c, c.loader.rp)).(busy := 0, rp := 0), CTL_NONE);
    }
  }

  /** The loader never touches its own code, nor the protection. */
  lemma LoaderFrame(c: Chip)
    requires Wf(c)
    ensures LoaderStep(c).codeOk == c.codeOk && LoaderStep(c).protected == c.protected && LoaderStep(c).part == c.part
  {
    hide LoaderTake, CtlWrite;
    CtlFrame(c, CTL_NONE);
    if c.loader.On? && c.loader.count > 0 {
      TakeFrame(c);
    }
  }

  /** A finished run never answers an error and always reaches its end. */
  lemma RunPasses(g: Goal, k: nat, run: Run, c: Chip)
    requires g.Ok() && Accepted(g) && SegmentAt(g.part, |g.image|, k).Some? && Inv(TaskAt(g, k), run, c) && run.phase.Done?
    ensures !run.phase.outcome.stat.Failed() && run.phase.outcome.addr == run.End()
    ensures TaskAt(g, k).Ok()
    ensures var t := TaskAt(g, k); (c.flash, c.closed) == After(t.part, t.flash, t.closed, t.Base(), t.data, t.Count())
    ensures c.loader.Off? && !c.locked && c.part == g.part && Wf(c)
  {
    TasksClean(g, k);
    RunOutcome(TaskAt(g, k), run, c);
  }

  lemma SecondTask(g: Goal)
    requires g.Ok() && g.Fits() && g.PageCount() > 1
    ensures TaskAt(g, 0).Ok()
    ensures var t := TaskAt(g, 0); SecondStart(g) == After(t.part, t.flash, t.closed, t.Base(), t.data, t.Count())
  {
    PagesFit(g);
    TaskFits(g, 0);
    assert g.image[g.part.page..g.part.page + (|g.image| - g.part.page)] == g.image[g.part.page..];
    hide After;
  }

  lemma NextSegment(g: Goal, s: System)
    requires JobInv(g, s) && s.step.Program? && s.step.run.phase.Done? && SegmentAt(g.part, |g.image|, s.step.seg + 1).Some?
    ensures JobInv(g, JobStep(s, g.image))
    ensures JobStep(s, g.image) == StartSegment(s.chip, s.step.seg + 1, g.image)
  {
    RunPasses(g, s.step.seg, s.step.run, s.chip);
    assert g.PageCount() > 1 && s.step.seg == 0;
    SecondTask(g);
    hide Inv, After, Goal.Fits, Goal.Ok, Pages;
    StartKeeps(g, s.chip, s.step.seg + 1);
    hide StartSegment;
  }

  lemma LastSegment(g: Goal, s: System)
    requires JobInv(g, s) && s.step.Program? && s.step.run.phase.Done? && SegmentAt(g.part, |g.image|, s.step.seg + 1).None?
    ensures JobInv(g, JobStep(s, g.image)) && JobStep(s, g.image).step == Verify(0)
  {
    RunPasses(g, s.step.seg, s.step.run, s.chip);
    LastRunFinal(g, s.step.seg);
    hide Inv, After;
  }

  lemma ProgramKeeps(g: Goal, s: System)
    requires JobInv(g, s) && s.step.Program? && !s.step.run.phase.Done?
    ensures JobInv(g, JobStep(s, g.image))
  {
    HostKeeps(TaskAt(g, s.step.seg), s.step.run, s.chip);
    HostFrame(s.step.run, s.chip, TaskAt(g, s.step.seg).data);
    AccessIs(g, s);
    hide HostStep, Inv, JobStep, TaskAt, SegmentAt;
  }

  lemma VerifyPasses(g: Goal, flash: seq<Half>, o: nat)
    requires g.Ok() && g.Fits() && IsFinal(g, flash) && o < |g.image|
    ensures o / 2 < |flash| && g.image[o] == FlashByte(flash, o)
  {
    PagesFit(g);
    assert o / 2 < |flash| && flash[o / 2] == FinalHalf(g, o / 2) == HalfAt(g.image, o / 2);
    hide Goal.Ok, Goal.Fits, Goal.Span, Pages, FinalHalf, IsFinal, HalfAt;
    HalfBytes(g.image, o);
  }

  lemma HalfBytes(image: seq<Byte>, o: nat)
    requires o < |image|
    ensures image[o] == if o % 2 == 0 then LowByte(HalfAt(image, o / 2)) else HighByte(HalfAt(image, o / 2))
  {
    assert o == 2 * (o / 2) + o % 2;
  }

  lemma VerifyKeeps(g: Goal, s: System)
    requires JobInv(g, s) && s.step.Verify?
    ensures JobInv(g, JobStep(s, g.image)) && (JobStep(s, g.image).step.Verify? || JobStep(s, g.image).step == Finished(Passed))
  {
    PagesFit(g);
    forall o | 0 <= o < |g.image|
      ensures o / 2 < |s.chip.flash| && g.image[o] == FlashByte(s.chip.flash, o)
    {
      VerifyPasses(g, s.chip.flash, o);
    }
  }

  lemma JobKeeps(g: Goal, s: System)
    requires JobInv(g, s)
    ensures JobInv(g, JobStep(s, g.image))
  {
    match s.step
    case Prepare => PrepareKeeps(g, s);
    case Erase(_) => EraseKeeps(g, s);
    case Load => LoadKeeps(g, s);
    case Program(k, run) =>
      if !run.phase.Done? {
        ProgramKeeps(g, s);
      } else if SegmentAt(g.part, |g.image|, k + 1).Some? {
        NextSegment(g, s);
      } else {
        LastSegment(g, s);
      }
    case Verify(_) => VerifyKeeps(g, s);
    case Finished(_) =>
  }

  lemma BoardKeeps(g: Goal, s: System)
    requires JobInv(g, s)
    ensures JobInv(g, s.(chip := LoaderStep(s.chip)))
  {
    if s.step.Program? {
      LoaderKeeps(TaskAt(g, s.step.seg), s.step.run, s.chip);
      LoaderFrame(s.chip);
      hide Inv, LoaderStep;
    } else {
      assert s.chip.loader.Off?;
    }
  }

  lemma SystemStepKeeps(g: Goal, s: System, a: Actor)
    requires JobInv(g, s)
    ensures JobInv(g, SystemStep(s, a, g.image))
  {
    if a.Bridge? {
      JobKeeps(g, s);
    } else {
      BoardKeeps(g, s);
    }
  }

  /** The invariant after any schedule whatever, so wherever a flash may be cut short. */
  lemma {:induction false} SystemKeeps(g: Goal, s: System, sch: seq<Actor>)
    requires JobInv(g, s)
    ensures JobInv(g, SystemAll(s, sch, g.image))
  {
    if sch != [] {
      SystemKeeps(g, s, sch[..|sch| - 1]);
      SystemStepKeeps(g, SystemAll(s, sch[..|sch| - 1], g.image), sch[|sch| - 1]);
    }
  }

  // ---- progress ----

  /** More than a run of the image can take. */
  function RunBound(g: Goal): nat {
    302 * |g.image| + 272
  }

  /** What is left of a job. */
  ghost function JobLeft(g: Goal, s: System): nat
    requires JobInv(g, s)
  {
    var n := |g.image|;
    match s.step
    case Finished(_) => 0
    case Verify(off) => 1 + n - off
    case Program(k, run) =>
      n + 2 + Left(TaskAt(g, k), (run, s.chip)) + (if SegmentAt(g.part, n, k + 1).Some? then RunBound(g) + 1 else 0)
    case Load => n + 3 + 2 * RunBound(g) + 1
    case Erase(i) => n + 4 + 2 * RunBound(g) + g.PageCount() - i
    case Prepare => n + 5 + 2 * RunBound(g) + g.PageCount()
  }

  /** The loader's turn: it cannot move, or the job has less left. */
  lemma BoardProgress(g: Goal, s: System)
    requires JobInv(g, s) && LoaderStep(s.chip) != s.chip
    ensures var n := s.(chip := LoaderStep(s.chip)); JobInv(g, n) && JobLeft(g, n) < JobLeft(g, s)
  {
    BoardKeeps(g, s);
    assert s.step.Program?;
    LoaderProgress(TaskAt(g, s.step.seg), (s.step.run, s.chip));
    hide Inv, LoaderStep, Left;
  }

  lemma AccessIs(g: Goal, s: System)
    requires JobInv(g, s) && s.step.Program? && !s.step.run.phase.Done?
    ensures var h := HostStep(s.step.run, s.chip, TaskAt(g, s.step.seg).data);
            JobStep(s, g.image) == System(Program(s.step.seg, h.0), h.1)
  {
    hide Inv, HostStep;
  }

  lemma RunAccessProgress(g: Goal, s: System)
    requires JobInv(g, s) && s.step.Program? && !s.step.run.phase.Done? && JobStep(s, g.image) != s
    ensures var n := JobStep(s, g.image); JobInv(g, n) && JobLeft(g, n) < JobLeft(g, s)
  {
    ProgramKeeps(g, s);
    AccessIs(g, s);
    HostProgress(TaskAt(g, s.step.seg), (s.step.run, s.chip));
    hide Inv, HostStep, Left, JobStep, TaskAt, Goal.Ok, Goal.Fits, SegmentAt;
  }

  lemma StartLeft(g: Goal, k: nat, run: Run, c: Chip)
    requires g.Ok() && g.Fits() && SegmentAt(g.part, |g.image|, k).Some?
    requires Inv(TaskAt(g, k), run, c) && run.phase.Feed? && run.pc.Idle?
    ensures Left(TaskAt(g, k), (run, c)) < RunBound(g)
  {
    LeftAtStart(TaskAt(g, k), (run, c));
  }

  lemma NextSegmentProgress(g: Goal, s: System)
    requires JobInv(g, s) && s.step.Program? && s.step.run.phase.Done? && SegmentAt(g.part, |g.image|, s.step.seg + 1).Some?
    ensures var n := JobStep(s, g.image); JobInv(g, n) && JobLeft(g, n) < JobLeft(g, s)
  {
    NextSegment(g, s);
    NextStarts(g, s);
    var n := JobStep(s, g.image);
    StartLeft(g, n.step.seg, n.step.run, n.chip);
    hide Inv, Left, JobStep, TaskAt;
  }

  lemma NextStarts(g: Goal, s: System)
    requires JobInv(g, s) && s.step.Program? && s.step.run.phase.Done? && SegmentAt(g.part, |g.image|, s.step.seg + 1).Some?
    ensures var n := JobStep(s, g.image);
            n.step.Program? && n.step.seg == s.step.seg + 1 && n.step.run.phase.Feed? && n.step.run.pc.Idle?
  {
    RunPasses(g, s.step.seg, s.step.run, s.chip);
    PagesFit(g);
    hide Inv;
  }

  lemma JobProgress(g: Goal, s: System)
    requires JobInv(g, s) && JobStep(s, g.image) != s
    ensures var n := JobStep(s, g.image); JobInv(g, n) && JobLeft(g, n) < JobLeft(g, s)
  {
    match s.step
    case Prepare =>
      PrepareKeeps(g, s);
    case Erase(_) =>
      EraseProgress(g, s);
    case Load =>
      LoadProgress(g, s);
    case Program(k, run) =>
      if !run.phase.Done? {
        RunAccessProgress(g, s);
      } else if SegmentAt(g.part, |g.image|, k + 1).Some? {
        NextSegmentProgress(g, s);
      } else {
        LastSegment(g, s);
        hide Inv, JobStep, Left;
      }
    case Verify(_) =>
      VerifyKeeps(g, s);
      hide IsFinal, FirstDifference;
    case Finished(_) =>
  }

  lemma EraseProgress(g: Goal, s: System)
    requires JobInv(g, s) && s.step.Erase?
    ensures var n := JobStep(s, g.image); JobInv(g, n) && JobLeft(g, n) < JobLeft(g, s)
  {
    EraseKeeps(g, s);
    var n := JobStep(s, g.image);
    assert n.step.Finished? || n.step == Load || n.step == Erase(s.step.i + 1);
    hide JobStep, ErasedAfter;
  }

  lemma LoadProgress(g: Goal, s: System)
    requires JobInv(g, s) && s.step.Load?
    ensures var n := JobStep(s, g.image); JobInv(g, n) && JobLeft(g, n) < JobLeft(g, s)
  {
    LoadKeeps(g, s);
    PagesFit(g);
    StartKeeps(g, s.chip.(codeOk := true), 0);
    var n := JobStep(s, g.image);
    StartLeft(g, 0, n.step.run, n.chip);
    hide Inv, JobStep, Left, TaskAt, ErasedAfter;
  }

  /** No deadlock: in every state short of the job's end the job or the loader can move. */
  lemma JobNeverStuck(g: Goal, s: System)
    requires JobInv(g, s)
    ensures s.step.Finished? || JobStep(s, g.image) != s || LoaderStep(s.chip) != s.chip
  {
    match s.step
    case Program(k, run) =>
      if run.phase.Done? {
        if SegmentAt(g.part, |g.image|, k + 1).Some? {
          NextStarts(g, s);
        } else {
          LastSegment(g, s);
        }
      } else {
        NeverStuck(TaskAt(g, k), (run, s.chip));
        AccessIs(g, s);
        hide Inv, HostStep, LoaderStep, JobStep, TaskAt, SegmentAt;
      }
    case Erase(_) => EraseProgress(g, s);
    case Load => LoadProgress(g, s);
    case Verify(_) => JobStepVerify(g, s);
    case _ =>
  }

  lemma JobStepVerify(g: Goal, s: System)
    requires JobInv(g, s) && s.step.Verify?
    ensures JobStep(s, g.image) != s
  {
    VerifyKeeps(g, s);
    hide IsFinal, FirstDifference;
  }

  lemma SystemProgress(g: Goal, s: System, a: Actor)
    requires JobInv(g, s)
    ensures var n := SystemStep(s, a, g.image); JobInv(g, n) && (n == s || JobLeft(g, n) < JobLeft(g, s))
  {
    SystemStepKeeps(g, s, a);
    if SystemStep(s, a, g.image) != s {
      if a.Bridge? {
        JobProgress(g, s);
      } else {
        BoardProgress(g, s);
      }
    }
  }

  ghost predicate Still(s: System, sch: seq<Actor>, image: seq<Byte>)
    requires s.Wf()
  {
    forall a :: a in sch ==> SystemStep(s, a, image) == s
  }

  /** A schedule makes progress, or moves nothing and shows that none of its actors can. */
  lemma {:induction false} ScheduleMoves(g: Goal, s: System, sch: seq<Actor>)
    requires JobInv(g, s)
    ensures var n := SystemAll(s, sch, g.image);
            JobInv(g, n) && (JobLeft(g, n) < JobLeft(g, s) || (n == s && Still(s, sch, g.image)))
  {
    hide StepInv, JobLeft, Still, SystemStep;
    if sch == [] {
      StillGrows(s, [], Bridge, g.image);
    } else {
      var front, last := sch[..|sch| - 1], sch[|sch| - 1];
      ScheduleMoves(g, s, front);
      SystemProgress(g, SystemAll(s, front, g.image), last);
      StillGrows(s, front, last, g.image);
      assert sch == front + [last];
    }
  }

  lemma StillGrows(s: System, front: seq<Actor>, last: Actor, image: seq<Byte>)
    requires s.Wf()
    ensures Still(s, front, image) && SystemStep(s, last, image) == s ==> Still(s, front + [last], image)
    ensures Still(s, [], image)
  {
    hide SystemStep;
  }

  lemma {:induction false} FinishedStays(g: Goal, s: System, sch: seq<Actor>)
    requires JobInv(g, s) && s.step.Finished?
    ensures SystemAll(s, sch, g.image) == s
  {
    if sch != [] {
      FinishedStays(g, s, sch[..|sch| - 1]);
    }
  }

  /** Whatever the pace of either side, a job given enough rounds in which both move is over. */
  lemma {:induction false} JobFinishes(g: Goal, s: System, rounds: seq<seq<Actor>>)
    requires JobInv(g, s) && (forall i :: 0 <= i < |rounds| ==> Fair(rounds[i]))
    requires JobLeft(g, s) < |rounds| || s.step.Finished?
    ensures var n := SystemRounds(s, rounds, g.image); JobInv(g, n) && n.step.Finished?
    decreases |rounds|
  {
    if rounds != [] {
      var n := SystemAll(s, rounds[0], g.image);
      ScheduleMoves(g, s, rounds[0]);
      assert Fair(rounds[0]);
      if s.step.Finished? {
        FinishedStays(g, s, rounds[0]);
      } else if n == s && Still(s, rounds[0], g.image) {
        assert SystemStep(s, Bridge, g.image) == s && SystemStep(s, Board, g.image) == s;
        JobNeverStuck(g, s);
      }
      JobFinishes(g, n, rounds[1..]);
    }
  }
}
