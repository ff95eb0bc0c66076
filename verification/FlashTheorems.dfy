/** The promises of a flash: it cannot hurt what it does not cover, it can be cut short at any instant, and
    every fair run of it ends with the image in flash or with a refusal that touched nothing. */
module FlashTheorems {
  import opened Bytes
  import opened Parts
  import opened Chips
  import opened Loaders
  import opened LoaderProofs
  import opened LoaderRuns
  import opened Flash
  import opened FlashProofs
  import opened FlashRuns

  /** A job as it is handed a board with no loader running. */
  function GoalOf(c: Chip, image: seq<Byte>): Goal {
    Goal(c.part, image, c.flash, c.closed, c.storeWrites, c.protected)
  }

  predicate AtRest(c: Chip) {
    Wf(c) && IsRow(c.part) && c.loader.Off?
  }

  lemma JobBegins(c: Chip, image: seq<Byte>)
    requires AtRest(c)
    ensures JobInv(GoalOf(c, image), System(Prepare, c))
  {
    RowGeometry(c.part);
  }

  // ---- pages and segments ----

  /** A page is covered exactly when the image reaches its first byte, and that byte's address is the one it is erased at. */
  lemma PagesCovered(p: Part, len: nat, n: nat, o: nat)
    requires Sound(p) && PageOf(p, o) == n && (o == 0 || PageOf(p, o - 1) != n)
    ensures n < Pages(p, len) <==> o < len
    ensures forall i :: 0 <= i < Pages(p, len) && PageNumber(p, len, i) == n ==> PageAddress(p, len, i) == FLASH_BASE + o
  {
  }

  /** The erase order is a permutation of the covered pages, page 0 last. */
  lemma PageOrder(p: Part, len: nat, n: nat, i: nat)
    requires Sound(p) && n < Pages(p, len) && i < Pages(p, len)
    ensures PageNumber(p, len, i) < Pages(p, len)
    ensures PageNumber(p, len, i) == n <==> i == if n == 0 then Pages(p, len) - 1 else n - 1
  {
    hide Pages;
  }

  /** Every byte of the image is in exactly one segment, which programs it at its own address. */
  lemma SegmentsPartition(p: Part, len: nat, o: nat, k: nat)
    requires Sound(p) && o < len
    ensures var s := SegmentAt(p, len, k);
            s.Some? && s.value.off <= o < s.value.off + s.value.len <==> k == if Pages(p, len) > 1 && o < p.page then 1 else 0
    ensures SegmentAt(p, len, k).Some? ==> SegmentAt(p, len, k).value.addr == FLASH_BASE + SegmentAt(p, len, k).value.off
  {
  }

  // ---- one state ----

  /** A cell outside the pages the image covers is as the job found it. */
  lemma UncoveredCell(g: Goal, s: System, y: nat)
    requires JobInv(g, s) && y < |g.flash| && (g.Fits() ==> g.Span(g.PageCount()) <= y)
    ensures s.chip.flash[y] == g.flash[y]
  {
    if Accepted(g) {
      PagesFit(g);
    }
    match s.step
    case Erase(i) => ErasedCells(g, i, y);
    case Load => ErasedCells(g, g.PageCount(), y);
    case Program(k, run) =>
      RunCell(g, k, run, s.chip, y);
      if k == 0 {
        ErasedAll(g, y);
      } else {
        SecondAbove(g, y);
      }
      hide Inv, TaskAt;
    case _ =>
  }

  /** A cell while a run is under way: programmed if the run has passed it, and otherwise as the run found it. */
  lemma RunCell(g: Goal, k: nat, run: Run, c: Chip, y: nat)
    requires g.Ok() && g.Fits() && SegmentAt(g.part, |g.image|, k).Some? && Inv(TaskAt(g, k), run, c) && y < |g.flash|
    ensures var t := TaskAt(g, k);
            && t.Ok() && 0 <= Taken(t, c) <= t.Count() && |c.flash| == |t.flash| == |g.flash|
            && c.flash[y] == (if t.Base() <= y < t.Base() + Taken(t, c) then And(t.flash[y], HalfAt(t.data, y - t.Base())) else t.flash[y])
            && t.Base() == (if g.PageCount() > 1 && k == 0 then g.Span(1) else 0)
            && t.Base() + t.Count() <= g.Span(g.PageCount())
  {
    var t := TaskAt(g, k);
    TaskFits(g, k);
    PagesFit(g);
    assert BoardOk(t, c) && t.Base() + t.Count() <= g.Span(g.PageCount());
    assert |t.flash| == |g.flash| && (c.flash, c.closed) == After(t.part, t.flash, t.closed, t.Base(), t.data, Taken(t, c));
    hide Inv, BoardOk, Taken, Goal.Span, Pages, TaskAt, SegmentAt, And;
    AfterFlash(t.part, t.flash, t.closed, t.Base(), t.data, Taken(t, c), y);
    hide After, ErasedAfter, HalfAt;
  }

  /** Page 0 at any instant: its old content, erased, or being programmed when every later page already holds
      the image. */
  ghost predicate PageZeroSafe(g: Goal, flash: seq<Half>)
    requires g.Ok() && g.Fits() && |flash| == |g.flash|
  {
    PagesFit(g);
    var first := g.part.page / 2;
    || (forall y :: 0 <= y < first ==> flash[y] == g.flash[y])
    || (forall y :: 0 <= y < first ==> flash[y] == ERASED)
    || ((forall y :: 0 <= y < first ==> flash[y] == ERASED || flash[y] == FinalHalf(g, y))
        && forall y :: first <= y < |flash| ==> flash[y] == FinalHalf(g, y))
  }

  lemma ErasingSafe(g: Goal, i: nat, flash: seq<Half>)
    requires g.Ok() && g.Fits() && i <= g.PageCount() && flash == ErasedAfter(g, i).0
    ensures PageZeroSafe(g, flash)
  {
    PagesFit(g);
    forall y | 0 <= y < g.Span(1)
      ensures flash[y] == if i < g.PageCount() then g.flash[y] else ERASED
    {
      ErasedCells(g, i, y);
    }
  }

  /** The first of two runs leaves page 0 erased. */
  lemma FirstRunSafe(g: Goal, run: Run, c: Chip)
    requires g.Ok() && g.Fits() && g.PageCount() > 1 && Inv(TaskAt(g, 0), run, c)
    ensures |c.flash| == |g.flash| && PageZeroSafe(g, c.flash)
  {
    PagesFit(g);
    RunCell(g, 0, run, c, 0);
    forall y | 0 <= y < g.Span(1)
      ensures c.flash[y] == ERASED
    {
      RunCell(g, 0, run, c, y);
      ErasedAll(g, y);
    }
    hide Inv, TaskAt;
  }

  /** The last run programs page 0 over a finished rest. */
  lemma LastRunCell(g: Goal, k: nat, run: Run, c: Chip, y: nat)
    requires g.Ok() && g.Fits() && SegmentAt(g.part, |g.image|, k).Some? && SegmentAt(g.part, |g.image|, k + 1).None?
    requires Inv(TaskAt(g, k), run, c) && y < |g.flash|
    ensures |c.flash| == |g.flash|
    ensures c.flash[y] == FinalHalf(g, y) || (y < g.Span(1) && c.flash[y] == ERASED)
  {
    PagesFit(g);
    RunCell(g, k, run, c, y);
    var t := TaskAt(g, k);
    if k == 0 {
      ErasedAll(g, y);
    } else if y < g.Span(1) {
      SecondBelow(g, y);
    } else {
      SecondAbove(g, y);
    }
    if y < t.Count() {
      HeadHalves(g.image, |t.data|, y);
      AndErased(HalfAt(t.data, y));
    }
    hide Inv, HalfAt, ErasedAfter, After;
  }

  lemma LastRunSafe(g: Goal, k: nat, run: Run, c: Chip)
    requires g.Ok() && g.Fits() && SegmentAt(g.part, |g.image|, k).Some? && SegmentAt(g.part, |g.image|, k + 1).None?
    requires Inv(TaskAt(g, k), run, c)
    ensures |c.flash| == |g.flash| && PageZeroSafe(g, c.flash)
  {
    PagesFit(g);
    RunCell(g, k, run, c, 0);
    forall y | 0 <= y < |g.flash|
      ensures c.flash[y] == FinalHalf(g, y) || (y < g.Span(1) && c.flash[y] == ERASED)
    {
      LastRunCell(g, k, run, c, y);
    }
    hide Inv, TaskAt;
  }

  lemma StateSafe(g: Goal, s: System)
    requires JobInv(g, s) && Accepted(g)
    ensures |s.chip.flash| == |g.flash| && PageZeroSafe(g, s.chip.flash)
  {
    PagesFit(g);
    match s.step
    case Prepare => ErasingSafe(g, 0, s.chip.flash);
    case Erase(i) => ErasingSafe(g, i, s.chip.flash);
    case Load => ErasingSafe(g, g.PageCount(), s.chip.flash);
    case Program(k, run) =>
      if SegmentAt(g.part, |g.image|, k + 1).Some? {
        FirstRunSafe(g, run, s.chip);
      } else {
        LastRunSafe(g, k, run, s.chip);
      }
    case Verify(_) =>
    case Finished(_) =>
  }

  lemma PastLastPage(g: Goal, y: nat)
    requires g.Ok() && g.Fits() && PageOf(g.part, 2 * y) > PageOf(g.part, |g.image| - 1)
    ensures g.Span(g.PageCount()) <= y
  {
  }

  // ---- every run ----

  /** A flash cut short after any schedule of bus accesses and loader turns: the store has never been written, every
      uncovered page is untouched, page 0 is safe, and a refused job has changed nothing. */
  lemma CutShort(c: Chip, image: seq<Byte>, sch: seq<Actor>)
    requires AtRest(c)
    ensures var g, n := GoalOf(c, image), SystemAll(System(Prepare, c), sch, image);
            && g.Ok() && |n.chip.flash| == |c.flash| && n.chip.storeWrites == c.storeWrites
            && (!Accepted(g) ==> n.chip.flash == c.flash)
            && (Accepted(g) ==>
                  && PageZeroSafe(g, n.chip.flash)
                  && forall y :: 0 <= y < |c.flash| && PageOf(c.part, 2 * y) > PageOf(c.part, |image| - 1) ==> n.chip.flash[y] == c.flash[y])
  {
    var g, n := GoalOf(c, image), SystemAll(System(Prepare, c), sch, image);
    JobBegins(c, image);
    SystemKeeps(g, System(Prepare, c), sch);
    hide SystemAll;
    if Accepted(g) {
      StateSafe(g, n);
      hide PageZeroSafe;
      PastUntouched(g, n);
    }
  }

  lemma PastUntouched(g: Goal, s: System)
    requires JobInv(g, s) && Accepted(g)
    ensures |s.chip.flash| == |g.flash|
    ensures forall y :: 0 <= y < |g.flash| && PageOf(g.part, 2 * y) > PageOf(g.part, |g.image| - 1) ==> s.chip.flash[y] == g.flash[y]
  {
    forall y | 0 <= y < |g.flash| && PageOf(g.part, 2 * y) > PageOf(g.part, |g.image| - 1)
      ensures s.chip.flash[y] == g.flash[y]
    {
      PastLastPage(g, y);
      UncoveredCell(g, s, y);
    }
    hide StepInv;
  }

  /** Enough rounds for any job on an image. */
  function JobBound(image: seq<Byte>): nat {
    606 * |image| + 551
  }

  /** What a finished job says and leaves. */
  ghost predicate JobOutcome(c: Chip, image: seq<Byte>, n: System) {
    && n.chip.storeWrites == c.storeWrites && n.chip.locked
    && if c.protected then n.step == Finished(Failed(Protected)) && n.chip.flash == c.flash
       else if |image| == 0 || |image| > IMAGE_BUFFER || FLASH_BASE + |image| > c.part.StoreStart() then
         n.step == Finished(Failed(StoreRange)) && n.chip.flash == c.flash
       else n.step == Finished(Passed) && IsFinal(GoalOf(c, image), n.chip.flash) && n.chip.halted
  }

  lemma FinishedOutcome(c: Chip, image: seq<Byte>, n: System)
    requires AtRest(c) && JobInv(GoalOf(c, image), n) && n.step.Finished?
    ensures JobOutcome(c, image, n)
  {
    hide IsFinal, Goal.Ok;
  }

  /** End to end, for every row, every image, every prior flash content and every pace: the job is refused exactly
      when the part is protected or the image empty or too large, having changed nothing; otherwise it passes, leaving
      the image, the rest of its last page erased, and every other cell as it was. */
  lemma FlashEndToEnd(c: Chip, image: seq<Byte>, rounds: seq<seq<Actor>>)
    requires AtRest(c) && JobBound(image) <= |rounds| && forall i :: 0 <= i < |rounds| ==> Fair(rounds[i])
    ensures JobOutcome(c, image, SystemRounds(System(Prepare, c), rounds, image))
  {
    var g := GoalOf(c, image);
    JobBegins(c, image);
    BoundHolds(g, System(Prepare, c));
    JobFinishes(g, System(Prepare, c), rounds);
    FinishedOutcome(c, image, SystemRounds(System(Prepare, c), rounds, image));
    hide JobOutcome;
  }

  /** A board of row `p` with no loader running, on any flash content. */
  function Resting(p: Part, flash: seq<Half>, closed: seq<bool>, protected: bool): Chip {
    var regs := Regs(0, 0, 0, 0, 0, 0, false, STAT_CLEAR);
    Chip(p, flash, closed, seq(p.ring / 2, _ => 0), 0, 0, false, protected, true, CTL_LK, STAT_CLEAR, 0, 0, false, regs, Off, 0)
  }

  lemma RestingIsAtRest(p: Part, flash: seq<Half>, closed: seq<bool>, protected: bool)
    requires IsRow(p) && |flash| == |closed| == p.FlashLen() / 2
    ensures AtRest(Resting(p, flash, closed, protected))
  {
    RowGeometry(p);
  }

  /** In plain terms: on every row, every image that fits the buffer and ends below the store ends up in flash byte by byte
      over whatever was there, the rest of its last page erased, every other cell untouched and the store never written. */
  lemma EveryImageFlashes(p: Part, flash: seq<Half>, closed: seq<bool>, image: seq<Byte>, rounds: seq<seq<Actor>>)
    requires IsRow(p) && |flash| == |closed| == p.FlashLen() / 2
    requires 1 <= |image| <= IMAGE_BUFFER && FLASH_BASE + |image| <= p.StoreStart()
    requires JobBound(image) <= |rounds| && forall i :: 0 <= i < |rounds| ==> Fair(rounds[i])
    ensures AtRest(Resting(p, flash, closed, false))
    ensures var n := SystemRounds(System(Prepare, Resting(p, flash, closed, false)), rounds, image);
            && n.step == Finished(Passed) && n.chip.storeWrites == 0 && |n.chip.flash| == |flash|
            && (forall o :: 0 <= o < |image| ==>
                  o / 2 < |flash| && image[o] == if o % 2 == 0 then n.chip.flash[o / 2] % 256 else n.chip.flash[o / 2] / 256)
            && forall y :: (|image| + 1) / 2 <= y < |flash| ==>
                 n.chip.flash[y] == if PageOf(p, 2 * y) == PageOf(p, |image| - 1) then ERASED else flash[y]
  {
    RowGeometry(p);
    var c := Resting(p, flash, closed, false);
    var g := GoalOf(c, image);
    FlashEndToEnd(c, image, rounds);
    var n := SystemRounds(System(Prepare, c), rounds, image);
    PlainlyFinal(g, n.chip.flash);
    hide IsFinal, Pages;
  }

  /** A cell past the image is in one of its pages exactly when it is in the page of its last byte. */
  lemma LastPage(g: Goal, y: nat)
    requires g.Ok() && g.Fits() && (|g.image| + 1) / 2 <= y
    ensures y < g.Span(g.PageCount()) <==> PageOf(g.part, 2 * y) == PageOf(g.part, |g.image| - 1)
  {
  }

  lemma PlainlyFinal(g: Goal, flash: seq<Half>)
    requires g.Ok() && g.Fits() && IsFinal(g, flash)
    ensures forall o :: 0 <= o < |g.image| ==>
              o / 2 < |flash| && g.image[o] == if o % 2 == 0 then flash[o / 2] % 256 else flash[o / 2] / 256
    ensures forall y :: (|g.image| + 1) / 2 <= y < |flash| ==>
              flash[y] == if PageOf(g.part, 2 * y) == PageOf(g.part, |g.image| - 1) then ERASED else g.flash[y]
  {
    PagesFit(g);
    forall y | (|g.image| + 1) / 2 <= y < |flash|
      ensures flash[y] == if PageOf(g.part, 2 * y) == PageOf(g.part, |g.image| - 1) then ERASED else g.flash[y]
    {
      LastPage(g, y);
    }
    forall o | 0 <= o < |g.image|
      ensures o / 2 < |flash| && g.image[o] == if o % 2 == 0 then flash[o / 2] % 256 else flash[o / 2] / 256
    {
      VerifyPasses(g, flash, o);
    }
    hide Pages, HalfAt;
  }

  lemma BoundHolds(g: Goal, s: System)
    requires JobInv(g, s) && s.step.Prepare?
    ensures JobLeft(g, s) < JobBound(g.image)
  {
  }
}
