/** What every interleaving of a flash job and the RAM loader keeps: the store and every uncovered page, a
    safe page 0 at each instant, and the image once the job is over. */
module FlashProofs {
  import opened Bytes
  import opened Parts
  import opened Chips
  import opened Loaders
  import opened LoaderProofs
  import opened LoaderRuns
  import opened Flash

  /** A job's image and the chip as the job found it. */
  datatype Goal = Goal(part: Part, image: seq<Byte>, flash: seq<Half>, closed: seq<bool>, writes: nat, protected: bool) {

    predicate Ok() {
      && Sound(part) && part.StackTop() <= SRAM_BASE + part.sramKib * 1024
      && |flash| == |closed| == part.FlashLen() / 2
    }

    /** The job's own test of the image. */
    predicate Fits() {
      1 <= |image| <= part.MaxImage()
    }

    function PageCount(): nat {
      Pages(part, |image|)
    }

    /** Halfwords in `n` pages. */
    function Span(n: int): int {
      if part.page == 1024 then 512 * n else 1024 * n
    }
  }

  lemma PagesFit(g: Goal)
    requires g.Ok() && g.Fits()
    ensures 1 <= g.PageCount()
    ensures |g.image| <= 2 * g.Span(g.PageCount()) < |g.image| + g.part.page
    ensures 0 < g.Span(g.PageCount()) <= StoreHalf(g.part) <= |g.flash|
    ensures PageBytes(g.part, g.PageCount()) == 2 * g.Span(g.PageCount())
  {
  }

  /** Flash and closed halfwords once the job has erased `i` pages. */
  function ErasedAfter(g: Goal, i: nat): (r: (seq<Half>, seq<bool>))
    requires g.Ok() && g.Fits() && i <= g.PageCount()
    ensures |r.0| == |r.1| == |g.flash|
  {
    if i == 0 then (g.flash, g.closed)
    else
      var prev := ErasedAfter(g, i - 1);
      var lo := g.Span(PageNumber(g.part, |g.image|, i - 1));
      PagesFit(g);
      (Fill(prev.0, lo, lo + g.Span(1), ERASED), Fill(prev.1, lo, lo + g.Span(1), false))
  }

  /** After `i` erases the erased cells are pages 1 to `i`, and page 0 once every page is. */
  predicate IsErased(g: Goal, i: nat, y: int) {
    if i < g.PageCount() then g.Span(1) <= y < g.Span(i + 1) else 0 <= y < g.Span(g.PageCount())
  }

  lemma {:induction false} ErasedCells(g: Goal, i: nat, y: nat)
    requires g.Ok() && g.Fits() && i <= g.PageCount() && y < |g.flash|
    ensures var e := ErasedAfter(g, i);
            if IsErased(g, i, y) then e.0[y] == ERASED && !e.1[y] else e.0[y] == g.flash[y] && e.1[y] == g.closed[y]
  {
    if i > 0 {
      ErasedCells(g, i - 1, y);
    }
  }

  /** The cells a finished job leaves: the image, the rest of its last page erased, every other page as it was. */
  function FinalHalf(g: Goal, y: nat): Half
    requires y < |g.flash|
  {
    if y < Halves(|g.image|) then HalfAt(g.image, y)
    else if y < g.Span(g.PageCount()) then ERASED
    else g.flash[y]
  }

  ghost predicate IsFinal(g: Goal, flash: seq<Half>) {
    |flash| == |g.flash| && forall y :: 0 <= y < |flash| ==> flash[y] == FinalHalf(g, y)
  }

  // ---- the loader's two tasks ----

  function TaskAt(g: Goal, k: nat): (t: Task)
    requires g.Ok() && g.Fits() && SegmentAt(g.part, |g.image|, k).Some?
  {
    var s := SegmentAt(g.part, |g.image|, k).value;
    var e := ErasedAfter(g, g.PageCount());
    var from := if k == 0 then e else SecondStart(g);
    Task(g.part, s.addr, g.image[s.off..s.off + s.len], from.0, from.1, g.writes)
  }

  /** What the first run leaves for the second. */
  function SecondStart(g: Goal): (r: (seq<Half>, seq<bool>))
    requires g.Ok() && g.Fits() && g.PageCount() > 1
    ensures |r.0| == |r.1| == |g.flash|
  {
    PagesFit(g);
    var e := ErasedAfter(g, g.PageCount());
    After(g.part, e.0, e.1, g.Span(1), g.image[g.part.page..], Halves(|g.image| - g.part.page))
  }

  lemma TaskFits(g: Goal, k: nat)
    requires g.Ok() && g.Fits() && SegmentAt(g.part, |g.image|, k).Some?
    ensures TaskAt(g, k).Ok()
    ensures TaskAt(g, k).Base() == if g.PageCount() > 1 && k == 0 then g.Span(1) else 0
  {
    PagesFit(g);
  }

  /** The first run's halfwords are the image's, one page further on. */
  lemma TailHalves(image: seq<Byte>, half: nat, j: nat)
    requires 2 * half <= |image|
    ensures HalfAt(image[2 * half..], j) == HalfAt(image, half + j)
  {
    assert 2 * (half + j) == 2 * half + 2 * j;
  }

  lemma HeadHalves(image: seq<Byte>, len: nat, j: nat)
    requires len <= |image| && (2 * j + 1 < len || len == |image|)
    ensures HalfAt(image[..len], j) == HalfAt(image, j)
  {
  }

  /** Programming erased cells leaves the data. */
  lemma ProgrammedCell(p: Part, f: seq<Half>, z: seq<bool>, b: nat, data: seq<Byte>, y: nat)
    requires |f| == |z| && b + Halves(|data|) <= |f| && y < |f|
    requires b <= y < b + Halves(|data|) ==> f[y] == ERASED
    ensures After(p, f, z, b, data, Halves(|data|)).0[y] == if b <= y < b + Halves(|data|) then HalfAt(data, y - b) else f[y]
  {
    AfterFlash(p, f, z, b, data, Halves(|data|), y);
    if b <= y < b + Halves(|data|) {
      AndErased(HalfAt(data, y - b));
    }
  }

  lemma ErasedAll(g: Goal, y: nat)
    requires g.Ok() && g.Fits() && y < |g.flash|
    ensures var e := ErasedAfter(g, g.PageCount());
            if y < g.Span(g.PageCount()) then e.0[y] == ERASED && !e.1[y] else e.0[y] == g.flash[y] && e.1[y] == g.closed[y]
  {
    ErasedCells(g, g.PageCount(), y);
  }

  /** Where the second run programs, the first has left the erase's cells: erased, and none closed. */
  lemma SecondBelow(g: Goal, y: nat)
    requires g.Ok() && g.Fits() && g.PageCount() > 1 && y < g.Span(1)
    ensures y < |g.flash| && SecondStart(g).0[y] == ERASED && !SecondStart(g).1[y]
  {
    PagesFit(g);
    var e := ErasedAfter(g, g.PageCount());
    var data := g.image[g.part.page..];
    assert y < g.Span(g.PageCount()) && !ClosesBelow(g.part, FLASH_BASE + 2 * g.Span(1));
    ErasedAll(g, y);
    hide ErasedAfter, Goal.Fits, HalfAt;
    ProgrammedCell(g.part, e.0, e.1, g.Span(1), data, y);
    AfterClosed(g.part, e.0, e.1, g.Span(1), data, Halves(|data|), y);
  }

  /** The first run's cells, given what the erase left there. */
  lemma FirstRunCell(p: Part, image: seq<Byte>, e: (seq<Half>, seq<bool>), b: nat, y: nat)
    requires |e.0| == |e.1| && 2 * b <= |image| && Halves(|image|) <= |e.0| && b <= y < |e.0|
    requires y < Halves(|image|) ==> e.0[y] == ERASED
    ensures b + Halves(|image[2 * b..]|) <= |e.0|
    ensures After(p, e.0, e.1, b, image[2 * b..], Halves(|image[2 * b..]|)).0[y]
            == if y < Halves(|image|) then HalfAt(image, y) else e.0[y]
  {
    var data := image[2 * b..];
    assert b + Halves(|data|) == Halves(|image|);
    ProgrammedCell(p, e.0, e.1, b, data, y);
    if y < Halves(|image|) {
      TailHalves(image, b, y - b);
    }
  }

  lemma SecondStartIs(g: Goal)
    requires g.Ok() && g.Fits() && g.PageCount() > 1
    ensures 2 * g.Span(1) <= |g.image| && Halves(|g.image|) <= g.Span(g.PageCount()) <= |g.flash|
    ensures g.Span(1) + Halves(|g.image[2 * g.Span(1)..]|) <= |g.flash|
    ensures var e, data := ErasedAfter(g, g.PageCount()), g.image[2 * g.Span(1)..];
            SecondStart(g) == After(g.part, e.0, e.1, g.Span(1), data, Halves(|data|))
  {
    PagesFit(g);
    hide After, ErasedAfter;
  }

  /** Everywhere else the first run has already left what the job leaves. */
  lemma SecondAbove(g: Goal, y: nat)
    requires g.Ok() && g.Fits() && g.PageCount() > 1 && g.Span(1) <= y < |g.flash|
    ensures SecondStart(g).0[y] == FinalHalf(g, y)
  {
    SecondStartIs(g);
    ErasedAll(g, y);
    hide SecondStart, ErasedAfter, HalfAt, After, Halves, Pages, Goal.PageCount, Goal.Span, Goal.Ok, Goal.Fits;
    FirstRunCell(g.part, g.image, ErasedAfter(g, g.PageCount()), g.Span(1), y);
  }

  /** The loader is never started on a halfword it cannot program. */
  lemma TasksClean(g: Goal, k: nat)
    requires g.Ok() && g.Fits() && SegmentAt(g.part, |g.image|, k).Some?
    ensures TaskAt(g, k).Ok() && TaskAt(g, k).Clean(TaskAt(g, k).Count())
  {
    TaskFits(g, k);
    PagesFit(g);
    var t := TaskAt(g, k);
    forall j | 0 <= j < t.Count()
      ensures !t.Bad(j)
    {
      var y := t.Base() + j;
      if k == 0 {
        ErasedAll(g, y);
      } else {
        SecondBelow(g, y);
      }
    }
  }

  /** The last run leaves the image and nothing else changed. */
  lemma LastRunFinal(g: Goal, k: nat)
    requires g.Ok() && g.Fits() && SegmentAt(g.part, |g.image|, k).Some? && SegmentAt(g.part, |g.image|, k + 1).None?
    ensures TaskAt(g, k).Ok()
    ensures var t := TaskAt(g, k); IsFinal(g, After(t.part, t.flash, t.closed, t.Base(), t.data, t.Count()).0)
  {
    TaskFits(g, k);
    PagesFit(g);
    var t := TaskAt(g, k);
    var out := After(t.part, t.flash, t.closed, t.Base(), t.data, t.Count()).0;
    forall y | 0 <= y < |g.flash|
      ensures out[y] == FinalHalf(g, y)
    {
      if k == 0 {
        ErasedAll(g, y);
      } else if y < g.Span(1) {
        SecondBelow(g, y);
      } else {
        SecondAbove(g, y);
      }
      ProgrammedCell(t.part, t.flash, t.closed, t.Base(), t.data, y);
      if y < t.Count() {
        HeadHalves(g.image, |t.data|, y);
      }
    }
  }
}
