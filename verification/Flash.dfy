/** A board flash as a job of bounded steps: which pages, in which order, through the RAM loader, then verified. */
module Flash {
  import opened Bytes
  import opened Parts
  import opened Chips
  import opened Loaders

  const VERIFY_CHUNK := 1024

  datatype FlashError =
    | Protected
    | StoreRange
    | EraseFailed(page: int)
    | LoaderStopped
    | ProgramFailed(addr: int)
    | VerifyFailed(addr: int)
    | NotErased(addr: int)

  datatype Verdict = Passed | Failed(error: FlashError)

  datatype Step =
    | Prepare
    | Erase(i: nat)
    | Load
    | Program(seg: nat, run: Run)
    | Verify(off: nat)
    | Finished(verdict: Verdict)

  // ---- pages and segments ----

  /** Whole pages in `n` pages, in bytes, on the two page sizes there are. */
  function PageBytes(p: Part, n: int): int {
    if p.page == 1024 then 1024 * n else 2048 * n
  }

  /** How many pages hold `len` bytes. */
  function Pages(p: Part, len: nat): nat {
    if p.page == 1024 then (len + 1023) / 1024 else (len + 2047) / 2048
  }

  /** The erase order: ascending, but for page 0, which goes last. */
  function PageNumber(p: Part, len: nat, i: nat): nat {
    if i + 1 < Pages(p, len) then i + 1 else 0
  }

  function PageAddress(p: Part, len: nat, i: nat): int {
    FLASH_BASE + PageBytes(p, PageNumber(p, len, i))
  }

  datatype Segment = Segment(addr: int, off: nat, len: nat)

  /** The loader's runs, of which the vector table's page is the last. */
  function SegmentAt(p: Part, len: nat, k: nat): (s: Option<Segment>)
    requires Sound(p)
    ensures s.Some? ==> s.value.off + s.value.len <= len
  {
    if Pages(p, len) > 1 then
      if k == 0 then Some(Segment(FLASH_BASE + p.page, p.page, len - p.page))
      else if k == 1 then Some(Segment(FLASH_BASE, 0, p.page))
      else None
    else if k == 0 then Some(Segment(FLASH_BASE, 0, len))
    else None
  }

  // ---- the register sequences ----

  function WaitIdle(c: Chip): Chip {
    c.(busy := 0)
  }

  function ClearStat(c: Chip): Chip {
    c.(stat := STAT_CLEAR)
  }

  /** The page erase: idle, status cleared, `PER`, the address, `PER` with `START`, idle, control cleared. */
  function ErasePageAt(c: Chip, addr: int): (r: Chip)
    requires Wf(c)
    ensures Wf(r)
  {
    var ready := CtlWrite(ClearStat(WaitIdle(c)), CTL_PER).(addr := addr);
    CtlWrite(WaitIdle(CtlWrite(ready, CTL_PER.(start := true))), CTL_NONE)
  }

  function Lock(c: Chip): (r: Chip)
    requires Wf(c)
    ensures Wf(r)
  {
    CtlWrite(c, CTL_LK)
  }

  predicate LaunchFits(c: Chip, addr: int, len: nat) {
    c.loader.Off? && FLASH_BASE <= addr && addr % 2 == 0 && addr + 2 * Halves(len) <= FLASH_BASE + c.part.FlashLen()
      && c.part.StackTop() <= SRAM_BASE + c.part.sramKib * 1024
  }

  function FlashByte(flash: seq<Half>, o: nat): Byte
    requires o / 2 < |flash|
  {
    if o % 2 == 0 then LowByte(flash[o / 2]) else HighByte(flash[o / 2])
  }

  /** The first byte of `image[off..end]` that reads back differently. */
  function FirstDifference(image: seq<Byte>, flash: seq<Half>, off: nat, end: nat): (d: Option<nat>)
    requires off <= end <= |image| && (end + 1) / 2 <= |flash|
    ensures d.Some? ==> off <= d.value < end && image[d.value] != FlashByte(flash, d.value)
    ensures d.None? ==> forall o :: off <= o < end ==> image[o] == FlashByte(flash, o)
    decreases end - off
  {
    if off == end then None
    else if image[off] != FlashByte(flash, off) then Some(off)
    else FirstDifference(image, flash, off + 1, end)
  }

  // ---- the job ----

  /** A job and the chip it flashes. */
  datatype System = System(step: Step, chip: Chip) {
    predicate Wf() {
      Chips.Wf(chip) && (step.Program? ==> step.run.Wf())
    }
  }

  /** A refusal or an error: the job is over, the controller locked. */
  function Fail(c: Chip, e: FlashError): (s: System)
    requires Wf(c)
    ensures s.Wf()
  {
    System(Finished(Failed(e)), Lock(c))
  }

  /** The job's next bounded piece; a loader run advances one bus access at a time. */
  function JobStep(s: System, image: seq<Byte>): (n: System)
    requires s.Wf()
    ensures n.Wf()
  {
    var c := s.chip;
    match s.step
    case Prepare =>
      if c.protected then Fail(c, Protected)
      else if |image| == 0 || |image| > c.part.MaxImage() then Fail(c, StoreRange)
      else System(Erase(0), Unlocked(ResetHalted(c)))
    case Erase(i) => EraseStep(c, i, image)
    case Load => StartSegment(c.(codeOk := true), 0, image)
    case Program(seg, run) => ProgramStep(c, seg, run, image)
    case Verify(off) => VerifyStep(c, off, image)
    case Finished(_) => s
  }

  function EraseStep(c: Chip, i: nat, image: seq<Byte>): (n: System)
    requires Wf(c)
    ensures n.Wf()
  {
    var addr := PageAddress(c.part, |image|, i);
    if addr >= c.part.StoreStart() then Fail(c, StoreRange)
    else
      var d := ErasePageAt(c, addr);
      if d.stat.Failed() then Fail(d, EraseFailed(addr))
      else System(if i + 1 == Pages(c.part, |image|) then Load else Erase(i + 1), d)
  }

  function StartSegment(c: Chip, k: nat, image: seq<Byte>): (n: System)
    requires Wf(c)
    ensures n.Wf()
  {
    match SegmentAt(c.part, |image|, k)
    case None => Fail(c, LoaderStopped)
    case Some(g) =>
      if g.addr < FLASH_BASE || g.addr + g.len > c.part.StoreStart() then Fail(c, StoreRange)
      else
        var d := ClearStat(WaitIdle(c));
        System(Program(k, Begin(c.part, g.addr, g.len)), if LaunchFits(d, g.addr, g.len) then Launch(d, g.addr, g.len) else d)
  }

  function ProgramStep(c: Chip, k: nat, run: Run, image: seq<Byte>): (n: System)
    requires Wf(c) && run.Wf()
    ensures n.Wf()
  {
    match SegmentAt(c.part, |image|, k)
    case None => Fail(c, LoaderStopped)
    case Some(g) =>
      if !run.phase.Done? then
        var h := HostStep(run, c, image[g.off..g.off + g.len]);
        System(Program(k, h.0), h.1)
      else if run.phase.outcome.stat.Failed() then Fail(c, ProgramFailed(run.phase.outcome.addr))
      else if run.phase.outcome.addr != run.End() then Fail(c, LoaderStopped)
      else if SegmentAt(c.part, |image|, k + 1).Some? then StartSegment(c, k + 1, image)
      else System(Verify(0), Lock(c))
  }

  function VerifyStep(c: Chip, off: nat, image: seq<Byte>): (n: System)
    requires Wf(c)
    ensures n.Wf()
  {
    var next := if |image| - off < VERIFY_CHUNK then |image| else off + VERIFY_CHUNK;
    if off > |image| || (|image| + 1) / 2 > |c.flash| then Fail(c, StoreRange)
    else
      match FirstDifference(image, c.flash, off, next)
      case Some(o) => Fail(c, VerifyFailed(FLASH_BASE + o))
      case None => if next < |image| then System(Verify(next), c) else System(Finished(Passed), ResetHalted(c))
  }

  /** A job under a schedule: the bridge's pieces and the loader's turns in any interleaving. */
  function SystemStep(s: System, a: Actor, image: seq<Byte>): (n: System)
    requires s.Wf()
    ensures n.Wf()
  {
    if a.Bridge? then JobStep(s, image) else s.(chip := LoaderStep(s.chip))
  }

  function SystemAll(s: System, sch: seq<Actor>, image: seq<Byte>): (n: System)
    requires s.Wf()
    ensures n.Wf()
  {
    if sch == [] then s else SystemStep(SystemAll(s, sch[..|sch| - 1], image), sch[|sch| - 1], image)
  }

  function SystemRounds(s: System, rounds: seq<seq<Actor>>, image: seq<Byte>): (n: System)
    requires s.Wf()
    ensures n.Wf()
    decreases |rounds|
  {
    if rounds == [] then s else SystemRounds(SystemAll(s, rounds[0], image), rounds[1..], image)
  }
}
