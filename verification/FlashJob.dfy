/** A board flash as the bridge drives it over the bus, register access by register access. */
module FlashJobs {
  import opened Bytes
  import opened Parts
  import opened Chips
  import opened Loaders
  import opened LoaderProofs
  import opened LoaderRuns
  import opened Flash
  import opened FlashProofs
  import opened FlashRuns
  import opened FlashTheorems
  import opened Boards
  import opened RingRuns

  const BUSY_POLLS := 2000

  datatype Stage =
    | Preparing
    | Erasing(i: nat)
    | Loading
    | Programming(seg: nat, run: RingRun)
    | Verifying(off: nat)
    | Over(verdict: Verdict)

  // ---- schedules ----

  lemma {:induction false} SystemAppend(s: System, a: seq<Actor>, b: seq<Actor>, image: seq<Byte>)
    requires s.Wf()
    ensures SystemAll(s, a + b, image) == SystemAll(SystemAll(s, a, image), b, image)
  {
    if b == [] {
      assert a + b == a;
    } else {
      SystemAppend(s, a, b[..|b| - 1], image);
      assert (a + b)[..|a + b| - 1] == a + b[..|b| - 1];
    }
  }

  lemma {:induction false} SystemTurns(s: System, k: nat, image: seq<Byte>)
    requires s.Wf()
    ensures SystemAll(s, Turns(k), image) == s.(chip := LoaderRun(s.chip, k))
  {
    if k > 0 {
      SystemTurns(s, k - 1, image);
      assert Turns(k)[..k - 1] == Turns(k - 1);
    }
  }

  /** A piece of the job, then the loader's turns after its last access. */
  lemma Piece(s: System, sch: seq<Actor>, k: nat, image: seq<Byte>)
    requires s.Wf()
    ensures var n := JobStep(SystemAll(s, sch, image), image);
            SystemAll(s, sch + Access(k), image) == n.(chip := LoaderRun(n.chip, k))
  {
    var n := SystemAll(s, sch, image);
    SystemAppend(s, sch, Access(k), image);
    SystemAppend(n, [Bridge], Turns(k), image);
    assert [Bridge][..0] == [];
    assert SystemAll(n, [Bridge], image) == SystemStep(n, Bridge, image);
    SystemTurns(JobStep(n, image), k, image);
  }

  lemma FirstPiece(s: System, k: nat, image: seq<Byte>)
    requires s.Wf()
    ensures var n := JobStep(s, image); SystemAll(s, Access(k), image) == n.(chip := LoaderRun(n.chip, k))
  {
    Piece(s, [], k, image);
    assert [] + Access(k) == Access(k);
  }

  /** The system while segment `k` runs, and what a schedule of the protocol is in it: until the run is done, the same. */
  function Running(k: nat, s: (Run, Chip)): System {
    System(Program(k, s.0), s.1)
  }

  lemma {:induction false} RunLifts(s: (Run, Chip), k: nat, g: Segment, sch: seq<Actor>, image: seq<Byte>)
    requires s.0.Wf() && Wf(s.1) && SegmentAt(s.1.part, |image|, k) == Some(g)
    requires !RunAll(s, sch, image[g.off..g.off + g.len]).0.phase.Done?
    ensures var n := RunAll(s, sch, image[g.off..g.off + g.len]);
            SystemAll(Running(k, s), sch, image) == Running(k, n) && n.1.part == s.1.part
  {
    if sch != [] {
      var data := image[g.off..g.off + g.len];
      var mid := RunAll(s, sch[..|sch| - 1], data);
      RunLifts(s, k, g, sch[..|sch| - 1], image);
      HostFrame(mid.0, mid.1, data);
      LoaderFrame(mid.1);
      hide HostStep, LoaderStep;
    }
  }

  /** The access that finds the loader halted. */
  lemma DoneLifts(s: (Run, Chip), k: nat, g: Segment, turns: nat, image: seq<Byte>)
    requires s.0.Wf() && Wf(s.1) && SegmentAt(s.1.part, |image|, k) == Some(g) && !s.0.phase.Done?
    ensures var n := RunAll(s, Access(turns), image[g.off..g.off + g.len]);
            SystemAll(Running(k, s), Access(turns), image) == Running(k, n)
  {
    hide HostStep, LoaderStep, SegmentAt, RunAll, SystemAll;
    FirstPiece(Running(k, s), turns, image);
    AccessedFirst(s, turns, image[g.off..g.off + g.len]);
  }

  // ---- register sequences ----

  method AwaitIdle(m: Gd32) returns (ok: bool, st: Stat)
    requires m.Valid() && m.loader.Off?
    modifies m
    ensures ok && st == m.stat && m.Valid() && m.View() == WaitIdle(old(m.View())) && m.keyStage == old(m.keyStage) && m.rushed == old(m.rushed)
  {
    var i := 0;
    ok, st := false, STAT_CLEAR;
    while i < BUSY_POLLS && !ok
      invariant 0 <= i && m.Valid() && m.keyStage == old(m.keyStage) && m.rushed == old(m.rushed)
      invariant m.busy == (if i < old(m.busy) then old(m.busy) - i else 0)
      invariant m.View() == old(m.View()).(busy := m.busy)
      invariant ok <==> old(m.busy) < i
      invariant ok ==> st == m.stat
    {
      var busy;
      st, busy := m.ReadStat();
      ok := !busy;
      i := i + 1;
    }
  }

  method Unlock(m: Gd32) returns (ok: bool)
    requires m.Valid() && m.loader.Off? && m.keyStage == 0
    modifies m
    ensures ok && m.Valid() && m.View() == Unlocked(old(m.View())) && m.keyStage == 0 && m.rushed == old(m.rushed)
  {
    var locked := m.ReadLocked();
    if locked {
      m.WriteKey(Key1);
      m.WriteKey(Key2);
    }
    locked := m.ReadLocked();
    ok := !locked;
  }

  /** The page erase, unguarded. */
  method ErasePageOf(m: Gd32, addr: int) returns (e: Option<FlashError>)
    requires m.Valid() && m.loader.Off?
    modifies m
    ensures m.Valid() && m.View() == ErasePageAt(old(m.View()), addr) && m.keyStage == old(m.keyStage) && m.rushed == old(m.rushed) && m.loader.Off?
    ensures e == if m.stat.Failed() then Some(EraseFailed(addr)) else None
  {
    hide ErasePage;
    var ok, st := AwaitIdle(m);
    m.ClearStatus();
    m.WriteCtl(CTL_PER);
    m.WriteAddr(addr);
    m.WriteCtl(CTL_PER.(start := true));
    ok, st := AwaitIdle(m);
    m.WriteCtl(CTL_NONE);
    e := if st.Failed() then Some(EraseFailed(addr)) else None;
  }

  /** What a finished run comes to: a flash error, a loader that stopped early, or nothing wrong. */
  function RunResult(o: Outcome, end: int): Option<FlashError> {
    if o.stat.Failed() then Some(ProgramFailed(o.addr))
    else if o.addr != end then Some(LoaderStopped)
    else None
  }

  lemma LockOff(c: Chip)
    requires Wf(c) && c.loader.Off?
    ensures LoaderRun(Lock(c), 0) == Lock(c) && LoaderStep(Lock(c)) == Lock(c)
  {
  }

  lemma OffIdles(c: Chip)
    requires Wf(c) && c.loader.Off?
    ensures LoaderRun(c, 0) == c && LoaderStep(c) == c
  {
  }

  /** What a stage's piece leaves, by the error it returns: on one, the controller has yet to be locked. */
  function Leaves(e: Option<FlashError>, step: Step, c: Chip): System
    requires Wf(c)
  {
    if e.Some? then Fail(c, e.value) else System(step, c)
  }

  /** The first difference, when nothing below `o` differs. */
  lemma {:induction false} NoneBelow(image: seq<Byte>, flash: seq<Half>, off: nat, o: nat, end: nat)
    requires off <= o <= end <= |image| && (end + 1) / 2 <= |flash|
    requires forall x :: off <= x < o ==> image[x] == FlashByte(flash, x)
    ensures FirstDifference(image, flash, off, end) == FirstDifference(image, flash, o, end)
    decreases o - off
  {
    if off < o {
      NoneBelow(image, flash, off + 1, o, end);
    }
  }

  /** The words read back from halfword `at` on, as halfwords. */
  method ReadWords(m: Gd32, at: nat, words: nat) returns (w: seq<Half>)
    requires m.Valid() && m.loader.Off? && at + 2 * words <= |m.flash|
    modifies m
    ensures m.Valid() && m.View() == old(m.View()) && m.keyStage == old(m.keyStage) && m.rushed == old(m.rushed)
    ensures w == m.flash[at..at + 2 * words]
  {
    w := [];
    var k := 0;
    while k < words
      invariant 0 <= k <= words && m.Valid() && m.View() == old(m.View()) && m.keyStage == old(m.keyStage) && m.rushed == old(m.rushed)
      invariant w == m.flash[at..at + 2 * k]
    {
      var lo, hi := m.ReadFlash(at + 2 * k);
      w := w + [lo, hi];
      k := k + 1;
    }
  }

  predicate ImageFits(p: Part, len: nat) {
    1 <= len <= p.MaxImage() && p.StackTop() <= SRAM_BASE + p.sramKib * 1024
  }

  /** A segment of an image that fits can be launched on any chip with no loader running. */
  lemma SegmentFits(c: Chip, len: nat, k: nat)
    requires Wf(c) && ImageFits(c.part, len) && c.loader.Off? && SegmentAt(c.part, len, k).Some?
    ensures var g := SegmentAt(c.part, len, k).value; LaunchFits(ClearStat(WaitIdle(c)), g.addr, g.len)
  {
  }

  lemma Differs(image: seq<Byte>, flash: seq<Half>, o: nat, end: nat)
    requires o < end <= |image| && (end + 1) / 2 <= |flash| && image[o] != FlashByte(flash, o)
    ensures FirstDifference(image, flash, o, end) == Some(o)
  {
  }

  lemma NothingLeft(image: seq<Byte>, flash: seq<Half>, end: nat)
    requires end <= |image| && (end + 1) / 2 <= |flash|
    ensures FirstDifference(image, flash, end, end) == None
  {
  }

  lemma AlonePiece(s: System, image: seq<Byte>)
    requires s.Wf()
    ensures SystemAll(s, [Bridge], image) == JobStep(s, image)
  {
    FirstPiece(s, 0, image);
    assert Access(0) == [Bridge];
  }

  /** What the invariant gives a piece of the job. */
  lemma StageFits(g: Goal, s: System)
    requires JobInv(g, s)
    ensures s.step.Prepare? || s.step.Finished? || ImageFits(s.chip.part, |g.image|)
    ensures !s.step.Program? ==> s.chip.loader.Off?
    ensures s.step.Program? ==> SegmentAt(s.chip.part, |g.image|, s.step.seg).Some? && (s.chip.halted ==> s.chip.loader.Off?)
    ensures s.step.Program? && s.step.run.pc.Idle? ==> Polls(s.step.run)
    ensures s.step.Verify? ==> s.step.off < |g.image|
  {
  }

  lemma WordByte(flash: seq<Half>, half: nat, n: nat, o: nat)
    requires half + n <= |flash| && o / 2 < n
    ensures (2 * half + o) / 2 < |flash| && FlashByte(flash[half..half + n], o) == FlashByte(flash, 2 * half + o)
  {
    assert (2 * half + o) / 2 == half + o / 2 && (2 * half + o) % 2 == o % 2;
    hide LowByte, HighByte;
  }

  /** The words read back from byte `off`, halfword `half`, byte by byte against the image's next `n`. */
  method CompareWords(w: seq<Half>, image: seq<Byte>, off: nat, n: nat, ghost half: nat, words: nat, ghost flash: seq<Half>) returns (d: Option<nat>)
    requires off == 2 * half && off + n <= |image| && words == (n + 3) / 4 && half + 2 * words <= |flash| && (off + n + 1) / 2 <= |flash|
    requires w == flash[half..half + 2 * words]
    ensures d == FirstDifference(image, flash, off, off + n)
  {
    hide FirstDifference, FlashByte;
    var k := 0;
    while k < words
      invariant 0 <= k <= words
      invariant forall x :: off <= x < off + 4 * k && x < off + n ==> image[x] == FlashByte(flash, x)
    {
      var j := 0;
      while j < 4
        invariant 0 <= j <= 4
        invariant forall x :: off <= x < off + 4 * k + j && x < off + n ==> image[x] == FlashByte(flash, x)
      {
        var o := 4 * k + j;
        WordByte(flash, half, 2 * words, o);
        var b := FlashByte(w, o);
        if o < n && image[off + o] != b {
          NoneBelow(image, flash, off, off + o, off + n);
          Differs(image, flash, off + o, off + n);
          return Some(off + o);
        }
        j := j + 1;
      }
      k := k + 1;
    }
    NoneBelow(image, flash, off, off + n, off + n);
    NothingLeft(image, flash, off + n);
    d := None;
  }

  /** The read-back of one piece: its words, byte by byte, against the image's. */
  method CompareNext(m: Gd32, image: seq<Byte>, half: nat, n: nat, words: nat) returns (d: Option<nat>)
    requires m.Valid() && m.loader.Off? && 2 * half + n <= |image| && words == (n + 3) / 4
    requires half + 2 * words <= |m.flash| && (2 * half + n + 1) / 2 <= |m.flash|
    modifies m
    ensures m.Valid() && m.View() == old(m.View()) && m.keyStage == old(m.keyStage) && m.rushed == old(m.rushed)
    ensures d == FirstDifference(image, m.flash, 2 * half, 2 * half + n)
  {
    hide FirstDifference, FlashByte, Wf;
    var w := ReadWords(m, half, words);
    d := CompareWords(w, image, 2 * half, n, half, words, m.flash);
  }

  /** A piece of an image that fits is read back inside the flash. */
  lemma PieceFits(c: Chip, len: nat, off: nat, n: nat)
    requires Wf(c) && ImageFits(c.part, len) && off + n <= len && off % 1024 == 0
    ensures off == 2 * (off / 2) && off / 2 + 2 * ((n + 3) / 4) <= |c.flash| && (off + n + 1) / 2 <= |c.flash|
  {
  }

  class FlashJob {
    const len: nat
    var stage: Stage

    constructor (n: nat)
      ensures len == n && stage == Preparing
    {
      len, stage := n, Preparing;
    }

    /** A job, before it has touched the board; none for a length that cannot be flashed. */
    static method Create(n: nat) returns (j: Option<FlashJob>)
      ensures j.Some? <==> 1 <= n <= IMAGE_BUFFER
      ensures j.Some? ==> fresh(j.value) && j.value.len == n && j.value.stage == Preparing
    {
      if n == 0 || n > IMAGE_BUFFER {
        return None;
      }
      var job := new FlashJob(n);
      j := Some(job);
    }

    ghost function View(): Step
      reads this, Runs()
    {
      match stage
      case Preparing => Prepare
      case Erasing(i) => Erase(i)
      case Loading => Load
      case Programming(k, run) => Program(k, run.View())
      case Verifying(off) => Verify(off)
      case Over(v) => Finished(v)
    }

    ghost function Runs(): set<object>
      reads this
    {
      if stage.Programming? then {stage.run} else {}
    }

    /** What holds between two pieces: a run is not over, and read-back pieces start on a piece's boundary. */
    ghost predicate Between()
      reads this, Runs()
    {
      && (stage.Programming? ==> !stage.run.phase.Done?)
      && (stage.Verifying? ==> stage.off % 1024 == 0)
    }

    method PrepareBoard(m: Gd32) returns (e: Option<FlashError>)
      requires m.Valid() && m.loader.Off? && m.keyStage == 0 && stage.Preparing?
      modifies this, m
      ensures m.Valid() && m.loader.Off? && m.keyStage == 0 && m.rushed == old(m.rushed) && Between() && Runs() == {}
      ensures forall image: seq<Byte> :: |image| == len ==> JobStep(System(Prepare, old(m.View())), image) == Leaves(e, View(), m.View())
    {
      var on := m.ReadProtection();
      if on {
        return Some(Protected);
      }
      if len == 0 || len > m.part.MaxImage() {
        return Some(StoreRange);
      }
      m.ResetHalt();
      var ok := Unlock(m);
      stage, e := Erasing(0), None;
    }

    method EraseNext(m: Gd32, ghost image: seq<Byte>) returns (e: Option<FlashError>)
      requires m.Valid() && m.loader.Off? && stage.Erasing? && |image| == len
      modifies this, m
      ensures m.Valid() && m.loader.Off? && m.keyStage == old(m.keyStage) && m.rushed == old(m.rushed) && Between() && Runs() == {}
      ensures JobStep(System(old(View()), old(m.View())), image) == Leaves(e, View(), m.View())
    {
      hide ErasePageAt, Fail;
      var addr := PageAddress(m.part, len, stage.i);
      if addr >= m.part.StoreStart() {
        return Some(StoreRange);
      }
      e := ErasePageOf(m, addr);
      if e.None? {
        stage := if stage.i + 1 == Pages(m.part, len) then Loading else Erasing(stage.i + 1);
      }
    }

    /** Start the loader on segment `k`, when there is one and it stays below the store. */
    method StartRun(m: Gd32, k: nat, ghost image: seq<Byte>) returns (e: Option<FlashError>, ghost turns: nat)
      requires m.Valid() && m.loader.Off? && |image| == len && (stage.Loading? || stage.Programming?)
      requires SegmentAt(m.part, len, k).Some? ==>
                 var g := SegmentAt(m.part, len, k).value; LaunchFits(ClearStat(WaitIdle(m.View())), g.addr, g.len)
      modifies this, m
      ensures m.Valid() && m.keyStage == old(m.keyStage) && m.rushed == old(m.rushed) && (e.None? ==> Between()) && (fresh(Runs()) || Runs() == old(Runs()))
      ensures e.Some? ==> turns == 0 && m.loader.Off? && StartSegment(old(m.View()), k, image) == Fail(m.View(), e.value)
      ensures e.None? ==> var n := StartSegment(old(m.View()), k, image);
                          n.(chip := LoaderRun(n.chip, turns)) == System(View(), m.View())
      ensures e.None? ==> turns >= 1 || LoaderStep(m.View()) == m.View()
    {
      hide Fail, Launch, LoaderRun, LoaderStep;
      var g := SegmentAt(m.part, len, k);
      if g.None? {
        return Some(LoaderStopped), 0;
      }
      if g.value.addr < FLASH_BASE || g.value.addr + g.value.len > m.part.StoreStart() {
        return Some(StoreRange), 0;
      }
      var ok, st := AwaitIdle(m);
      m.ClearStatus();
      var run;
      run, turns := RingRun.Start(m, g.value.addr, g.value.len);
      stage, e := Programming(k, run), None;
    }

    /** One poll of the loader; a finished run is judged, and the next segment started or the job moved to its read-back. */
    method ProgramOn(m: Gd32, image: seq<Byte>) returns (e: Option<FlashError>, ghost sch: seq<Actor>)
      requires m.Valid() && stage.Programming? && |image| == len && ImageFits(m.part, len)
      requires Polls(stage.run.View()) && !stage.run.phase.Done? && (m.halted ==> m.loader.Off?)
      requires SegmentAt(m.part, len, stage.seg).Some?
      modifies this, stage.run, m
      ensures m.Valid() && m.keyStage == old(m.keyStage) && m.rushed == old(m.rushed) && (e.None? ==> Between()) && (fresh(Runs()) || Runs() <= old(Runs()))
      ensures e.Some? ==> m.loader.Off?
      ensures SystemAll(System(old(View()), old(m.View())), sch, image) == Leaves(e, View(), m.View())
      ensures Bridge in sch && (Board in sch || LoaderStep(m.View()) == m.View())
    {
      hide Fail, LoaderRun, LoaderStep, SegmentAt, HostStep, RunAll, SystemAll;
      var k, run := stage.seg, stage.run;
      var g := SegmentAt(m.part, len, k).value;
      ghost var s0 := (run.View(), m.View());
      var p;
      p, sch := run.Poll(m, image[g.off..g.off + g.len]);
      ghost var s1 := (run.View(), m.View());
      e := None;
      if !p.Ended? {
        RunLifts(s0, k, g, sch, image);
        return;
      }
      DoneLifts(s0, k, g, |sch| - 1, image);
      assert SystemAll(Running(k, s0), sch, image) == Running(k, s1);
      ghost var turns;
      e, turns := FinishRun(m, image);
      Piece(Running(k, s0), sch, turns, image);
      sch := sch + Access(turns);
    }

    /** A finished run, judged. */
    method FinishRun(m: Gd32, ghost image: seq<Byte>) returns (e: Option<FlashError>, ghost turns: nat)
      requires m.Valid() && stage.Programming? && |image| == len && ImageFits(m.part, len)
      requires stage.run.phase.Done? && stage.run.View().Wf() && m.loader.Off? && SegmentAt(m.part, len, stage.seg).Some?
      modifies this, m
      ensures m.Valid() && m.keyStage == old(m.keyStage) && m.rushed == old(m.rushed) && (e.None? ==> Between()) && (fresh(Runs()) || Runs() <= old(Runs()))
      ensures e.Some? ==> m.loader.Off?
      ensures var n := JobStep(System(old(View()), old(m.View())), image);
              n.(chip := LoaderRun(n.chip, turns)) == Leaves(e, View(), m.View())
      ensures turns >= 1 || LoaderStep(m.View()) == m.View()
    {
      LockOff(m.View());
      hide LoaderRun, LoaderStep, SegmentAt;
      var k, run := stage.seg, stage.run;
      e, turns := RunResult(run.phase.outcome, run.End()), 0;
      if e.None? {
        if SegmentAt(m.part, len, k + 1).Some? {
          SegmentFits(m.View(), len, k + 1);
          e, turns := StartRun(m, k + 1, image);
        } else {
          m.WriteCtl(CTL_LK);
          stage := Verifying(0);
        }
      }
      if turns == 0 && m.loader.Off? {
        OffIdles(m.View());
      }
    }

    method VerifyNext(m: Gd32, image: seq<Byte>) returns (e: Option<FlashError>)
      requires m.Valid() && m.loader.Off? && stage.Verifying? && Between() && stage.off < len == |image| && ImageFits(m.part, len)
      modifies this, m
      ensures m.Valid() && m.loader.Off? && m.keyStage == old(m.keyStage) && m.rushed == old(m.rushed) && Between() && Runs() == {}
      ensures JobStep(System(old(View()), old(m.View())), image) == Leaves(e, View(), m.View())
    {
      hide FirstDifference, Fail;
      var off := stage.off;
      var n := if len - off < VERIFY_CHUNK then len - off else VERIFY_CHUNK;
      PieceFits(m.View(), len, off, n);
      var d := CompareNext(m, image, off / 2, n, (n + 3) / 4);
      if d.Some? {
        return Some(VerifyFailed(FLASH_BASE + d.value));
      }
      if off + n < len {
        stage := Verifying(off + n);
      } else {
        m.ResetHalt();
        stage := Over(Passed);
      }
      e := None;
    }

    /** One call of the caller's loop. With the loader's turns between its bus accesses it is a schedule of the system, and
        it moves the job on unless the loader alone can move. */
    method Step(m: Gd32, image: seq<Byte>, ghost g: Goal) returns (ghost sch: seq<Actor>)
      requires m.Valid() && m.keyStage == 0 && Between() && JobInv(g, System(View(), m.View()))
      requires |image| == len && g.image == image
      modifies this, Runs(), m
      ensures m.Valid() && m.keyStage == 0 && m.rushed == old(m.rushed) && Between() && (fresh(Runs()) || Runs() <= old(Runs()))
      ensures System(View(), m.View()) == SystemAll(System(old(View()), old(m.View())), sch, image)
      ensures JobInv(g, System(View(), m.View()))
      ensures Bridge in sch && (Board in sch || LoaderStep(m.View()) == m.View())
    {
      ghost var s := System(View(), m.View());
      var e;
      e, sch := RunPiece(m, image, g);
      if e.Some? {
        LockOff(m.View());
        m.WriteCtl(CTL_LK);
        stage := Over(Failed(e.value));
      }
      SystemKeeps(g, s, sch);
    }

    /** The piece itself; an error is the caller's to end the job with. */
    method RunPiece(m: Gd32, image: seq<Byte>, ghost g: Goal) returns (e: Option<FlashError>, ghost sch: seq<Actor>)
      requires m.Valid() && m.keyStage == 0 && Between() && JobInv(g, System(View(), m.View()))
      requires |image| == len && g.image == image
      modifies this, Runs(), m
      ensures m.Valid() && m.keyStage == 0 && m.rushed == old(m.rushed) && (e.None? ==> Between()) && (fresh(Runs()) || Runs() <= old(Runs()))
      ensures e.Some? ==> m.loader.Off?
      ensures SystemAll(System(old(View()), old(m.View())), sch, image) == Leaves(e, View(), m.View())
      ensures Bridge in sch && (Board in sch || LoaderStep(m.View()) == m.View())
    {
      ghost var s := System(View(), m.View());
      StageFits(g, s);
      AlonePiece(s, image);
      hide JobInv, JobStep, LoaderRun, LoaderStep, SystemAll, SegmentAt;
      sch := [Bridge];
      e := None;
      match stage {
        case Preparing => e := PrepareBoard(m);
        case Erasing(_) => e := EraseNext(m, image);
        case Loading => e, sch := LoadNext(m, image);
        case Programming(_, _) => e, sch := ProgramOn(m, image);
        case Verifying(_) => e := VerifyNext(m, image);
        case Over(_) =>
      }
      if m.loader.Off? {
        OffIdles(m.View());
      }
    }

    method LoadNext(m: Gd32, ghost image: seq<Byte>) returns (e: Option<FlashError>, ghost sch: seq<Actor>)
      requires m.Valid() && m.loader.Off? && stage.Loading? && |image| == len && ImageFits(m.part, len)
      modifies this, m
      ensures m.Valid() && m.keyStage == old(m.keyStage) && m.rushed == old(m.rushed) && (e.None? ==> Between()) && (fresh(Runs()) || Runs() == old(Runs()))
      ensures e.Some? ==> m.loader.Off?
      ensures SystemAll(System(old(View()), old(m.View())), sch, image) == Leaves(e, View(), m.View())
      ensures Bridge in sch && (Board in sch || LoaderStep(m.View()) == m.View())
    {
      hide LoaderRun, LoaderStep, SegmentAt, StartSegment, Lock;
      ghost var s := System(View(), m.View());
      m.LoadCode();
      if SegmentAt(m.part, len, 0).Some? {
        SegmentFits(m.View(), len, 0);
      }
      ghost var turns;
      e, turns := StartRun(m, 0, image);
      sch := Access(turns);
      FirstPiece(s, turns, image);
      if e.Some? {
        LockOff(m.View());
        OffIdles(m.View());
      }
    }
  }

  /** A whole flash, piece by piece until the job is over, whatever the loader's pace: it ends as the end-to-end theorem
      says, all it did was one schedule of the system, which can be cut short anywhere, and the controller was never written
      while busy but to lock it. */
  method FlashBoard(m: Gd32, image: seq<Byte>) returns (verdict: Option<Verdict>, ghost sch: seq<Actor>)
    requires m.Valid() && m.keyStage == 0 && AtRest(m.View())
    modifies m
    ensures m.Valid() && m.rushed == old(m.rushed)
    ensures verdict.None? <==> |image| == 0 || |image| > IMAGE_BUFFER
    ensures verdict.None? ==> m.View() == old(m.View())
    ensures verdict.Some? ==> JobOutcome(old(m.View()), image, System(Finished(verdict.value), m.View()))
    ensures verdict.Some? ==> SystemAll(System(Prepare, old(m.View())), sch, image) == System(Finished(verdict.value), m.View())
  {
    ghost var c, g := m.View(), GoalOf(m.View(), image);
    JobBegins(c, image);
    var made := FlashJob.Create(|image|);
    sch := [];
    if made.None? {
      return None, [];
    }
    var job := made.value;
    while !job.stage.Over?
      invariant m.Valid() && m.keyStage == 0 && m.rushed == old(m.rushed) && job.Between() && job.len == |image|
      invariant fresh(job) && fresh(job.Runs())
      invariant JobInv(g, System(job.View(), m.View()))
      invariant System(job.View(), m.View()) == SystemAll(System(Prepare, c), sch, image)
      decreases JobLeft(g, System(job.View(), m.View()))
    {
      ghost var s := System(job.View(), m.View());
      ghost var more := job.Step(m, image, g);
      Moves(g, s, more);
      SystemAppend(System(Prepare, c), sch, more, image);
      sch := sch + more;
    }
    FinishedOutcome(c, image, System(job.View(), m.View()));
    verdict := Some(job.stage.verdict);
  }

  /** A schedule with the bridge in it, and the loader unless it cannot move, moves a job that is not over. */
  lemma Moves(g: Goal, s: System, sch: seq<Actor>)
    requires JobInv(g, s) && !s.step.Finished? && Bridge in sch
    requires Board in sch || LoaderStep(SystemAll(s, sch, g.image).chip) == SystemAll(s, sch, g.image).chip
    ensures var n := SystemAll(s, sch, g.image); JobInv(g, n) && JobLeft(g, n) < JobLeft(g, s)
  {
    ScheduleMoves(g, s, sch);
    if SystemAll(s, sch, g.image) == s && Still(s, sch, g.image) {
      assert SystemStep(s, Bridge, g.image) == s;
      assert LoaderStep(s.chip) == s.chip by {
        if Board in sch {
          assert SystemStep(s, Board, g.image) == s;
        }
      }
      JobNeverStuck(g, s);
    }
  }
}
