/** Every run of the loader protocol: the invariant holds throughout, no interleaving gets stuck, every fair
    one ends, and where it ends is decided by the data and the flash alone. */
module LoaderRuns {
  import opened Bytes
  import opened Parts
  import opened Chips
  import opened Ring
  import opened Loaders
  import opened LoaderProofs

  // ---- the start ----

  /** A chip on which the task's run can begin, whatever its flash holds. */
  ghost predicate Startable(t: Task, c: Chip) {
    && t.Ok() && Wf(c) && c.part == t.part && c.part.StackTop() <= SRAM_BASE + c.part.sramKib * 1024
    && c.loader.Off? && c.codeOk && !c.locked && !c.protected && !c.stat.Failed()
    && c.flash == t.flash && c.closed == t.closed && c.storeWrites == t.writes
  }

  lemma BeginHolds(t: Task, c: Chip)
    requires Startable(t, c)
    ensures Inv(t, Begin(t.part, t.addr, |t.data|), Launch(c, t.addr, |t.data|))
  {
    var r, d := Begin(t.part, t.addr, |t.data|), Launch(c, t.addr, |t.data|);
    assert d.loader == On(RING_START, RING_START + t.part.ring, t.addr, t.Count(), RING_START);
    UsedIs(r, 0, 0, t.Cells());
    assert Taken(t, d) == 0;
    assert t.Clean(0);
  }

  // ---- every interleaving ----

  ghost predicate Holds(t: Task, s: (Run, Chip)) {
    Inv(t, s.0, s.1)
  }

  lemma StepHolds(t: Task, s: (Run, Chip), a: Actor)
    requires Holds(t, s)
    ensures Holds(t, RunStep(s, a, t.data))
  {
    if a.Bridge? {
      HostKeeps(t, s.0, s.1);
    } else {
      LoaderKeeps(t, s.0, s.1);
    }
  }

  /** The invariant after any schedule whatever. */
  lemma {:induction false} RunHolds(t: Task, s: (Run, Chip), sch: seq<Actor>)
    requires Holds(t, s)
    ensures Holds(t, RunAll(s, sch, t.data))
  {
    if sch != [] {
      RunHolds(t, s, sch[..|sch| - 1]);
      StepHolds(t, RunAll(s, sch[..|sch| - 1], t.data), sch[|sch| - 1]);
    }
  }

  /** The bridge's count of unread bytes is never below the true one and always below the ring's length; equal
      pointers mean an empty ring; and what the loader reads next is the next halfword of the data. */
  lemma RingIsSafe(t: Task, r: Run, c: Chip)
    requires Inv(t, r, c)
    ensures 2 * (Fed(r) - Taken(t, c)) <= r.Used() < r.ringLen
    ensures r.wp == r.rp ==> Taken(t, c) == Fed(r)
    ensures Takes(t, r, c) ==> RingAt(c, c.loader.rp) == HalfAt(t.data, Taken(t, c))
  {
    if Takes(t, r, c) {
      NextHalfword(t, r, c);
    }
    if r.wp == r.rp {
      Drained(t, r, c);
    }
    UsedIs(r, Known(r), Fed(r), t.Cells());
    hide Inv, Takes, RingAt, HalfAt, Wrap;
  }

  /** The word the bridge writes next carries the next two halfwords of the data into the ring, on cells that hold nothing
      unread: neither what is published nor the chunk's words before it. */
  ghost predicate WriteSafe(t: Task, r: Run, c: Chip)
    requires t.Ok() && r.Wf() && Wf(c) && |c.ring| == t.Cells()
  {
    r.pc.Writing? && r.pc.w < r.Words() ==>
      var cell := Wrap(Filled(r), t.Cells());
      && cell + 1 < t.Cells()
      && HostStep(r, c, t.data).1 == WriteAt(c, cell, HalfAt(t.data, Filled(r)), HalfAt(t.data, Filled(r) + 1))
      && forall i :: 0 <= Taken(t, c) <= i < Filled(r) ==> Wrap(i, t.Cells()) != cell && Wrap(i, t.Cells()) != cell + 1
  }

  lemma WritesAreSafe(t: Task, r: Run, c: Chip)
    requires Inv(t, r, c)
    ensures |c.ring| == t.Cells() && WriteSafe(t, r, c)
  {
    if r.pc.Writing? && r.pc.w < r.Words() {
      WordWrites(r, c, t.data, t.Cells(), Taken(t, c));
      WordFree(r, t.Cells(), Taken(t, c));
    }
    hide HostStep, WriteAt, HalfAt, Wrap, Run.Room, Run.Used, Known, CountsOk, HostOk, RingOk, PhaseOk;
  }

  /** Ring safety in every state any schedule reaches, for the bridge's writes and the loader's reads. */
  lemma RingSafety(t: Task, s: (Run, Chip), sch: seq<Actor>)
    requires Holds(t, s)
    ensures var n := RunAll(s, sch, t.data);
            && 2 * (Fed(n.0) - Taken(t, n.1)) <= n.0.Used() < n.0.ringLen
            && (n.0.wp == n.0.rp ==> Taken(t, n.1) == Fed(n.0))
            && (Takes(t, n.0, n.1) ==> RingAt(n.1, n.1.loader.rp) == HalfAt(t.data, Taken(t, n.1)))
            && |n.1.ring| == t.Cells() && WriteSafe(t, n.0, n.1)
  {
    var n := RunAll(s, sch, t.data);
    RunHolds(t, s, sch);
    RingIsSafe(t, n.0, n.1);
    WritesAreSafe(t, n.0, n.1);
    hide WriteSafe, Takes, RingAt, HalfAt, Wrap, Run.Used;
  }

  /** No `rp` read unless the next chunk, a kilobyte or what is left, does not fit beside all that the bridge does not know
      to be taken; with room it goes on to write, and without it the read is all that the access does. */
  lemma ReadsOnlyWhenFull(t: Task, r: Run, c: Chip)
    requires Inv(t, r, c) && r.phase.Feed? && !r.pc.Writing?
    ensures var n := if |t.data| - r.sent < 1024 then |t.data| - r.sent else 1024;
            var need := 2 * (Fed(r) - Known(r)) + 2 * ((n + 1) / 2);
            && (need < t.part.ring ==> HostStep(r, c, t.data) == (r.(pc := Writing(0)), c))
            && (need >= t.part.ring && c.rp == 0 ==> HostStep(r, c, t.data) == (r.(phase := Phase.Halt), c))
            && (need >= t.part.ring && c.rp != 0 ==>
                  var q := HostStep(r, c, t.data); q.1 == c && q.0.rp == c.rp && q.0.phase.Feed? && (q.0 == r.(rp := c.rp) || q.0.pc == Writing(0)))
  {
    UsedIs(r, Known(r), Fed(r), t.Cells());
    assert r.len == |t.data| && r.ringLen == t.part.ring && r.Wf() && Wf(c) && !r.pc.Writing?;
    hide Inv, Wrap, Run.Used, Known, Fed, Wf;
  }

  // ---- progress ----

  function PcRank(r: Run): nat {
    match r.phase
    case Feed => if r.pc.Writing? then (if r.pc.w <= 256 then 267 - r.pc.w else 0) else 268
    case Drain => if r.pc.Ending? then 7 else 8
    case Halt => 5
    case Done(_) => 0
  }

  /** What is left of a run: bytes to feed, halfwords to take, halfwords the bridge has yet to see taken, the
      accesses left in the phase, and the loader's own stop. */
  ghost function Left(t: Task, s: (Run, Chip)): nat
    requires Holds(t, s)
  {
    300 * (s.0.len - s.0.sent) + (t.Count() - Taken(t, s.1)) + (t.Count() - Known(s.0)) + PcRank(s.0) + (if s.1.loader.On? then 1 else 0)
  }

  lemma LoaderProgress(t: Task, s: (Run, Chip))
    requires Holds(t, s) && LoaderStep(s.1) != s.1
    ensures Holds(t, (s.0, LoaderStep(s.1))) && Left(t, (s.0, LoaderStep(s.1))) < Left(t, s)
  {
    var c := s.1;
    if c.loader.count == 0 || c.wp == 0 {
      LoaderStops(t, s.0, c);
    } else if t.Bad(Taken(t, c)) {
      LoaderRefused(t, s.0, c);
    } else {
      LoaderTakes(t, s.0, c);
    }
  }

  lemma SameCounts(r: Run, pc: Pc)
    requires r.Wf()
    ensures r.(pc := pc).Wf() && Known(r.(pc := pc)) == Known(r)
  {
  }

  lemma WordProgress(t: Task, r: Run, c: Chip)
    requires Inv(t, r, c) && r.pc.Writing? && r.pc.w < r.Words()
    ensures var n := HostStep(r, c, t.data); Holds(t, n) && Left(t, n) < Left(t, (r, c))
  {
    WordKeeps(t, r, c);
    WordWrites(r, c, t.data, t.Cells(), Taken(t, c));
    SameCounts(r, Writing(r.pc.w + 1));
    hide Inv, HalfAt, Wrap, Run.Room, Run.Used, HostStep, Known;
  }

  lemma PublishProgress(t: Task, r: Run, c: Chip)
    requires Inv(t, r, c) && r.pc.Writing? && r.pc.w == r.Words()
    ensures var n := HostStep(r, c, t.data); Holds(t, n) && Left(t, n) < Left(t, (r, c))
  {
    PublishKeeps(t, r, c);
    PublishCounts(r, t.Cells(), Taken(t, c), c);
    BoardFrame(t, c, Publish(r, c).1);
    assert r.sent < r.len ==> 1 <= r.Next();
    hide Inv, HalfAt, Wrap, Run.Room;
  }

  /** A read of `rp` moves the bridge's view forward, or finds it where it was. */
  lemma ReadProgress(t: Task, r: Run, c: Chip)
    requires Inv(t, r, c) && c.rp != 0 && r.pc.Idle?
    ensures var q := r.(rp := c.rp); Known(q) == Taken(t, c) >= Known(r)
    ensures c.rp == r.rp <==> Known(r) == Taken(t, c)
  {
    ReadRp(t, r, c);
    AtInjective(Known(r), Taken(t, c), t.Cells());
  }

  /** A feeding access between chunks: the chunk begins, the run turns to its halt, or only `rp` is read. */
  lemma FeedCases(r: Run, c: Chip, data: seq<Byte>)
    requires r.Wf() && Wf(c) && r.phase.Feed? && !r.pc.Writing?
    ensures var n := HostStep(r, c, data);
            && n.1 == c && n.0.sent == r.sent && n.0.len == r.len && n.0.wp == r.wp && n.0.ringLen == r.ringLen
            && (n.0.rp == r.rp || (c.rp != 0 && n.0.rp == c.rp))
            && (PcRank(n.0) < PcRank(r) || n.0 == r.(rp := c.rp))
  {
    hide Run.Room;
  }

  lemma DrainCases(r: Run, c: Chip, data: seq<Byte>)
    requires r.Wf() && Wf(c) && r.phase.Drain?
    ensures var n := HostStep(r, c, data);
            && n.1.loader == c.loader && n.1.regs == c.regs && n.0.addr == r.addr
            && n.0.sent == r.sent && n.0.len == r.len && n.0.wp == r.wp && n.0.ringLen == r.ringLen
            && (n.0.rp == r.rp || (r.pc != Ending && c.rp != 0 && n.0.rp == c.rp))
            && (PcRank(n.0) < PcRank(r) || n == (r.(rp := c.rp), c))
  {
  }

  /** An access that at most reads `rp` never takes the bridge's view back, and moves it when `rp` has moved. */
  lemma ViewMoves(t: Task, r: Run, c: Chip, q: Run)
    requires Inv(t, r, c) && q.Wf() && q.sent == r.sent && q.wp == r.wp && q.ringLen == r.ringLen
    requires q.rp == r.rp || (r.pc.Idle? && c.rp != 0 && q.rp == c.rp)
    ensures Known(r) <= Known(q) && (q.rp != r.rp ==> Known(r) < Known(q))
  {
    if q.rp != r.rp {
      ReadProgress(t, r, c);
      assert Known(q) == Known(r.(rp := c.rp));
    }
  }

  lemma FeedProgress(t: Task, r: Run, c: Chip)
    requires Inv(t, r, c) && r.phase.Feed? && !r.pc.Writing? && HostStep(r, c, t.data) != (r, c)
    ensures var n := HostStep(r, c, t.data); Holds(t, n) && Left(t, n) < Left(t, (r, c))
  {
    FeedKeeps(t, r, c);
    FeedCases(r, c, t.data);
    assert r.pc.Idle?;
    ViewMoves(t, r, c, HostStep(r, c, t.data).0);
    hide Inv, HostStep, Known, PcRank;
  }

  lemma DrainProgress(t: Task, r: Run, c: Chip)
    requires Inv(t, r, c) && r.phase.Drain? && HostStep(r, c, t.data) != (r, c)
    ensures var n := HostStep(r, c, t.data); Holds(t, n) && Left(t, n) < Left(t, (r, c))
  {
    HostKeeps(t, r, c);
    DrainCases(r, c, t.data);
    assert !r.pc.Writing?;
    ViewMoves(t, r, c, HostStep(r, c, t.data).0);
    hide Inv, HostStep, Known, PcRank;
  }

  lemma HostProgress(t: Task, s: (Run, Chip))
    requires Holds(t, s) && HostStep(s.0, s.1, t.data) != s
    ensures var n := HostStep(s.0, s.1, t.data); Holds(t, n) && Left(t, n) < Left(t, s)
  {
    HostKeeps(t, s.0, s.1);
    match s.0.phase
    case Feed =>
      if !s.0.pc.Writing? {
        FeedProgress(t, s.0, s.1);
      } else if s.0.pc.w < s.0.Words() {
        WordProgress(t, s.0, s.1);
      } else {
        PublishProgress(t, s.0, s.1);
      }
    case Drain => DrainProgress(t, s.0, s.1);
    case Halt =>
    case Done(_) =>
  }

  /** No deadlock: in every state short of the run's end a poll access changes something or the loader can move. */
  lemma NeverStuck(t: Task, s: (Run, Chip))
    requires Holds(t, s)
    ensures s.0.phase.Done? || HostStep(s.0, s.1, t.data) != s || LoaderStep(s.1) != s.1
  {
    var r, c, m := s.0, s.1, t.Cells();
    if r.phase.Feed? {
      FeedNotStuck(t, r, c);
    } else if r.phase.Drain? {
      DrainNotStuck(t, r, c);
    }
  }

  lemma DrainNotStuck(t: Task, r: Run, c: Chip)
    requires Inv(t, r, c) && r.phase.Drain?
    ensures HostStep(r, c, t.data) != (r, c) || LoaderStep(c) != c
  {
    var m := t.Cells();
    UsedIs(r, Known(r), Fed(r), m);
    if c.loader.On? {
      AtInjective(Taken(t, c), Fed(r), m);
    }
    if r.pc.Idle? && c.rp != 0 {
      ReadProgress(t, r, c);
    }
  }

  lemma FeedNotStuck(t: Task, r: Run, c: Chip)
    requires Inv(t, r, c) && r.phase.Feed?
    ensures HostStep(r, c, t.data) != (r, c) || LoaderStep(c) != c
  {
    var m := t.Cells();
    UsedIs(r, Known(r), Fed(r), m);
    if r.pc.Writing? && r.pc.w < r.Words() {
      WordWrites(r, c, t.data, m, Taken(t, c));
    } else if !r.pc.Writing? {
      if c.rp != 0 {
        ReadProgress(t, r, c);
      }
      if c.loader.On? {
        AtInjective(Taken(t, c), Fed(r), m);
      }
    }
  }

  // ---- every fair run ends ----

  ghost predicate Stuck(t: Task, s: (Run, Chip), a: Actor)
    requires Holds(t, s)
  {
    RunStep(s, a, t.data) == s
  }

  lemma StepProgress(t: Task, s: (Run, Chip), a: Actor)
    requires Holds(t, s)
    ensures Holds(t, RunStep(s, a, t.data))
    ensures Stuck(t, s, a) || Left(t, RunStep(s, a, t.data)) < Left(t, s)
  {
    StepHolds(t, s, a);
    if !Stuck(t, s, a) {
      if a.Bridge? {
        HostProgress(t, s);
      } else {
        LoaderProgress(t, s);
      }
    }
  }

  /** A schedule either makes progress, or moves nothing and shows that none of its actors can. */
  lemma {:induction false} ScheduleProgress(t: Task, s: (Run, Chip), sch: seq<Actor>)
    requires Holds(t, s)
    ensures Holds(t, RunAll(s, sch, t.data))
    ensures Left(t, RunAll(s, sch, t.data)) < Left(t, s)
            || (RunAll(s, sch, t.data) == s && forall a :: a in sch ==> Stuck(t, s, a))
  {
    hide Left, RunStep, CountsOk, RingOk, PhaseOk, RunningOk, StoppedOk, After, Task.Clean;
    if sch != [] {
      var front, last := sch[..|sch| - 1], sch[|sch| - 1];
      ScheduleProgress(t, s, front);
      StepProgress(t, RunAll(s, front, t.data), last);
      assert sch == front + [last];
    }
  }

  predicate Fair(round: seq<Actor>) {
    Bridge in round && Board in round
  }

  /** A run over rounds, each a schedule of its own. */
  function RunRounds(s: (Run, Chip), rounds: seq<seq<Actor>>, data: seq<Byte>): (n: (Run, Chip))
    requires s.0.Wf() && Wf(s.1)
    ensures n.0.Wf() && Wf(n.1)
    decreases |rounds|
  {
    if rounds == [] then s else RunRounds(RunAll(s, rounds[0], data), rounds[1..], data)
  }

  lemma {:induction false} DoneStays(t: Task, s: (Run, Chip), sch: seq<Actor>)
    requires Holds(t, s) && s.0.phase.Done?
    ensures RunAll(s, sch, t.data) == s
  {
    if sch != [] {
      DoneStays(t, s, sch[..|sch| - 1]);
    }
  }

  /** Whatever the pace of either side, a run given enough rounds in which both move is done. */
  lemma {:induction false} RunFinishes(t: Task, s: (Run, Chip), rounds: seq<seq<Actor>>)
    requires Holds(t, s) && (forall i :: 0 <= i < |rounds| ==> Fair(rounds[i]))
    requires Left(t, s) < |rounds| || s.0.phase.Done?
    ensures var n := RunRounds(s, rounds, t.data); Holds(t, n) && n.0.phase.Done?
    decreases |rounds|
  {
    if rounds != [] {
      var n := RunAll(s, rounds[0], t.data);
      ScheduleProgress(t, s, rounds[0]);
      assert Fair(rounds[0]);
      if n == s && (forall a :: a in rounds[0] ==> Stuck(t, s, a)) {
        assert Stuck(t, s, Bridge) && Stuck(t, s, Board);
        NeverStuck(t, s);
      }
      if s.0.phase.Done? {
        DoneStays(t, s, rounds[0]);
      }
      RunFinishes(t, n, rounds[1..]);
    }
  }

  // ---- where it ends ----

  /** The first halfword from `k` on that its cell cannot take, or the count when there is none. */
  function FirstBad(t: Task, k: nat): (n: nat)
    requires t.Ok() && k <= t.Count()
    ensures k <= n <= t.Count()
    ensures forall j :: k <= j < n ==> !t.Bad(j)
    ensures n < t.Count() ==> t.Bad(n)
    decreases t.Count() - k
  {
    if k == t.Count() || t.Bad(k) then k else FirstBad(t, k + 1)
  }

  lemma {:induction false} FirstBadIs(t: Task, from: nat, k: nat)
    requires t.Ok() && from <= k <= t.Count() && t.Clean(k) && (k < t.Count() ==> t.Bad(k))
    ensures FirstBad(t, from) == k
    decreases k - from
  {
    if from < k {
      FirstBadIs(t, from + 1, k);
    }
  }

  /** A finished run answers an error exactly when some halfword could not be programmed; `r2` is that halfword's
      address, or the run's end; every halfword before it is in flash and none after it. */
  lemma RunOutcome(t: Task, r: Run, c: Chip)
    requires Inv(t, r, c) && r.phase.Done?
    ensures var bad := FirstBad(t, 0);
            && (r.phase.outcome.stat.Failed() <==> bad < t.Count())
            && r.phase.outcome.addr == t.addr + 2 * bad
            && (bad == t.Count() ==> r.phase.outcome.addr == r.End())
            && (c.flash, c.closed) == After(t.part, t.flash, t.closed, t.Base(), t.data, bad)
  {
    FirstBadIs(t, 0, Taken(t, c));
  }

  /** The whole protocol, from any flash content and at any pace: the run ends, where the first bad halfword says. */
  lemma RunEndsExactly(t: Task, c: Chip, rounds: seq<seq<Actor>>)
    requires Startable(t, c) && (forall i :: 0 <= i < |rounds| ==> Fair(rounds[i]))
    requires 302 * |t.data| + 275 < |rounds|
    ensures var n := RunRounds((Begin(t.part, t.addr, |t.data|), Launch(c, t.addr, |t.data|)), rounds, t.data);
            var bad := FirstBad(t, 0);
            && n.0.phase.Done?
            && (n.0.phase.outcome.stat.Failed() <==> bad < t.Count())
            && n.0.phase.outcome.addr == t.addr + 2 * bad
            && (n.1.flash, n.1.closed) == After(t.part, t.flash, t.closed, t.Base(), t.data, bad)
  {
    BeginHolds(t, c);
    var s := (Begin(t.part, t.addr, |t.data|), Launch(c, t.addr, |t.data|));
    LeftAtStart(t, s);
    RunFinishes(t, s, rounds);
    var n := RunRounds(s, rounds, t.data);
    RunOutcome(t, n.0, n.1);
  }

  lemma LeftAtStart(t: Task, s: (Run, Chip))
    requires Holds(t, s) && s.0.phase.Feed? && s.0.pc.Idle?
    ensures Left(t, s) <= 302 * |t.data| + 271
  {
  }
}
