/** A loader run as the bridge drives it: one bounded poll at a time, over the bus. */
module RingRuns {
  import opened Bytes
  import opened Parts
  import opened Chips
  import opened Loaders
  import opened LoaderProofs
  import opened LoaderRuns
  import opened Flash
  import opened Boards

  datatype Poll = Fed(sent: nat) | Moved | Waiting | Ended(outcome: Outcome)

  // ---- schedules ----

  lemma {:induction false} RunAllAppend(s: (Run, Chip), a: seq<Actor>, b: seq<Actor>, data: seq<Byte>)
    requires s.0.Wf() && Wf(s.1)
    ensures RunAll(s, a + b, data) == RunAll(RunAll(s, a, data), b, data)
  {
    if b == [] {
      assert a + b == a;
    } else {
      RunAllAppend(s, a, b[..|b| - 1], data);
      assert (a + b)[..|a + b| - 1] == a + b[..|b| - 1];
    }
  }

  lemma {:induction false} RunTurns(s: (Run, Chip), k: nat, data: seq<Byte>)
    requires s.0.Wf() && Wf(s.1)
    ensures RunAll(s, Turns(k), data) == (s.0, LoaderRun(s.1, k))
  {
    hide HostStep, LoaderStep, Wf;
    if k > 0 {
      RunTurns(s, k - 1, data);
      assert Turns(k)[..k - 1] == Turns(k - 1);
    }
  }

  /** The schedule of one bus access: the bridge's, then the loader's turns it gave time for. */
  function Access(k: nat): (s: seq<Actor>)
    ensures |s| == k + 1 && Bridge in s && (k >= 1 ==> Board in s)
  {
    var s := [Bridge] + Turns(k);
    assert s[0] == Bridge && (k >= 1 ==> s[1] == Board);
    s
  }

  lemma Accessed(s: (Run, Chip), sch: seq<Actor>, k: nat, data: seq<Byte>)
    requires s.0.Wf() && Wf(s.1)
    ensures var n := RunAll(s, sch, data); var h := HostStep(n.0, n.1, data);
            RunAll(s, sch + Access(k), data) == (h.0, LoaderRun(h.1, k))
  {
    var n := RunAll(s, sch, data);
    RunAllAppend(s, sch, Access(k), data);
    RunAllAppend(n, [Bridge], Turns(k), data);
    assert [Bridge][..0] == [];
    assert RunAll(n, [Bridge], data) == RunStep(n, Bridge, data);
    RunTurns(HostStep(n.0, n.1, data), k, data);
  }

  lemma AccessedFirst(s: (Run, Chip), k: nat, data: seq<Byte>)
    requires s.0.Wf() && Wf(s.1)
    ensures var h := HostStep(s.0, s.1, data); RunAll(s, Access(k), data) == (h.0, LoaderRun(h.1, k))
  {
    Accessed(s, [], k, data);
    assert [] + Access(k) == Access(k);
  }

  lemma Alone(s: (Run, Chip), data: seq<Byte>)
    requires s.0.Wf() && Wf(s.1)
    ensures RunAll(s, [Bridge], data) == HostStep(s.0, s.1, data)
  {
    AccessedFirst(s, 0, data);
    assert Access(0) == [Bridge];
  }

  // ---- the accesses of a poll ----

  /** What a poll may rely on: a run with something to feed while it feeds. */
  predicate Polls(r: Run) {
    r.Wf() && r.pc.Idle? && (r.phase.Feed? ==> r.sent < r.len || r.len == 0)
  }

  lemma FeedAccess(r: Run, c: Chip, data: seq<Byte>)
    requires r.Wf() && Wf(c) && r.phase.Feed? && !r.pc.Writing?
    ensures HostStep(r, c, data) ==
            if r.Room() then (r.(pc := Writing(0)), c)
            else if c.rp == 0 then (r.(phase := Halt), c)
            else if r.(rp := c.rp).Room() then (r.(rp := c.rp, pc := Writing(0)), c)
            else (r.(rp := c.rp), c)
  {
    hide Run.Room;
  }

  lemma PublishAccess(r: Run, c: Chip, data: seq<Byte>)
    requires r.Wf() && Wf(c) && r.phase.Feed? && r.pc == Writing(r.Words())
    ensures var wp := if r.wp + r.Advance() == RING_START + r.ringLen then RING_START else r.wp + r.Advance();
            var sent := r.sent + r.Next();
            HostStep(r, c, data) == (r.(wp := wp, sent := sent, phase := if sent == r.len then Drain else Feed, pc := Idle), c.(wp := wp))
  {
  }

  lemma DrainAccess(r: Run, c: Chip, data: seq<Byte>)
    requires r.Wf() && Wf(c) && r.phase.Drain?
    ensures HostStep(r, c, data) ==
            if r.pc.Ending? then (r.(phase := Halt, pc := Idle), c.(wp := 0))
            else if c.rp == 0 then (r.(phase := Halt), c)
            else (r.(rp := c.rp, pc := if c.rp == r.wp then Ending else r.pc), c)
  {
  }

  /** The chip as the writes before the resume leave it. */
  lemma LaunchIs(c: Chip, a: int, n: nat, d: Chip)
    requires Wf(c) && LaunchFits(c, a, n)
    requires var regs := Regs(RING_START, RING_START + c.part.ring, a, Halves(n), c.part.StackTop(), LOADER_BASE + 1, true, c.regs.stat);
             d == c.(wp := RING_START, rp := RING_START, regs := regs)
    ensures ResumeFits(d) && Wf(d) && Launch(c, a, n) == Resume(d)
  {
    hide CtlWrite;
  }

  class RingRun {
    const ringLen: nat
    const addr: int
    const len: nat
    var sent: nat
    var wp: int
    var rp: int
    var phase: Phase

    ghost function View(): Run
      reads this
    {
      Run(ringLen, addr, len, sent, wp, rp, phase, Idle)
    }

    function End(): (e: int)
      reads this
      ensures e == View().End()
    {
      addr + 2 * ((len + 1) / 2)
    }

    constructor (p: Part, a: int, n: nat)
      requires Sound(p)
      ensures View() == Begin(p, a, n)
    {
      ringLen, addr, len := p.ring, a, n;
      sent, wp, rp, phase := 0, RING_START, RING_START, Feed;
    }

    /** What these writes leave is the specification's launched chip, with whatever the loader has done since. */
    static method Start(m: Gd32, a: int, n: nat) returns (run: RingRun, ghost k: nat)
      requires m.Valid() && LaunchFits(m.View(), a, n)
      modifies m
      ensures fresh(run) && m.Valid() && m.keyStage == old(m.keyStage) && m.rushed == old(m.rushed) && run.View() == Begin(m.part, a, n)
      ensures m.View() == LoaderRun(Launch(old(m.View()), a, n), k)
      ensures k >= 1 || LoaderStep(m.View()) == m.View()
    {
      ghost var c := m.View();
      k := m.WriteWp(RING_START);
      m.WriteRp(RING_START);
      m.WriteRegs(Regs(RING_START, RING_START + m.part.ring, a, (n + 1) / 2, m.part.StackTop(), LOADER_BASE + 1, true, m.regs.stat));
      LaunchIs(c, a, n, m.View());
      k := m.ResumeCore();
      run := new RingRun(m.part, a, n);
    }

    method Used() returns (u: nat)
      requires View().Wf()
      ensures u == View().Used()
    {
      if wp + ringLen < rp {
        u := 0;
      } else {
        u := (wp + ringLen - rp) % ringLen;
        Ring.WrapIsRemainder(wp + ringLen - rp, ringLen);
      }
    }

    /** At most a chunk's accesses, by the phase the run is in. With the loader's turns between them they are a schedule of
        the protocol, and the answer is `Waiting` exactly when none of them found anything to do. */
    method Poll(m: Gd32, data: seq<Byte>) returns (p: Poll, ghost sch: seq<Actor>)
      requires m.Valid() && Polls(View()) && (m.halted ==> m.loader.Off?)
      modifies this, m
      ensures m.Valid() && View().Wf() && View().pc.Idle? && m.keyStage == old(m.keyStage) && m.rushed == old(m.rushed)
      ensures (View(), m.View()) == RunAll((old(View()), old(m.View())), sch, data)
      ensures Bridge in sch && (Board in sch || old(phase).Done? || phase.Done? || LoaderStep(m.View()) == m.View())
      ensures p.Waiting? <==> View() == old(View()) && !phase.Done?
      ensures p.Fed? ==> p.sent == sent && (sent > old(sent) || len == 0)
      ensures p == if phase.Done? then Ended(phase.outcome) else p
      ensures p.Ended? ==> phase.Done?
      ensures phase.Done? && !old(phase).Done? ==> old(phase).Halt? && sch == Access(|sch| - 1) && m.loader.Off?
    {
      match phase {
        case Feed =>
          p, sch := FeedChunk(m, data);
        case Drain =>
          p, sch := DrainOnce(m, data);
        case Halt =>
          p, sch := HaltOnce(m, data);
        case Done(o) =>
          p, sch := Ended(o), [Bridge];
          Alone((View(), m.View()), data);
      }
    }

    method HaltOnce(m: Gd32, data: seq<Byte>) returns (p: Poll, ghost sch: seq<Actor>)
      requires m.Valid() && View().Wf() && phase.Halt? && (m.halted ==> m.loader.Off?)
      modifies this, m
      ensures m.Valid() && View().Wf() && m.keyStage == old(m.keyStage) && m.rushed == old(m.rushed)
      ensures (View(), m.View()) == RunAll((old(View()), old(m.View())), sch, data)
      ensures Bridge in sch && (Board in sch || phase.Done? || LoaderStep(m.View()) == m.View())
      ensures p == if phase.Done? then Ended(phase.outcome) else Waiting
      ensures sch == Access(|sch| - 1) && (phase.Done? ==> m.loader.Off?)
      ensures p.Waiting? <==> View() == old(View())
    {
      ghost var s0 := (View(), m.View());
      var h;
      ghost var k;
      h, k := m.ReadHalted();
      sch := Access(k);
      AccessedFirst(s0, k, data);
      p := Waiting;
      if h {
        var o := Outcome(m.regs.stat, m.regs.r2);
        phase := Phase.Done(o);
        p := Ended(o);
      }
    }

    method DrainOnce(m: Gd32, data: seq<Byte>) returns (p: Poll, ghost sch: seq<Actor>)
      requires m.Valid() && View().Wf() && phase.Drain?
      modifies this, m
      ensures m.Valid() && View().Wf() && m.keyStage == old(m.keyStage) && m.rushed == old(m.rushed)
      ensures (View(), m.View()) == RunAll((old(View()), old(m.View())), sch, data)
      ensures Bridge in sch && (Board in sch || LoaderStep(m.View()) == m.View())
      ensures p.Waiting? <==> View() == old(View())
      ensures (p.Waiting? || p.Moved?) && !phase.Done?
    {
      hide RunAll, LoaderRun, LoaderStep, HostStep, Wf;
      ghost var s0 := (View(), m.View());
      DrainAccess(s0.0, s0.1, data);
      var v;
      ghost var k;
      v, k := m.ReadRp();
      sch := Access(k);
      AccessedFirst(s0, k, data);
      if v == 0 {
        phase := Halt;
        p := Moved;
        return;
      }
      p := if v != rp then Moved else Waiting;
      rp := v;
      if rp == wp {
        ghost var s1 := (View().(pc := Ending), m.View());
        DrainAccess(s1.0, s1.1, data);
        k := m.WriteWp(0);
        phase := Halt;
        p := Moved;
        Accessed(s0, sch, k, data);
        sch := sch + Access(k);
      }
    }

    method FeedChunk(m: Gd32, data: seq<Byte>) returns (p: Poll, ghost sch: seq<Actor>)
      requires m.Valid() && Polls(View()) && phase.Feed?
      modifies this, m
      ensures m.Valid() && View().Wf() && m.keyStage == old(m.keyStage) && m.rushed == old(m.rushed)
      ensures (View(), m.View()) == RunAll((old(View()), old(m.View())), sch, data)
      ensures Bridge in sch && (Board in sch || LoaderStep(m.View()) == m.View())
      ensures p.Waiting? <==> View() == old(View())
      ensures p.Fed? ==> p.sent == sent && (sent > old(sent) || len == 0)
      ensures !p.Ended? && !phase.Done?
    {
      hide RunAll, LoaderRun, LoaderStep, HostStep, Wf;
      ghost var s0 := (View(), m.View());
      var n := if len - sent < CHUNK then len - sent else CHUNK;
      var room;
      p, room, sch := MakeRoom(m, data, 2 * ((n + 1) / 2));
      if room {
        sch := WriteChunk(m, data, n, s0, sch);
        sch := PublishChunk(m, data, n, s0, sch);
        p := Fed(sent);
      }
    }

    /** Whether a chunk of `adv` bytes fits, reading `rp` once when it does not seem to. */
    method MakeRoom(m: Gd32, data: seq<Byte>, adv: nat) returns (p: Poll, room: bool, ghost sch: seq<Actor>)
      requires m.Valid() && View().Wf() && phase.Feed? && adv == View().Advance()
      modifies this`rp, this`phase, m
      ensures m.Valid() && View().Wf() && m.keyStage == old(m.keyStage) && m.rushed == old(m.rushed)
      ensures Bridge in sch && (room || Board in sch || LoaderStep(m.View()) == m.View())
      ensures var r := if room then View().(pc := Writing(0)) else View();
              RunAll((old(View()), old(m.View())), sch, data) == (r, m.View())
      ensures (phase.Feed? || (phase.Halt? && !room)) && (p.Waiting? || p.Moved?)
      ensures p.Waiting? <==> View() == old(View())
    {
      hide RunAll, LoaderRun, LoaderStep, HostStep, Wf, Run.Used;
      ghost var s0 := (View(), m.View());
      FeedAccess(s0.0, s0.1, data);
      var used := Used();
      p, room := Waiting, true;
      if used + adv >= ringLen {
        var v;
        ghost var k;
        v, k := m.ReadRp();
        sch := Access(k);
        AccessedFirst(s0, k, data);
        if v == 0 {
          phase := Halt;
          return Moved, false, sch;
        }
        p := if v != rp then Moved else Waiting;
        rp := v;
        used := Used();
        room := used + adv < ringLen;
      } else {
        sch := [Bridge];
        Alone(s0, data);
      }
    }

    /** The chunk's words into the ring, each a bus access the loader may run between. */
    method WriteChunk(m: Gd32, data: seq<Byte>, n: nat, ghost s0: (Run, Chip), ghost before: seq<Actor>) returns (ghost sch: seq<Actor>)
      requires m.Valid() && View().Wf() && phase.Feed? && n == View().Next() && Bridge in before
      requires s0.0.Wf() && Wf(s0.1) && RunAll(s0, before, data) == (View().(pc := Writing(0)), m.View())
      modifies m
      ensures m.Valid() && m.keyStage == old(m.keyStage) && m.rushed == old(m.rushed)
      ensures RunAll(s0, sch, data) == (View().(pc := Writing(View().Words())), m.View())
      ensures Bridge in sch
    {
      hide RunAll, LoaderRun, LoaderStep, HostStep, Wf, ChunkHalf, WriteRing;
      sch := before;
      var w := 0;
      while w < (n + 3) / 4
        invariant 0 <= w <= View().Words() && m.Valid() && m.keyStage == old(m.keyStage) && m.rushed == old(m.rushed)
        invariant RunAll(s0, sch, data) == (View().(pc := Writing(w)), m.View())
        invariant Bridge in sch
      {
        WordAccess(View().(pc := Writing(w)), m.View(), data, w);
        ghost var k;
        k := m.WriteRingWord(wp + 4 * w, ChunkHalf(data, sent, n, 2 * w), ChunkHalf(data, sent, n, 2 * w + 1));
        Accessed(s0, sch, k, data);
        sch := sch + Access(k);
        w := w + 1;
      }
    }

    /** The written chunk made the loader's: `wp` moved past it. */
    method PublishChunk(m: Gd32, data: seq<Byte>, n: nat, ghost s0: (Run, Chip), ghost before: seq<Actor>) returns (ghost sch: seq<Actor>)
      requires m.Valid() && View().Wf() && phase.Feed? && n == View().Next() && Bridge in before
      requires s0.0.Wf() && Wf(s0.1) && RunAll(s0, before, data) == (View().(pc := Writing(View().Words())), m.View())
      modifies this`wp, this`sent, this`phase, m
      ensures m.Valid() && View().Wf() && m.keyStage == old(m.keyStage) && m.rushed == old(m.rushed)
      ensures RunAll(s0, sch, data) == (View(), m.View())
      ensures Bridge in sch && (Board in sch || LoaderStep(m.View()) == m.View())
      ensures sent == old(sent) + n && phase == if sent == len then Drain else Feed
    {
      hide RunAll, LoaderRun, LoaderStep, HostStep, Wf;
      var adv := 2 * ((n + 1) / 2);
      PublishAccess(View().(pc := Writing(View().Words())), m.View(), data);
      wp := if wp + adv == RING_START + ringLen then RING_START else wp + adv;
      ghost var k;
      k := m.WriteWp(wp);
      Accessed(s0, before, k, data);
      sch := before + Access(k);
      sent := sent + n;
      if sent == len {
        phase := Drain;
      }
    }
  }
}
