/** Halting a board whose firmware keeps fighting: the timers' outputs are off once the core is held. */
module Targets {
  import opened Parts

  const PARTNO_M0 := 0xC20
  const PARTNO_M3 := 0xC23
  const HALT_POLLS := 100
  const U32_MAX := 0xFFFF_FFFF

  /** An advanced timer's `CCHP`: its `MOE` bit, the outputs enabled, and its other bits. */
  datatype Cchp = Cchp(moe: bool, rest: int)

  /** Bits of a debug register that keep a halted core's watchdog and timers from running on. */
  datatype Hold = Hold(addr: int, bits: set<nat>)

  const GD32_HOLD := Hold(0xE004_2004, {8, 10, 17})
  const MM32_HOLD := Hold(0x4001_3404, {8, 10})

  /** As much of a part as halting it takes; without a hold where the part is unknown. */
  datatype Line = Line(hold: Option<Hold>, timers: seq<int>)

  datatype Result = Done | Armed | Timeout

  datatype HaltPoll = Running | Halted(moeClearUs: Option<nat>)

  /** A part's answers to the identifying reads. */
  datatype Identity = Identity(partno: int, flashKib: nat, uidAllOnes: bool, m0Id: int)

  function RowTimers(row: Option<Part>): seq<int> {
    if row.Some? then row.value.timers else TIMER0_ONLY
  }

  function RowOf(id: Identity): Option<Part> {
    if id.partno == PARTNO_M3 then Lookup(if id.uidAllOnes then FAMILY_F1X0 else FAMILY_F10X, id.flashKib)
    else if id.partno == PARTNO_M0 then LookupM0(id.m0Id)
    else None
  }

  function LineOf(id: Identity): (l: Line)
    ensures 1 <= |l.timers| && l.timers[0] == TIMER0_CCHP
    ensures forall t :: t in l.timers ==> t == TIMER0_CCHP || t == TIMER7_CCHP
    ensures TIMER7_CCHP in l.timers <==> RowOf(id) == Some(GD32F103RC)
  {
    var row := RowOf(id);
    Line(if id.partno == PARTNO_M3 then Some(GD32_HOLD)
         else if id.partno == PARTNO_M0 && row.Some? then Some(MM32_HOLD)
         else None,
         RowTimers(row))
  }

  /** How a board of row `p` answers. */
  predicate Answers(id: Identity, p: Part) {
    && IsRow(p)
    && match p.core
       case M3 => id.partno == 0xC23 && id.flashKib == p.flashKib && (id.uidAllOnes <==> p.family == FAMILY_F1X0)
       case M0(m) => id.partno == 0xC20 && id.m0Id == m
  }

  /** A board of any row is halted as that row: exactly its timers, and its family's hold. */
  lemma LineIsTheRows(id: Identity, p: Part)
    requires Answers(id, p)
    ensures RowOf(id) == Some(p) && LineOf(id).timers == p.timers
    ensures LineOf(id).hold == Some(if p.core.M3? then Hold(0xE004_2004, {8, 10, 17}) else Hold(0x4001_3404, {8, 10}))
  {
    LookupFindsTheRow(p);
    RowGeometry(p);
  }

  /** A part in no row has timer 0 alone; without a Cortex-M3 it has no hold either. */
  lemma LineOfNone(id: Identity)
    requires forall p :: p in PARTS ==> !Answers(id, p)
    ensures LineOf(id).timers == [TIMER0_CCHP] && (LineOf(id).hold.Some? <==> id.partno == PARTNO_M3)
  {
    var row := RowOf(id);
    if row.Some? {
      assert Answers(id, row.value);
    }
  }

  /** The hold registers once row `p`'s hold is set: its family's bits in its family's register, and the other as it was. */
  predicate HeldAs(p: Part, before: map<int, set<nat>>, after: map<int, set<nat>>)
    requires 0xE004_2004 in before && 0x4001_3404 in before
  {
    after == if p.core.M3? then before[0xE004_2004 := before[0xE004_2004] + {8, 10, 17}]
             else before[0x4001_3404 := before[0x4001_3404] + {8, 10}]
  }

  /** The hold registers after a hold is set. */
  function WithHold(h: Option<Hold>, before: map<int, set<nat>>): map<int, set<nat>>
    requires h.Some? ==> h.value.addr in before
  {
    if h.None? then before else before[h.value.addr := before[h.value.addr] + h.value.bits]
  }

  /** So they are for whichever row the board answers as. */
  ghost predicate RowHeld(id: Identity, before: map<int, set<nat>>, after: map<int, set<nat>>)
    requires 0xE004_2004 in before && 0x4001_3404 in before
  {
    forall p :: Answers(id, p) ==> HeldAs(p, before, after)
  }

  lemma HoldIsTheRows(id: Identity, before: map<int, set<nat>>)
    requires before.Keys == {0xE004_2004, 0x4001_3404}
    ensures RowHeld(id, before, WithHold(LineOf(id).hold, before))
  {
    forall p | Answers(id, p)
      ensures HeldAs(p, before, WithHold(LineOf(id).hold, before))
    {
      LineIsTheRows(id, p);
    }
  }

  /** Timer `t`'s register once every one of `ts` has been written with `MOE` cleared. */
  function Cleared(c: map<int, Cchp>, ts: seq<int>, stuck: bool): (d: map<int, Cchp>)
    ensures d.Keys == c.Keys
  {
    map t | t in c :: if t in ts && !stuck then c[t].(moe := false) else c[t]
  }

  predicate AnyMoe(c: map<int, Cchp>, ts: seq<int>) {
    exists t :: t in ts && t in c && c[t].moe
  }

  /** Clearing every listed timer leaves none armed, unless the board's clear does not take, and no other bit of any timer
      changed. */
  lemma ClearedIsDisarmed(c: map<int, Cchp>, ts: seq<int>, stuck: bool)
    ensures forall t :: t in c ==> Cleared(c, ts, stuck)[t] == Cchp(c[t].moe && (stuck || t !in ts), c[t].rest)
    ensures AnyMoe(Cleared(c, ts, stuck), ts) <==> stuck && AnyMoe(c, ts)
  {
    if stuck {
      assert Cleared(c, ts, stuck) == c;
    }
  }

  lemma ClearedTwice(c: map<int, Cchp>, ts: seq<int>, stuck: bool)
    ensures Cleared(Cleared(c, ts, stuck), ts, stuck) == Cleared(c, ts, stuck)
  {
  }

  /** One timer more, cleared after the ones before it. */
  lemma ClearedNext(c: map<int, Cchp>, ts: seq<int>, i: nat, stuck: bool)
    requires i < |ts| && ts[i] in c
    ensures Cleared(Cleared(c, ts[..i], stuck), [ts[i]], stuck) == Cleared(c, ts[..i + 1], stuck)
    ensures AnyMoe(c, ts[..i + 1]) <==> AnyMoe(c, ts[..i]) || c[ts[i]].moe
    ensures AnyMoe(c, ts[..i + 1]) <==> AnyMoe(c, ts[..i]) || Cleared(c, ts[..i], stuck)[ts[i]].moe
  {
    var t, before := ts[i], ts[..i];
    assert ts[..i + 1] == before + [t] && t in before + [t];
    assert forall u :: u in before + [t] <==> u in before || u == t;
  }

  /** How often a halt or a reset has been asked for, and what had last been seen of the timers and the hold by then. */
  datatype Ask = Ask(times: nat, off: set<int>, bits: map<int, set<nat>>)

  /** What a timer's register holds once `v` is written: on a board whose clear does not take, `MOE` stays. */
  function Took(stuck: bool, was: Cchp, v: Cchp): Cchp {
    if stuck then v.(moe := v.moe || was.moe) else v
  }

  function Or(a: Option<int>, t: int): Option<int> {
    if a.None? then Some(t) else a
  }

  class Target {
    const id: Identity
    /** Two ways a board can be broken: clearing `MOE` has no effect, or the vector catch has none. */
    const stuck: bool
    const neverHalts: bool
    var cchp: map<int, Cchp>
    var hold: map<int, set<nat>>
    var vcatch: bool
    var halted: bool
    var now: nat
    /** Every address a timer access went to; when the last read of the core's state and the last write that cleared a `MOE`
        were over, and how many such reads there have been. */
    ghost var touched: set<int>
    ghost var readAt: nat
    ghost var clearedAt: nat
    ghost var polls: nat
    /** The timers last read with `MOE` clear, the hold bits last read or written, and the last halt or reset asked for. */
    ghost var off: set<int>
    ghost var bits: map<int, set<nat>>
    ghost var ask: Ask
    /** Where the first access after the last read of the core's state went: a timer, or 0 for an identifying read. */
    ghost var next: Option<int>

    ghost predicate Valid()
      reads this
    {
      cchp.Keys == {TIMER0_CCHP, TIMER7_CCHP} && hold.Keys == {GD32_HOLD.addr, MM32_HOLD.addr}
    }

    /** The row's timers, and nothing else, may be touched. */
    ghost predicate Within(before: set<int>)
      reads this
    {
      touched <= before + set t | t in LineOf(id).timers
    }

    ghost predicate Disarmed()
      reads this
    {
      !AnyMoe(cchp, LineOf(id).timers)
    }

    constructor (id: Identity, stuck: bool, neverHalts: bool, armed0: Cchp, armed7: Cchp, halted: bool)
      ensures Valid() && this.id == id && this.halted == halted && touched == {}
    {
      this.id, this.stuck, this.neverHalts := id, stuck, neverHalts;
      cchp := map[TIMER0_CCHP := armed0, TIMER7_CCHP := armed7];
      hold := map[GD32_HOLD.addr := {}, MM32_HOLD.addr := {}];
      vcatch, this.halted, now, touched := false, halted, 0, {};
    }

    /** Time passes between two accesses. A running core does anything it likes to the timers, the hold and the vector
        catch, and may come to a halt; a halted one does nothing. */
    method Elapse()
      requires Valid()
      modifies this`cchp, this`hold, this`vcatch, this`halted, this`now
      ensures Valid() && now >= old(now)
      ensures old(halted) ==> halted && cchp == old(cchp) && hold == old(hold) && vcatch == old(vcatch)
    {
      var t: nat :| t >= now;
      now := t;
      if !halted {
        var a: Cchp, b: Cchp := *, *;
        var h: set<nat>, k: set<nat> := *, *;
        cchp := map[TIMER0_CCHP := a, TIMER7_CCHP := b];
        hold := map[GD32_HOLD.addr := h, MM32_HOLD.addr := k];
        vcatch, halted := *, *;
      }
    }

    /** One has been asked for since, the last with each of the line's timers last seen off and its hold last seen set. */
    ghost predicate AskedSafely(before: nat)
      reads this
    {
      && ask.times > before && (forall t :: t in LineOf(id).timers ==> t in ask.off)
      && (LineOf(id).hold.Some? ==> var h := LineOf(id).hold.value; h.addr in ask.bits && h.bits <= ask.bits[h.addr])
    }

    // ---- accesses ----

    method ReadCchp(t: int) returns (v: Cchp)
      requires Valid() && t in cchp
      modifies this
      ensures Valid() && v == old(cchp)[t] && touched == old(touched) + {t} && now >= old(now)
      ensures readAt == old(readAt) && clearedAt == old(clearedAt) && next == Or(old(next), t)
      ensures off == (if v.moe then old(off) - {t} else old(off) + {t}) && bits == old(bits) && ask == old(ask)
      ensures old(halted) ==> halted && cchp == old(cchp) && hold == old(hold) && vcatch == old(vcatch)
    {
      off, next := if cchp[t].moe then off - {t} else off + {t}, Or(next, t);
      v, touched := cchp[t], touched + {t};
      Elapse();
    }

    method WriteCchp(t: int, v: Cchp)
      requires Valid() && t in cchp
      modifies this
      ensures Valid() && touched == old(touched) + {t} && now >= old(now)
      ensures readAt == old(readAt) && clearedAt == (if v.moe then old(clearedAt) else now) && next == Or(old(next), t)
      ensures off == old(off) - {t} && bits == old(bits) && ask == old(ask)
      ensures old(halted) ==> halted && hold == old(hold) && vcatch == old(vcatch)
      ensures old(halted) ==> cchp == old(cchp)[t := Took(stuck, old(cchp)[t], v)]
    {
      TakeCchp(t, v);
      hide Took, Or;
      Elapse();
      clearedAt := if v.moe then clearedAt else now;
    }

    method TakeCchp(t: int, v: Cchp)
      requires Valid() && t in cchp
      modifies this`cchp, this`touched, this`off, this`next
      ensures Valid() && cchp == old(cchp)[t := Took(stuck, old(cchp)[t], v)]
      ensures touched == old(touched) + {t} && off == old(off) - {t} && next == Or(old(next), t)
    {
      cchp := cchp[t := Took(stuck, cchp[t], v)];
      touched, off, next := touched + {t}, off - {t}, Or(next, t);
    }

    method ReadHalted() returns (h: bool)
      requires Valid()
      modifies this
      ensures Valid() && h == old(halted) && touched == old(touched) && now >= old(now)
      ensures readAt == now && next == None && polls == old(polls) + 1 && off == old(off) && bits == old(bits) && ask == old(ask)
      ensures old(halted) ==> halted && cchp == old(cchp) && hold == old(hold) && vcatch == old(vcatch)
    {
      h := halted;
      Elapse();
      readAt, polls, next := now, polls + 1, None;
    }

    /** The debug control register, with halting debug enabled: without the halt bit the core runs on, with it the core
        comes to a halt in its own time. */
    method WriteDhcsr(halt: bool)
      requires Valid()
      modifies this
      ensures Valid() && touched == old(touched) && now >= old(now) && off == old(off) && bits == old(bits)
      ensures ask == if halt then Ask(old(ask).times + 1, off, bits) else old(ask)
      ensures halt && old(halted) ==> halted && cchp == old(cchp) && hold == old(hold) && vcatch == old(vcatch)
    {
      halted := halted && halt;
      if halt {
        ask := Ask(ask.times + 1, off, bits);
      }
      Elapse();
    }

    method ReadVcatch() returns (v: bool)
      requires Valid()
      modifies this
      ensures Valid() && touched == old(touched) && now >= old(now) && off == old(off) && bits == old(bits) && ask == old(ask)
      ensures old(halted) ==> halted && cchp == old(cchp) && hold == old(hold) && vcatch == old(vcatch) && v == vcatch
    {
      v := vcatch;
      Elapse();
    }

    method WriteVcatch(v: bool)
      requires Valid()
      modifies this
      ensures Valid() && touched == old(touched) && now >= old(now) && off == old(off) && bits == old(bits) && ask == old(ask)
      ensures old(halted) ==> halted && cchp == old(cchp) && hold == old(hold) && vcatch == v
    {
      vcatch := v;
      Elapse();
    }

    /** The system reset: the timers' registers clear, and the core runs unless the vector catch holds it. */
    method Reset()
      requires Valid()
      modifies this
      ensures Valid() && touched == old(touched) && now >= old(now)
      ensures ask == Ask(old(ask).times + 1, old(off), old(bits))
      ensures old(vcatch) && !neverHalts ==> halted && !AnyMoe(cchp, [TIMER0_CCHP, TIMER7_CCHP]) && hold == old(hold) && vcatch
    {
      cchp := map[TIMER0_CCHP := Cchp(false, 0), TIMER7_CCHP := Cchp(false, 0)];
      halted := vcatch && !neverHalts;
      ask := Ask(ask.times + 1, off, bits);
      Elapse();
    }

    method ReadHold(a: int) returns (v: set<nat>)
      requires Valid() && a in hold
      modifies this
      ensures Valid() && v == old(hold)[a] && touched == old(touched) && now >= old(now)
      ensures off == old(off) && bits == old(bits)[a := v] && ask == old(ask)
      ensures old(halted) ==> halted && cchp == old(cchp) && hold == old(hold) && vcatch == old(vcatch)
    {
      v := hold[a];
      bits := bits[a := v];
      Elapse();
    }

    method WriteHold(a: int, v: set<nat>)
      requires Valid() && a in hold
      modifies this
      ensures Valid() && touched == old(touched) && now >= old(now)
      ensures off == old(off) && bits == old(bits)[a := v] && ask == old(ask)
      ensures old(halted) ==> halted && cchp == old(cchp) && hold == old(hold)[a := v] && vcatch == old(vcatch)
    {
      hold, bits := hold[a := v], bits[a := v];
      Elapse();
    }

    /** The identifying reads: none of them is a timer's. */
    method PickLine() returns (l: Line)
      requires Valid()
      modifies this
      ensures Valid() && l == LineOf(id) && touched == old(touched) && now >= old(now)
      ensures readAt == old(readAt) && clearedAt == old(clearedAt) && off == old(off) && bits == old(bits) && ask == old(ask)
      ensures next == Or(old(next), 0)
      ensures old(halted) ==> halted && cchp == old(cchp) && hold == old(hold) && vcatch == old(vcatch)
    {
      next := Or(next, 0);
      Elapse();
      if id.partno == PARTNO_M3 {
        var kib := id.flashKib;
        Elapse();
        var family := if id.uidAllOnes then FAMILY_F1X0 else FAMILY_F10X;
        Elapse();
        l := Line(Some(GD32_HOLD), RowTimers(Lookup(family, kib)));
      } else if id.partno == PARTNO_M0 {
        var row := LookupM0(id.m0Id);
        Elapse();
        l := Line(if row.Some? then Some(MM32_HOLD) else None, RowTimers(row));
      } else {
        l := Line(None, TIMER0_ONLY);
      }
    }

    // ---- disarming ----

    method AnyArmed(ts: seq<int>) returns (armed: bool)
      requires Valid() && forall j :: 0 <= j < |ts| ==> ts[j] == TIMER0_CCHP || ts[j] == TIMER7_CCHP
      modifies this
      ensures Valid() && touched <= old(touched) + (set t | t in ts) && now >= old(now)
      ensures old(halted) ==> halted && cchp == old(cchp) && hold == old(hold) && vcatch == old(vcatch)
      ensures old(halted) ==> armed == AnyMoe(cchp, ts)
      ensures (!armed ==> forall t :: t in ts ==> t in off) && bits == old(bits) && ask == old(ask)
    {
      var i := 0;
      while i < |ts|
        invariant 0 <= i <= |ts| && Valid() && touched <= old(touched) + (set t | t in ts) && now >= old(now)
        invariant old(halted) ==> halted && cchp == old(cchp) && hold == old(hold) && vcatch == old(vcatch)
        invariant old(halted) ==> !AnyMoe(cchp, ts[..i])
        invariant (forall t :: t in ts[..i] ==> t in off) && bits == old(bits) && ask == old(ask)
      {
        assert ts[i] in ts;
        ClearedNext(cchp, ts, i, stuck);
        var v := ReadCchp(ts[i]);
        if v.moe {
          return true;
        }
        i := i + 1;
      }
      assert ts[..i] == ts;
      armed := false;
    }

    /** One timer's outputs off, and the answer whether they were on. */
    method ClearMoe(t: int) returns (was: bool)
      requires Valid() && t in cchp
      modifies this
      ensures Valid() && touched == old(touched) + {t} && now >= old(now)
      ensures next == Or(old(next), t)
      ensures readAt == old(readAt) && clearedAt == (if was then now else old(clearedAt)) && bits == old(bits) && ask == old(ask)
      ensures old(halted) ==> halted && hold == old(hold) && vcatch == old(vcatch)
      ensures old(halted) ==> was == old(cchp)[t].moe && cchp == Cleared(old(cchp), [t], stuck)
    {
      var v := ReadCchp(t);
      if !v.moe {
        return false;
      }
      WriteCchp(t, v.(moe := false));
      was := true;
    }

    /** Clear `MOE` on every timer of `ts` and read it back. On a halted core it succeeds exactly when nothing was
        armed or the clear takes, and changes nothing but the `MOE` bits. */
    method DisarmTimers(ts: seq<int>) returns (r: Result)
      requires Valid() && forall j :: 0 <= j < |ts| ==> ts[j] == TIMER0_CCHP || ts[j] == TIMER7_CCHP
      modifies this
      ensures Valid() && touched <= old(touched) + (set t | t in ts) && now >= old(now)
      ensures r.Done? || r.Armed?
      ensures (r.Done? ==> forall t :: t in ts ==> t in off) && bits == old(bits) && ask == old(ask)
      ensures old(halted) ==> halted && hold == old(hold) && vcatch == old(vcatch) && cchp == Cleared(old(cchp), ts, stuck)
      ensures old(halted) ==> (r.Done? <==> !AnyMoe(cchp, ts)) && (r.Armed? <==> stuck && AnyMoe(old(cchp), ts))
    {
      var i := 0;
      while i < |ts|
        invariant 0 <= i <= |ts| && Valid() && touched <= old(touched) + (set t | t in ts) && now >= old(now)
        invariant old(halted) ==> halted && hold == old(hold) && vcatch == old(vcatch)
        invariant old(halted) ==> cchp == Cleared(old(cchp), ts[..i], stuck)
        invariant bits == old(bits) && ask == old(ask)
      {
        assert ts[i] in ts;
        ClearedNext(old(cchp), ts, i, stuck);
        var was := ClearMoe(ts[i]);
        i := i + 1;
      }
      assert ts[..|ts|] == ts;
      ClearedIsDisarmed(old(cchp), ts, stuck);
      var armed := AnyArmed(ts);
      r := if armed then Armed else Done;
    }

    method SetHold(h: Option<Hold>)
      requires Valid() && (h.Some? ==> h.value.addr in hold)
      modifies this
      ensures Valid() && touched == old(touched) && now >= old(now) && off == old(off) && ask == old(ask)
      ensures h.Some? ==> h.value.addr in bits && h.value.bits <= bits[h.value.addr]
      ensures old(halted) ==> halted && cchp == old(cchp) && vcatch == old(vcatch) && hold == WithHold(h, old(hold))
    {
      if h.None? {
        return;
      }
      var v := ReadHold(h.value.addr);
      if !(h.value.bits <= v) {
        WriteHold(h.value.addr, v + h.value.bits);
      } else {
        assert v + h.value.bits == v;
      }
    }

    method WaitHalted() returns (ok: bool)
      requires Valid()
      modifies this
      ensures Valid() && touched == old(touched) && now >= old(now) && (ok ==> halted) && ask == old(ask)
      ensures !ok ==> polls == old(polls) + 100
      ensures old(halted) ==> ok && halted && cchp == old(cchp) && hold == old(hold) && vcatch == old(vcatch)
    {
      var i := 0;
      while i < HALT_POLLS
        invariant 0 <= i <= HALT_POLLS && polls == old(polls) + i && ask == old(ask) && Valid() && touched == old(touched) && now >= old(now)
        invariant old(halted) ==> i == 0 && halted && cchp == old(cchp) && hold == old(hold) && vcatch == old(vcatch)
      {
        var h := ReadHalted();
        if h {
          return true;
        }
        i := i + 1;
      }
      ok := false;
    }

    /** The firmware may arm a timer at any moment up to the halt, so the disarm before it promises nothing and the one after
        it everything: success means a halted core with each listed timer off. No halt is asked for but with each of them last
        seen off and the hold last seen set. */
    method Halt() returns (r: Result)
      requires Valid()
      modifies this
      ensures Valid() && Within(old(touched))
      ensures r.Done? ==> halted && Disarmed()
      ensures old(halted) ==> halted && !r.Timeout? && (r.Done? <==> Disarmed())
      ensures old(halted) ==> cchp == Cleared(old(cchp), LineOf(id).timers, stuck)
      ensures old(halted) && r.Done? ==> RowHeld(id, old(hold), hold)
      ensures ask == old(ask) || AskedSafely(old(ask).times)
      ensures r.Done? || r.Timeout? ==> AskedSafely(old(ask).times)
    {
      HoldIsTheRows(id, hold);
      ClearedTwice(cchp, LineOf(id).timers, stuck);
      ClearedIsDisarmed(cchp, LineOf(id).timers, stuck);
      hide Cleared, AnyMoe, RowHeld, WithHold;
      var l := PickLine();
      r := DisarmTimers(l.timers);
      if !r.Done? {
        return;
      }
      SetHold(l.hold);
      WriteDhcsr(true);
      var ok := WaitHalted();
      if !ok {
        return Timeout;
      }
      r := DisarmTimers(l.timers);
    }

    /** The same through a reset that no instruction follows. Success means a halted core with each listed timer off, and the
        next reset is not caught. The reset too is asked for only with each of them last seen off and the hold last seen
        set. */
    method ResetHalt() returns (r: Result)
      requires Valid()
      modifies this
      ensures Valid() && Within(old(touched))
      ensures r.Done? ==> halted && Disarmed() && !vcatch
      ensures old(halted) && !neverHalts ==> !r.Timeout? && (r.Armed? <==> stuck && AnyMoe(old(cchp), LineOf(id).timers))
      ensures old(halted) && !neverHalts && r.Done? ==> RowHeld(id, old(hold), hold)
      ensures ask == old(ask) || AskedSafely(old(ask).times)
      ensures r.Done? || r.Timeout? ==> AskedSafely(old(ask).times)
    {
      HoldIsTheRows(id, hold);
      ClearedIsDisarmed(cchp, LineOf(id).timers, stuck);
      hide Cleared, RowHeld, WithHold;
      var l := PickLine();
      r := DisarmTimers(l.timers);
      if !r.Done? {
        return;
      }
      SetHold(l.hold);
      var h := ReadHalted();
      WriteDhcsr(h);
      var ok := CatchReset();
      if !ok {
        return Timeout;
      }
      r := DisarmTimers(l.timers);
    }

    /** The reset with the vector catch set, and cleared again whether the core stopped or not. */
    method CatchReset() returns (ok: bool)
      requires Valid()
      modifies this
      ensures Valid() && touched == old(touched) && now >= old(now)
      ensures ok ==> halted && !vcatch
      ensures ask == Ask(old(ask).times + 1, old(off), old(bits))
      ensures old(halted) && !neverHalts ==> ok && !AnyMoe(cchp, [TIMER0_CCHP, TIMER7_CCHP]) && hold == old(hold)
    {
      var v := ReadVcatch();
      WriteVcatch(true);
      Reset();
      ok := WaitHalted();
      WriteVcatch(false);
    }

    /** A breakpoint's halt, when there is one: timer 0 first, then the part's others. A time is reported exactly when some
        timer of the row was armed, counted from when the halt was seen to when the last of them was off, and nothing but
        `MOE` bits has changed. */
    method PollHalt() returns (p: HaltPoll)
      requires Valid()
      modifies this
      ensures Valid() && Within(old(touched))
      ensures p.Halted? <==> old(halted)
      ensures p.Halted? ==> next == Some(0x4001_2C44)
      ensures p.Halted? ==> halted && cchp == Cleared(old(cchp), LineOf(id).timers, stuck)
      ensures p.Halted? ==> (p.moeClearUs.Some? <==> AnyMoe(old(cchp), LineOf(id).timers))
      ensures p.Halted? && p.moeClearUs.Some? ==>
                p.moeClearUs.value == if clearedAt - readAt < 0x1_0000_0000 then clearedAt - readAt else 0xFFFF_FFFF
    {
      var h := ReadHalted();
      if !h {
        return Running;
      }
      var seen := now;
      var cleared: Option<nat> := None;
      var was := ClearMoe(TIMER0_CCHP);
      if was {
        cleared := Some(now);
      }
      var l := PickLine();
      assert l.timers[..1] == [TIMER0_CCHP];
      cleared := ClearOthers(l.timers, cleared, seen, old(cchp));
      if cleared.Some? {
        cleared := Some(if cleared.value - seen < U32_MAX then cleared.value - seen else U32_MAX);
      }
      p := Halted(cleared);
    }

    /** The timers after the first, which is cleared already; the time of the last clear there was. */
    method ClearOthers(ts: seq<int>, first: Option<nat>, seen: nat, ghost before: map<int, Cchp>) returns (last: Option<nat>)
      requires Valid() && halted && seen <= now && 1 <= |ts| && before.Keys == cchp.Keys
      requires forall j :: 0 <= j < |ts| ==> ts[j] == TIMER0_CCHP || ts[j] == TIMER7_CCHP
      requires cchp == Cleared(before, ts[..1], stuck)
      requires (first.Some? <==> AnyMoe(before, ts[..1])) && (first.Some? ==> seen <= first.value == clearedAt <= now)
      requires seen == readAt && next.Some?
      modifies this
      ensures seen == readAt && next == old(next)
      ensures Valid() && halted && touched <= old(touched) + (set t | t in ts) && now >= old(now)
      ensures cchp == Cleared(before, ts, stuck)
      ensures (last.Some? <==> AnyMoe(before, ts)) && (last.Some? ==> seen <= last.value == clearedAt <= now)
    {
      hide Cleared, AnyMoe;
      var i := 1;
      last := first;
      while i < |ts|
        invariant 1 <= i <= |ts| && Valid() && halted && now >= old(now)
        invariant touched <= old(touched) + (set t | t in ts)
        invariant cchp == Cleared(before, ts[..i], stuck)
        invariant (last.Some? <==> AnyMoe(before, ts[..i])) && (last.Some? ==> seen <= last.value == clearedAt <= now)
        invariant seen == readAt && next == old(next)
      {
        ClearedNext(before, ts, i, stuck);
        var was := ClearMoe(ts[i]);
        if was {
          last := Some(now);
        }
        i := i + 1;
      }
      assert ts[..i] == ts;
    }
  }
}
