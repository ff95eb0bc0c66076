/** The bridge's two app slots: an update into the one not running, and the boot loader's rollback. */
module Rollback {
  import opened Bytes
  import opened Parts

  const SECTOR := 4096

  datatype OtaState = New | PendingVerify | Valid | Aborted

  datatype Status = Done | TooLarge | BadRequest

  /** Two slots, one of them booted, either of them perhaps an update's target; `selected` is what the boot loader reads. */
  datatype Platform = Platform(slots: seq<seq<Byte>>, selected: Option<(nat, OtaState)>, booted: nat, target: Option<nat>)

  datatype Event =
    | Begin(len: nat)
    | Erase(off: nat)
    | Write(off: nat, data: seq<Byte>)
    | Activate
    | Confirm
    | Reset

  // ---- operations ----

  /** What each answers. */
  function Answer(p: Platform, e: Event): Status
    requires Wf(p)
  {
    match e
    case Begin(len) => if len > |p.slots[0]| then TooLarge else Done
    case Erase(off) => if p.target.None? || off % SECTOR != 0 || off >= |p.slots[0]| then BadRequest else Done
    case Write(off, data) =>
      if p.target.None? || off % SECTOR != 0 || |data| > SECTOR || off + |data| > |p.slots[0]| then BadRequest else Done
    case Activate => if p.target.None? then BadRequest else Done
    case _ => Done
  }

  function Anded(slot: seq<Byte>, off: nat, data: seq<Byte>): (r: seq<Byte>)
    requires off + |data| <= |slot|
    ensures |r| == |slot|
  {
    seq(|slot|, i requires 0 <= i < |slot| => if off <= i < off + |data| then And(slot[i], data[i - off]) else slot[i])
  }

  function SectorEnd(slot: seq<Byte>, off: nat): (end: nat)
    requires off <= |slot|
    ensures off <= end <= |slot|
  {
    if off + SECTOR < |slot| then off + SECTOR else |slot|
  }

  /** What the boot loader makes of the selection: a trial not confirmed is over, and a fresh image gets its one trial. */
  function Booted(p: Platform): Platform {
    var q := if p.selected.Some? && p.selected.value.1.PendingVerify? then p.(selected := Some((p.selected.value.0, Aborted))) else p;
    var r := match q.selected
      case None => q.(booted := 0)
      case Some(s) =>
        if s.1.Aborted? then q.(booted := if s.0 == 0 then 1 else 0)
        else if s.1.New? then q.(booted := s.0, selected := Some((s.0, PendingVerify)))
        else q.(booted := s.0);
    r.(target := None)
  }

  function Step(p: Platform, e: Event): Platform
    requires Wf(p)
  {
    if !Answer(p, e).Done? then p
    else
      match e
      case Begin(_) => p.(target := Some(1 - p.booted))
      case Erase(off) =>
        var t := p.target.value;
        p.(slots := p.slots[t := Fill(p.slots[t], off, SectorEnd(p.slots[t], off), 0xFF)])
      case Write(off, data) =>
        var t := p.target.value;
        p.(slots := p.slots[t := Anded(p.slots[t], off, data)])
      case Activate => p.(selected := Some((p.target.value, New)))
      case Confirm =>
        if p.selected == Some((p.booted, PendingVerify)) then p.(selected := Some((p.booted, Valid))) else p
      case Reset => Booted(p)
  }

  // ---- what every run keeps ----

  predicate Wf(p: Platform) {
    && |p.slots| == 2 && |p.slots[0]| == |p.slots[1]| && p.booted <= 1
    && (p.target.Some? ==> p.target.value == 1 - p.booted)
    && match p.selected
       case None => p.booted == 0
       case Some(s) => s.0 == if s.1.New? || s.1.Aborted? then 1 - p.booted else p.booted
  }

  function Run(p: Platform, events: seq<Event>): (r: Platform)
    requires Wf(p)
    ensures Wf(r)
  {
    if events == [] then p
    else
      var q := Run(p, events[..|events| - 1]);
      StepKeeps(q, events[|events| - 1]);
      Step(q, events[|events| - 1])
  }

  lemma StepKeeps(p: Platform, e: Event)
    requires Wf(p)
    ensures Wf(Step(p, e))
  {
    hide Fill, Anded;
  }

  predicate Without(events: seq<Event>, kind: Event -> bool) {
    forall i :: 0 <= i < |events| ==> !kind(events[i])
  }

  /** Nothing but a reset changes the slot that runs, and nothing at all is written to it meanwhile. */
  lemma {:induction false} RunningSlotSafe(p: Platform, events: seq<Event>)
    requires Wf(p) && Without(events, (e: Event) => e.Reset?)
    ensures var r := Run(p, events); r.booted == p.booted && r.slots[p.booted] == p.slots[p.booted]
  {
    if events != [] {
      RunningSlotSafe(p, events[..|events| - 1]);
      hide Fill, Anded;
    }
  }

  /** A new image selected and waiting for its first boot. */
  predicate Chosen(p: Platform) {
    p.selected == Some((1 - p.booted, New))
  }

  lemma {:induction false} ChosenStays(p: Platform, events: seq<Event>)
    requires Wf(p) && Chosen(p) && Without(events, (e: Event) => e.Reset?)
    ensures Chosen(Run(p, events)) && Run(p, events).booted == p.booted && Run(p, events).slots[p.booted] == p.slots[p.booted]
  {
    if events != [] {
      ChosenStays(p, events[..|events| - 1]);
      hide Fill, Anded;
    }
  }

  /** A new image on trial: running and unconfirmed. */
  predicate OnTrial(p: Platform) {
    p.selected == Some((p.booted, PendingVerify))
  }

  lemma {:induction false} RunAppend(p: Platform, a: seq<Event>, b: seq<Event>)
    requires Wf(p)
    ensures Run(p, a + b) == Run(Run(p, a), b)
  {
    hide Wf, Step;
    if b == [] {
      assert a + b == a;
    } else {
      RunAppend(p, a, b[..|b| - 1]);
      assert (a + b)[..|a + b| - 1] == a + b[..|b| - 1];
    }
  }

  lemma RunOne(p: Platform, e: Event)
    requires Wf(p)
    ensures Run(p, [e]) == Step(p, e)
  {
    assert [e][..0] == [];
  }

  /** Without a confirmation a trial is never settled: it stays on trial, or another image has been activated in the other
      slot. */
  lemma {:induction false} TrialUnsettled(p: Platform, trial: seq<Event>)
    requires Wf(p) && OnTrial(p) && Without(trial, (e: Event) => e.Reset? || e.Confirm?)
    ensures var r := Run(p, trial);
            && r.booted == p.booted && (OnTrial(r) || Chosen(r))
            && (Without(trial, (e: Event) => e.Activate?) ==> OnTrial(r))
  {
    if trial != [] {
      TrialUnsettled(p, trial[..|trial| - 1]);
      hide Fill, Anded;
    }
  }

  /** So whatever else happens on trial, its reset runs the other slot, and the image on trial is aborted unless another
      activation has taken its place. */
  lemma TrialEnds(p: Platform, trial: seq<Event>)
    requires Wf(p) && OnTrial(p) && Without(trial, (e: Event) => e.Reset? || e.Confirm?)
    ensures var r := Step(Run(p, trial), Reset);
            && r.booted == 1 - p.booted
            && (Without(trial, (e: Event) => e.Activate?) ==> r.selected == Some((p.booted, Aborted)))
  {
    TrialUnsettled(p, trial);
  }

  /** With no update under way and none begun, nothing is written at all. */
  lemma {:induction false} NoTargetNoWrite(p: Platform, events: seq<Event>)
    requires Wf(p) && p.target.None? && Without(events, (e: Event) => e.Begin?)
    ensures Run(p, events).slots == p.slots && Run(p, events).target.None?
  {
    if events != [] {
      NoTargetNoWrite(p, events[..|events| - 1]);
      hide Fill, Anded;
    }
  }

  /** With one under way, an erase of the first sector or the write after it changes the other slot's first byte. */
  lemma TargetOverwrites(p: Platform) returns (events: seq<Event>)
    requires Wf(p) && p.target.Some? && |p.slots[0]| > 0
    ensures Without(events, (e: Event) => e.Reset? || e.Confirm? || e.Begin? || e.Activate?)
    ensures Run(p, events).slots[1 - p.booted] != p.slots[1 - p.booted]
  {
    var t, erased := 1 - p.booted, Step(p, Erase(0));
    RunOne(p, Erase(0));
    StepKeeps(p, Erase(0));
    assert erased.slots[t][0] == 0xFF;
    if p.slots[t][0] == 0xFF {
      events := [Erase(0), Write(0, [0])];
      RunAppend(p, [Erase(0)], [Write(0, [0])]);
      assert [Erase(0)] + [Write(0, [0])] == events;
      RunOne(erased, Write(0, [0]));
      assert Step(erased, Write(0, [0])).slots[t][0] == And(0xFF, 0) == 0;
    } else {
      events := [Erase(0)];
    }
  }

  predicate Quiet(events: seq<Event>) {
    Without(events, (e: Event) => e.Reset? || e.Confirm? || e.Begin?)
  }

  /** The slot to fall back to keeps its bytes through every trial that begins no update exactly when none is under way as
      the trial starts. */
  lemma FallbackSafeIff(p: Platform)
    requires Wf(p) && OnTrial(p) && |p.slots[0]| > 0
    ensures (forall events :: Quiet(events) ==> Run(p, events).slots[1 - p.booted] == p.slots[1 - p.booted]) <==> p.target.None?
  {
    if p.target.None? {
      forall events | Quiet(events)
        ensures Run(p, events).slots[1 - p.booted] == p.slots[1 - p.booted]
      {
        NoTargetNoWrite(p, events);
      }
    } else {
      var events := TargetOverwrites(p);
      assert Quiet(events);
    }
  }

  /** An image activated and never confirmed: the first reset runs it with no update under way, and whatever happens before
      the second, that one is back in the slot that was running. Its bytes are the same when the trial begins no update. */
  lemma UnconfirmedRollsBack(p: Platform, before: seq<Event>, trial: seq<Event>)
    requires Wf(p) && p.target.Some?
    requires Without(before, (e: Event) => e.Reset?) && Without(trial, (e: Event) => e.Reset? || e.Confirm?)
    ensures var q := Step(Run(Step(p, Activate), before), Reset);
            && q.booted == 1 - p.booted && OnTrial(q) && q.target.None?
            && var r := Step(Run(q, trial), Reset);
               && r.booted == p.booted
               && (Without(trial, (e: Event) => e.Activate?) ==> r.selected == Some((1 - p.booted, Aborted)))
               && (Without(trial, (e: Event) => e.Begin?) ==> r.slots[p.booted] == p.slots[p.booted])
  {
    StepKeeps(p, Activate);
    var a := Run(Step(p, Activate), before);
    ChosenStays(Step(p, Activate), before);
    var q := Step(a, Reset);
    StepKeeps(a, Reset);
    TrialEnds(q, trial);
    if Without(trial, (e: Event) => e.Begin?) {
      NoTargetNoWrite(q, trial);
    }
  }

  lemma RunThree(p: Platform, a: Event, b: Event, c: Event)
    requires Wf(p)
    ensures Wf(Step(p, a)) && Wf(Step(Step(p, a), b)) && Run(p, [a, b, c]) == Step(Step(Step(p, a), b), c)
  {
    hide Step;
    StepKeeps(p, a);
    StepKeeps(Step(p, a), b);
    assert [a] + [b, c] == [a, b, c] && [b] + [c] == [b, c];
    RunAppend(p, [a], [b, c]);
    RunAppend(Step(p, a), [b], [c]);
    RunOne(p, a);
    RunOne(Step(p, a), b);
    RunOne(Step(Step(p, a), b), c);
    hide Run, Wf;
  }

  /** An update begun, activated and booted, with nothing written: the other slot on trial. */
  lemma FirstBoot(p: Platform)
    requires Wf(p)
    ensures var q := Run(p, [Begin(0), Activate, Reset]); OnTrial(q) && q.target.None? && q.booted == 1 - p.booted && q.slots == p.slots
  {
    var b := p.(target := Some(1 - p.booted));
    var a := b.(selected := Some((1 - p.booted, New)));
    assert Step(p, Begin(0)) == b;
    assert Step(b, Activate) == a;
    assert Booted(a) == p.(booted := 1 - p.booted, selected := Some((1 - p.booted, PendingVerify)), target := None);
    assert Step(a, Reset) == Booted(a);
    hide Step, Booted, Run;
    RunThree(p, Begin(0), Activate, Reset);
  }

  /** Without that the bytes are not safe, on any platform: begin an update, activate it and reset, and a trial that begins
      another can overwrite the slot the second reset goes back to. */
  lemma BeginOnTrialOverwrites(p: Platform) returns (trial: seq<Event>)
    requires Wf(p) && |p.slots[0]| > 0
    ensures Without(trial, (e: Event) => e.Reset? || e.Confirm?)
    ensures var q := Run(p, [Begin(0), Activate, Reset]);
            && OnTrial(q) && q.slots == p.slots
            && var r := Step(Run(q, trial), Reset); r.booted == p.booted && r.slots[p.booted] != p.slots[p.booted]
  {
    FirstBoot(p);
    hide Run, Step;
    trial := OverwriteOnTrial(Run(p, [Begin(0), Activate, Reset]));
  }

  lemma OverwriteOnTrial(q: Platform) returns (trial: seq<Event>)
    requires Wf(q) && OnTrial(q) && |q.slots[0]| > 0
    ensures Without(trial, (e: Event) => e.Reset? || e.Confirm?)
    ensures var r := Step(Run(q, trial), Reset); Wf(r) && r.booted == 1 - q.booted && r.slots[r.booted] != q.slots[r.booted]
  {
    var again := q.(target := Some(1 - q.booted));
    RunOne(q, Begin(0));
    assert Run(q, [Begin(0)]) == again && Wf(again);
    hide Run;
    var events := TargetOverwrites(again);
    trial := [Begin(0)] + events;
    RunAppend(q, [Begin(0)], events);
    hide Wf;
    TrialEnds(q, trial);
    ResetKeepsSlots(Run(q, trial));
    hide Step;
  }

  lemma ResetKeepsSlots(p: Platform)
    requires Wf(p)
    ensures Wf(Step(p, Reset)) && Step(p, Reset).slots == p.slots
  {
  }

  /** The slot that runs is the one every reset boots. */
  predicate Settled(p: Platform) {
    p.selected.None? || p.selected == Some((p.booted, Valid)) || p.selected == Some((1 - p.booted, Aborted))
  }

  /** A confirmed image, and one rolled back to, stays booted through any number of resets until the next activation, and
      no step writes it. */
  lemma {:induction false} ConfirmedStays(p: Platform, events: seq<Event>)
    requires Wf(p) && Settled(p) && Without(events, (e: Event) => e.Activate?)
    ensures var r := Run(p, events); Settled(r) && r.booted == p.booted && r.slots[p.booted] == p.slots[p.booted]
  {
    if events != [] {
      ConfirmedStays(p, events[..|events| - 1]);
      SettledStep(Run(p, events[..|events| - 1]), events[|events| - 1]);
      hide Fill, Anded, Wf, Step, Settled;
    }
  }

  lemma SettledStep(p: Platform, e: Event)
    requires Wf(p) && Settled(p) && !e.Activate?
    ensures var r := Step(p, e); Settled(r) && r.booted == p.booted && r.slots[p.booted] == p.slots[p.booted]
  {
    hide Fill, Anded;
  }

  /** Confirming is what settles an image on trial. */
  lemma ConfirmSettles(p: Platform)
    requires Wf(p) && OnTrial(p)
    ensures Settled(Step(p, Confirm)) && Step(p, Confirm).booted == p.booted && !Settled(p)
  {
  }

  // ---- what is refused, and what a step touches ----

  /** A step is refused exactly where there is no update to go on with, or it does not keep to the slot's sectors; a refused
      one changes nothing. */
  lemma RefusedIff(p: Platform, len: nat, off: nat, data: seq<Byte>)
    requires Wf(p)
    ensures Answer(p, Begin(len)).Done? <==> len <= |p.slots[0]|
    ensures Answer(p, Erase(off)).Done? <==> p.target.Some? && off % 4096 == 0 && off < |p.slots[0]|
    ensures Answer(p, Write(off, data)).Done? <==> p.target.Some? && off % 4096 == 0 && |data| <= 4096 && off + |data| <= |p.slots[0]|
    ensures Answer(p, Activate).Done? <==> p.target.Some?
    ensures !Answer(p, Begin(len)).Done? ==> Step(p, Begin(len)) == p
    ensures !Answer(p, Erase(off)).Done? ==> Step(p, Erase(off)) == p
    ensures !Answer(p, Write(off, data)).Done? ==> Step(p, Write(off, data)) == p
    ensures !Answer(p, Activate).Done? ==> Step(p, Activate) == p
  {
  }

  /** An erase makes its own sector all ones and touches no other byte; a write touches its own bytes alone and sets no bit in
      them: each has every bit both have and no other. */
  lemma TouchesItsOwn(p: Platform, off: nat, data: seq<Byte>, i: nat)
    requires Wf(p) && p.target.Some? && i < |p.slots[0]|
    ensures var t, e := 1 - p.booted, Step(p, Erase(off)).slots;
            |e[t]| == |p.slots[t]| && e[p.booted] == p.slots[p.booted]
            && (Answer(p, Erase(off)).Done? ==> e[t][i] == if off <= i < off + 4096 then 0xFF else p.slots[t][i])
    ensures var t, w := 1 - p.booted, Step(p, Write(off, data)).slots;
            |w[t]| == |p.slots[t]| && w[p.booted] == p.slots[p.booted]
            && (Answer(p, Write(off, data)).Done? ==>
                  if off <= i < off + |data| then
                    && Subset(w[t][i], p.slots[t][i]) && Subset(w[t][i], data[i - off])
                    && forall x: Byte :: Subset(x, p.slots[t][i]) && Subset(x, data[i - off]) ==> Subset(x, w[t][i])
                  else w[t][i] == p.slots[t][i])
  {
    if Answer(p, Write(off, data)).Done? && off <= i < off + |data| {
      var a, b := p.slots[1 - p.booted][i], data[i - off];
      AndInside(a, b);
      forall x: Byte | Subset(x, a) && Subset(x, b)
        ensures Subset(x, And(a, b))
      {
        IntoAnd(x, a, b);
      }
    }
    hide And, Subset;
  }

  // ---- an update ----

  /** The first `n` sectors of an image, each erased and then written. */
  function Sectors(image: seq<Byte>, n: nat): (events: seq<Event>)
    requires n > 0 ==> (n - 1) * 4096 < |image|
  {
    if n == 0 then []
    else
      var at := (n - 1) * 4096;
      Sectors(image, n - 1) + [Erase(at), Write(at, image[at..if at + 4096 < |image| then at + 4096 else |image|])]
  }

  lemma AndedBlank(slot: seq<Byte>, off: nat, data: seq<Byte>)
    requires off + |data| <= |slot| && forall i :: off <= i < off + |data| ==> slot[i] == 0xFF
    ensures forall i :: 0 <= i < |slot| ==> Anded(slot, off, data)[i] == if off <= i < off + |data| then data[i - off] else slot[i]
  {
    forall i | 0 <= i < |slot|
      ensures Anded(slot, off, data)[i] == if off <= i < off + |data| then data[i - off] else slot[i]
    {
      if off <= i < off + |data| {
        assert Ones(4) == 15 && Ones(8) == 0xFF;
        AndOnes(data[i - off], 0xFF, 8);
      }
    }
  }

  /** One sector erased and written holds its part of the image, whatever it held; no byte below it changes, none of the
      running slot, and nothing else of the platform. */
  lemma SectorLands(p: Platform, at: nat, data: seq<Byte>)
    requires Wf(p) && p.target.Some? && at % 4096 == 0 && 0 < |data| <= 4096 && at + |data| <= |p.slots[0]|
    ensures Wf(Step(p, Erase(at))) && Answer(p, Erase(at)).Done? && Answer(Step(p, Erase(at)), Write(at, data)).Done?
    ensures var t, n := 1 - p.booted, Step(Step(p, Erase(at)), Write(at, data));
            && n == p.(slots := n.slots) && |n.slots| == 2 && n.slots[p.booted] == p.slots[p.booted] && |n.slots[t]| == |p.slots[t]|
            && forall i :: 0 <= i < at + |data| ==> n.slots[t][i] == if at <= i then data[i - at] else p.slots[t][i]
  {
    StepKeeps(p, Erase(at));
    var t, erased := 1 - p.booted, Step(p, Erase(at));
    assert SectorEnd(p.slots[t], at) >= at + |data|;
    AndedBlank(erased.slots[t], at, data);
    hide Anded, SectorEnd;
  }

  lemma RunTwo(p: Platform, a: Event, b: Event)
    requires Wf(p)
    ensures Wf(Step(p, a)) && Run(p, [a, b]) == Step(Step(p, a), b)
  {
    StepKeeps(p, a);
    assert [a] + [b] == [a, b];
    RunAppend(p, [a], [b]);
    RunOne(p, a);
    RunOne(Step(p, a), b);
  }

  /** The first `n` sectors of an image are in the slot not running, and nothing else of the platform has changed. */
  ghost predicate Landed(p: Platform, r: Platform, image: seq<Byte>, n: nat)
    requires Wf(p)
  {
    var t := 1 - p.booted;
    && r == p.(slots := r.slots) && |r.slots| == 2 && r.slots[p.booted] == p.slots[p.booted] && |r.slots[t]| == |p.slots[t]|
    && |image| <= |p.slots[t]|
    && forall i :: 0 <= i < |image| && i < n * 4096 ==> r.slots[t][i] == image[i]
  }

  lemma NextSector(p: Platform, q: Platform, image: seq<Byte>, n: nat)
    requires Wf(p) && Wf(q) && p.target.Some? && n * 4096 < |image| && Landed(p, q, image, n)
    ensures Wf(Step(q, Erase(n * 4096)))
    ensures var at := n * 4096;
            Landed(p, Step(Step(q, Erase(at)), Write(at, image[at..if at + 4096 < |image| then at + 4096 else |image|])), image, n + 1)
  {
    var at := n * 4096;
    SectorLands(q, at, image[at..if at + 4096 < |image| then at + 4096 else |image|]);
    hide Step, Answer;
  }

  lemma SectorsLast(image: seq<Byte>, n: nat)
    requires 0 < n && (n - 1) * 4096 < |image|
    ensures var at := (n - 1) * 4096;
            Sectors(image, n) == Sectors(image, n - 1) + [Erase(at), Write(at, image[at..if at + 4096 < |image| then at + 4096 else |image|])]
  {
  }

  lemma {:induction false} SectorsLand(p: Platform, image: seq<Byte>, n: nat)
    requires Wf(p) && p.target.Some? && |image| <= |p.slots[0]| && (n > 0 ==> (n - 1) * 4096 < |image|)
    ensures Landed(p, Run(p, Sectors(image, n)), image, n)
  {
    if n == 0 {
      hide Step;
    } else {
      var at := (n - 1) * 4096;
      var w := Write(at, image[at..if at + 4096 < |image| then at + 4096 else |image|]);
      hide Landed, Step, Wf, Run, Sectors;
      SectorsLast(image, n);
      SectorsLand(p, image, n - 1);
      var q := Run(p, Sectors(image, n - 1));
      NextSector(p, q, image, n - 1);
      RunAppend(p, Sectors(image, n - 1), [Erase(at), w]);
      RunTwo(q, Erase(at), w);
    }
  }

  /** An image that fits a slot, sent sector by sector over whatever the other slot held, activated and booted: it runs, on
      trial, byte for byte, and the slot that ran before is as it was. */
  lemma UpdateBoots(p: Platform, image: seq<Byte>)
    requires Wf(p) && 0 < |image| <= |p.slots[0]|
    ensures Answer(p, Begin(|image|)).Done? && forall len :: |p.slots[0]| < len ==> Answer(p, Begin(len)).TooLarge?
    ensures var r := Run(p, [Begin(|image|)] + Sectors(image, (|image| + 4095) / 4096) + [Activate, Reset]);
            && r.booted == 1 - p.booted && OnTrial(r) && r.target.None?
            && |image| <= |r.slots[r.booted]| && r.slots[r.booted][..|image|] == image && r.slots[p.booted] == p.slots[p.booted]
  {
    var n := (|image| + 4095) / 4096;
    var b := p.(target := Some(1 - p.booted));
    assert (n - 1) * 4096 < |image| <= n * 4096;
    assert Step(p, Begin(|image|)) == b && Wf(b);
    hide Step, Run, Landed, Answer, Sectors;
    SectorsLand(b, image, n);
    var q := Run(b, Sectors(image, n));
    LandedWhole(b, q, image, n);
    RunOne(p, Begin(|image|));
    RunAppend(p, [Begin(|image|)], Sectors(image, n));
    RunAppend(p, [Begin(|image|)] + Sectors(image, n), [Activate, Reset]);
    hide Wf;
    ActivateBoots(q);
  }

  lemma LandedWhole(p: Platform, r: Platform, image: seq<Byte>, n: nat)
    requires Wf(p) && Landed(p, r, image, n) && |image| <= n * 4096
    ensures var t := 1 - p.booted;
            && |r.slots| == 2 && r == p.(slots := r.slots) && r.slots[p.booted] == p.slots[p.booted]
            && |image| <= |r.slots[t]| && r.slots[t][..|image|] == image
  {
  }

  lemma ActivateBoots(q: Platform)
    requires Wf(q) && q.target.Some?
    ensures var r := Run(q, [Activate, Reset]); r.booted == 1 - q.booted && OnTrial(r) && r.target.None? && r.slots == q.slots
  {
    RunTwo(q, Activate, Reset);
    hide Run;
  }

  // ---- the platform ----

  class SimPlatform {
    const slot0: array<Byte>
    const slot1: array<Byte>
    var selected: Option<(nat, OtaState)>
    var booted: nat
    var target: Option<nat>

    ghost function View(): Platform
      reads this, slot0, slot1
    {
      Platform([slot0[..], slot1[..]], selected, booted, target)
    }

    ghost predicate Valid()
      reads this, slot0, slot1
    {
      slot0 != slot1 && Wf(View())
    }

    /** Freshly installed: nothing selected, running the first slot. */
    constructor (len: nat)
      ensures Valid() && fresh(slot0) && fresh(slot1) && slot0.Length == len
      ensures selected.None? && booted == 0 && target.None?
    {
      slot0 := new Byte[len](_ => 0xFF);
      slot1 := new Byte[len](_ => 0xFF);
      selected, booted, target := None, 0, None;
    }

    method UpdateBegin(len: nat) returns (r: Status)
      requires Valid()
      modifies this`target
      ensures Valid() && r == Answer(old(View()), Begin(len)) && View() == Step(old(View()), Begin(len))
    {
      if len > slot0.Length {
        return TooLarge;
      }
      target, r := Some(1 - booted), Done;
    }

    method UpdateErase(off: nat) returns (r: Status)
      requires Valid()
      modifies slot0, slot1
      ensures Valid() && r == Answer(old(View()), Erase(off)) && View() == Step(old(View()), Erase(off))
    {
      StepKeeps(View(), Erase(off));
      if target.None? || off % SECTOR != 0 || off >= slot0.Length {
        return BadRequest;
      }
      var slot := if target.value == 0 then slot0 else slot1;
      var end := if off + SECTOR < slot.Length then off + SECTOR else slot.Length;
      forall i | off <= i < end {
        slot[i] := 0xFF;
      }
      assert slot[..] == Fill(old(slot[..]), off, end, 0xFF);
      ghost var want := Step(old(View()), Erase(off)).slots;
      assert want[0] == slot0[..] && want[1] == slot1[..] && want == [slot0[..], slot1[..]];
      r := Done;
    }

    /** What is written is masked by what the sector held. */
    method UpdateWrite(off: nat, data: seq<Byte>) returns (r: Status)
      requires Valid()
      modifies slot0, slot1
      ensures Valid() && r == Answer(old(View()), Write(off, data)) && View() == Step(old(View()), Write(off, data))
    {
      StepKeeps(View(), Write(off, data));
      if target.None? || off % SECTOR != 0 || |data| > SECTOR || off + |data| > slot0.Length {
        return BadRequest;
      }
      var slot := if target.value == 0 then slot0 else slot1;
      forall i | 0 <= i < |data| {
        slot[off + i] := And(slot[off + i], data[i]);
      }
      assert slot[..] == Anded(old(slot[..]), off, data);
      ghost var want := Step(old(View()), Write(off, data)).slots;
      assert want[0] == slot0[..] && want[1] == slot1[..] && want == [slot0[..], slot1[..]];
      r := Done;
    }

    method UpdateActivate() returns (r: Status)
      requires Valid()
      modifies this`selected
      ensures Valid() && r == Answer(old(View()), Activate) && View() == Step(old(View()), Activate)
    {
      if target.None? {
        return BadRequest;
      }
      selected, r := Some((target.value, New)), Done;
    }

    method ConfirmRunning()
      requires Valid()
      modifies this`selected
      ensures Valid() && View() == Step(old(View()), Confirm)
    {
      if selected == Some((booted, PendingVerify)) {
        selected := Some((booted, OtaState.Valid));
      }
    }

    /** A reset, as the boot loader with rollback runs it. */
    method BootAgain()
      requires Valid()
      modifies this
      ensures Valid() && View() == Step(old(View()), Reset)
    {
      if selected.Some? && selected.value.1.PendingVerify? {
        selected := Some((selected.value.0, Aborted));
      }
      if selected.None? {
        booted := 0;
      } else if selected.value.1.Aborted? {
        booted := 1 - selected.value.0;
      } else {
        booted := selected.value.0;
        if selected.value.1.New? {
          selected := Some((selected.value.0, PendingVerify));
        }
      }
      target := None;
    }
  }
}
