/** Frames on their way to the board: which are queued, which a newer one displaces, what becomes of each, and that none
    outlives its session. */
module Mailbox {
  import opened Bytes
  import opened Parts

  const QUEUE := 8
  const MAX_PACKET := 256
  const OP_DRIVE_CMD := 0x11
  const OP_INPUTS := 0x12
  const MOTOR_AT := 3 + 5
  const REOPEN_US := 500_000
  const HEADER_CHECK_US := 100_000
  const ACK_TIMEOUT_US := 2_000_000

  type Packet = seq<Byte>

  datatype State = Up | NoTarget | NoHeader | VersionMismatch | RegistryMismatch | Attaching | Held

  /** What became of an accepted packet. */
  datatype Fate = Queued | Delivered | Replaced(newer: nat) | Cleared | Dropped

  /** Every packet accepted so far and its fate, the queue's packets by their place in that log, and the delivered ones. */
  datatype History = History(log: seq<Packet>, fate: seq<Fate>, ids: seq<nat>, out: seq<nat>)

  datatype Port = Port(state: State, since: nat, queue: seq<Packet>, dropped: nat, paused: bool, h: History)

  /** What one queued frame's write into the board's ring comes to. */
  datatype Write = Sent(carried: bool) | Full | Fault | Second

  datatype Ack = Acked | NotYet | AckFault

  datatype Header = Intact | HeaderFault | OtherMagic | OtherSession

  /** What a poll of the session meets: the time, and the board's answers. */
  datatype Answers = Answers(now: nat, ack: Ack, header: Header, opens: State, write: nat -> Write)

  datatype Event = Send(packet: Packet) | Pause(on: bool) | Hold | Release | Poll(a: Answers)

  // ---- keys ----

  /** The latest-wins key: of an `INPUTS` its destination, of a `DRIVE_CMD` its destination and motor. */
  function Key(p: Packet): Option<(Byte, Byte, Byte)> {
    if |p| < 3 then None
    else if p[0] == OP_INPUTS then Some((p[0], p[2], 0))
    else if p[0] == OP_DRIVE_CMD && |p| > MOTOR_AT then Some((p[0], p[2], p[MOTOR_AT]))
    else None
  }

  /** The first queued packet with the same key. */
  function FindKey(queue: seq<Packet>, p: Packet): (i: nat)
    ensures i <= |queue|
    ensures i < |queue| ==> Key(queue[i]) == Key(p) && Key(p).Some?
    ensures i == |queue| && Key(p).Some? ==> forall j :: 0 <= j < |queue| ==> Key(queue[j]) != Key(p)
  {
    if queue == [] then 0
    else if Key(p).Some? && Key(queue[0]) == Key(p) then 0
    else 1 + FindKey(queue[1..], p)
  }

  // ---- operations ----

  function Close(p: Port, why: State): Port {
    var fate := seq(|p.h.fate|, n requires 0 <= n < |p.h.fate| => if n in p.h.ids then Cleared else p.h.fate[n]);
    p.(state := why, queue := [], h := p.h.(fate := fate, ids := []))
  }

  function SendTo(p: Port, packet: Packet): Port
    requires Kept(p)
  {
    if p.state != Up || p.paused then p
    else if |packet| > MAX_PACKET then p.(dropped := p.dropped + 1)
    else
      var i := FindKey(p.queue, packet);
      if i < |p.queue| then Replace(p, i, packet)
      else if |p.queue| < QUEUE then Append(p, packet)
      else p.(dropped := p.dropped + 1, h := p.h.(log := p.h.log + [packet], fate := p.h.fate + [Fate.Dropped]))
  }

  /** The newer packet in the older one's place. */
  function Replace(p: Port, i: nat, packet: Packet): Port
    requires Kept(p) && i < |p.queue|
  {
    var n := |p.h.log|;
    p.(queue := p.queue[i := packet],
       h := p.h.(log := p.h.log + [packet], fate := p.h.fate[p.h.ids[i] := Replaced(n)] + [Queued], ids := p.h.ids[i := n]))
  }

  function Append(p: Port, packet: Packet): Port {
    p.(queue := p.queue + [packet],
       h := p.h.(log := p.h.log + [packet], fate := p.h.fate + [Queued], ids := p.h.ids + [|p.h.log|]))
  }

  function Paused(p: Port, on: bool): Port {
    (if on then Close(p, p.state) else p).(paused := on)
  }

  function Released(p: Port): Port {
    if p.state.Held? then Close(p, NoHeader).(since := 0) else p
  }

  /** The oldest frame leaves the queue: delivered, or dropped when the link cannot carry it. */
  function Pop(p: Port, carried: bool): Port
    requires Kept(p) && p.queue != []
  {
    var n := p.h.ids[0];
    var h := p.h.(ids := p.h.ids[1..], fate := p.h.fate[n := if carried then Delivered else Fate.Dropped],
                  out := if carried then p.h.out + [n] else p.h.out);
    p.(queue := p.queue[1..], h := h, dropped := if carried then p.dropped else p.dropped + 1)
  }

  function Drain(p: Port, a: Answers, k: nat): Port
    requires Kept(p)
    decreases |p.queue|
  {
    if p.queue == [] then p
    else match a.write(k)
      case Sent(carried) =>
        PopKeeps(p, carried);
        Drain(Pop(p, carried), a, k + 1)
      case Full => p
      case Fault => Close(p, NoTarget).(since := a.now)
      case Second => Close(p, NoHeader).(since := 0)
  }

  function Elapsed(a: Answers, p: Port): int {
    if a.now < p.since then 0 else a.now - p.since
  }

  function Service(p: Port, a: Answers): Port
    requires Kept(p)
  {
    if Elapsed(a, p) > HEADER_CHECK_US then
      var q := p.(since := a.now);
      match a.header
      case HeaderFault => Close(q, NoTarget).(since := a.now)
      case OtherMagic => Close(q, NoHeader)
      case OtherSession => Close(q, NoHeader).(since := 0)
      case Intact => Drain(q, a, 0)
    else Drain(p, a, 0)
  }

  function Polled(p: Port, a: Answers): Port
    requires Kept(p)
  {
    if p.paused then p
    else match p.state
      case Held => p
      case Up => Service(p, a)
      case Attaching =>
        (match a.ack
         case Acked => p.(state := Up, since := a.now)
         case NotYet => if Elapsed(a, p) > ACK_TIMEOUT_US then Close(p, NoHeader).(since := a.now) else p
         case AckFault => Close(p, NoTarget).(since := a.now))
      case _ =>
        if p.since == 0 || Elapsed(a, p) > REOPEN_US then
          p.(since := if a.now < 1 then 1 else a.now, state := if a.opens.Up? || a.opens.Held? then NoTarget else a.opens)
        else p
  }

  function Step(p: Port, e: Event): Port
    requires Kept(p)
  {
    match e
    case Send(packet) => SendTo(p, packet)
    case Pause(on) => Paused(p, on)
    case Hold => Close(p, Held)
    case Release => Released(p)
    case Poll(a) => Polled(p, a)
  }

  // ---- what every step keeps ----

  /** Packet `m` is a later one of the same key as packet `n`. */
  predicate Supersedes(log: seq<Packet>, n: nat, m: nat) {
    n < m < |log| && Key(log[n]).Some? && Key(log[m]) == Key(log[n])
  }

  /** The queue and its history agree: a packet's fate is `Queued` exactly while it is in the queue. */
  predicate Accounted(h: History, queue: seq<Packet>) {
    && |h.fate| == |h.log| && |h.ids| == |queue|
    && (forall i :: 0 <= i < |h.ids| ==> h.ids[i] < |h.log| && h.log[h.ids[i]] == queue[i] && h.fate[h.ids[i]] == Queued)
    && (forall i, j :: 0 <= i < j < |h.ids| ==> h.ids[i] != h.ids[j])
    && (forall n :: 0 <= n < |h.fate| && h.fate[n] == Queued ==> n in h.ids)
    && (forall n :: n in h.out ==> n < |h.log| && h.fate[n] == Delivered)
    && (forall n :: 0 <= n < |h.fate| && h.fate[n] == Delivered ==> n in h.out)
    && (forall n :: 0 <= n < |h.fate| && h.fate[n].Replaced? ==> Supersedes(h.log, n, h.fate[n].newer))
  }

  /** A queued packet with a key is the newest sent with it. */
  predicate Newest(h: History)
    requires forall i :: 0 <= i < |h.ids| ==> h.ids[i] < |h.log|
  {
    forall i, m :: 0 <= i < |h.ids| && h.ids[i] < m < |h.log| && Key(h.log[m]).Some? ==> Key(h.log[m]) != Key(h.log[h.ids[i]])
  }

  predicate Unkeyed(h: History, n: nat) {
    n < |h.log| && Key(h.log[n]).None?
  }

  /** Packets without a key leave in the order they were sent. */
  predicate InOrder(h: History) {
    var s := h.out + h.ids;
    forall i, j :: 0 <= i < j < |s| && Unkeyed(h, s[i]) && Unkeyed(h, s[j]) ==> s[i] < s[j]
  }

  predicate Kept(p: Port) {
    && Accounted(p.h, p.queue) && Newest(p.h) && InOrder(p.h)
    && |p.queue| <= QUEUE
    && (p.queue != [] ==> p.state == Up && !p.paused)
    && (forall i :: 0 <= i < |p.queue| ==> |p.queue[i]| <= MAX_PACKET)
  }

  lemma CloseKeeps(p: Port, why: State)
    requires Kept(p)
    ensures Kept(Close(p, why))
  {
    var h := Close(p, why).h;
    assert forall n :: 0 <= n < |h.fate| && h.fate[n] == Queued ==> p.h.fate[n] == Queued;
    assert forall i, j :: 0 <= i < j < |h.out| ==> (p.h.out + p.h.ids)[i] == h.out[i] && (p.h.out + p.h.ids)[j] == h.out[j];
    assert h.out + h.ids == h.out;
  }

  /** Every packet delivered or queued is in the log. */
  predicate Logged(h: History) {
    forall j :: 0 <= j < |h.out + h.ids| ==> (h.out + h.ids)[j] < |h.log|
  }

  lemma AllLogged(h: History, queue: seq<Packet>)
    requires Accounted(h, queue)
    ensures Logged(h)
  {
    forall j | 0 <= j < |h.out + h.ids|
      ensures (h.out + h.ids)[j] < |h.log|
    {
      if j < |h.out| {
        assert (h.out + h.ids)[j] in h.out;
      }
    }
  }

  /** The order survives a packet leaving the front, */
  lemma PopOrder(h: History, g: History)
    requires InOrder(h) && h.ids != [] && g.log == h.log && g.ids == h.ids[1..]
    requires g.out == h.out || g.out == h.out + [h.ids[0]]
    ensures InOrder(g)
  {
    var s, t := h.out + h.ids, g.out + g.ids;
    if g.out == h.out {
      assert forall i :: 0 <= i < |t| ==> t[i] == s[if i < |h.out| then i else i + 1];
    } else {
      assert t == s;
    }
  }

  /** a new last packet, or a keyed one in another's place. */
  lemma SendOrder(h: History, g: History, packet: Packet, i: nat)
    requires InOrder(h) && Logged(h) && g.log == h.log + [packet] && g.out == h.out
    requires g.ids == h.ids || g.ids == h.ids + [|h.log|] || (Key(packet).Some? && i < |h.ids| && g.ids == h.ids[i := |h.log|])
    ensures InOrder(g)
  {
    var s, t, n := h.out + h.ids, g.out + g.ids, |h.log|;
    assert g.log[n] == packet;
    assert forall k :: 0 <= k < n ==> g.log[k] == h.log[k];
    hide Key;
    if g.ids == h.ids {
      assert t == s;
    } else if g.ids == h.ids + [n] {
      assert t == s + [n];
    } else {
      assert t == s[|h.out| + i := n];
    }
  }

  lemma PopKeeps(p: Port, carried: bool)
    requires Kept(p) && p.queue != []
    ensures Kept(Pop(p, carried))
  {
    hide Key, InOrder;
    PopOrder(p.h, Pop(p, carried).h);
  }

  lemma ReplaceKeeps(p: Port, i: nat, packet: Packet)
    requires Kept(p) && i < |p.queue| && p.state.Up? && !p.paused
    requires |packet| <= MAX_PACKET && Key(packet).Some? && Key(p.queue[i]) == Key(packet)
    ensures var q := Replace(p, i, packet);
            && Kept(q) && q.queue == p.queue[i := packet]
            && q.h.fate[p.h.ids[i]] == Replaced(|p.h.log|) && q.h.out == p.h.out
  {
    var n, h := |p.h.log|, Replace(p, i, packet).h;
    AllLogged(p.h, p.queue);
    SendOrder(p.h, h, packet, i);
    assert h.log[n] == packet && Key(p.h.log[p.h.ids[i]]) == Key(packet);
    KeyedOnce(p, i);
    hide Key, InOrder, Logged;
    assert forall k :: 0 <= k < |p.h.log| ==> h.log[k] == p.h.log[k];
    assert forall k :: 0 <= k < |p.h.fate| && k != p.h.ids[i] ==> h.fate[k] == p.h.fate[k];
    StillInQueue(p.h.ids, i, n);
  }

  lemma StillInQueue(ids: seq<nat>, i: nat, n: nat)
    requires i < |ids|
    ensures forall k :: k in ids && k != ids[i] ==> k in ids[i := n]
    ensures n in ids[i := n]
  {
    forall k | k in ids && k != ids[i]
      ensures k in ids[i := n]
    {
      var j :| 0 <= j < |ids| && ids[j] == k;
      assert ids[i := n][j] == k;
    }
    assert ids[i := n][i] == n;
  }

  /** No two queued packets have the same key. */
  lemma KeyedOnce(p: Port, i: nat)
    requires Kept(p) && i < |p.queue| && Key(p.queue[i]).Some?
    ensures forall j :: 0 <= j < |p.queue| && j != i ==> Key(p.queue[j]) != Key(p.queue[i])
  {
    forall j | 0 <= j < |p.queue| && j != i
      ensures Key(p.queue[j]) != Key(p.queue[i])
    {
      assert p.h.ids[i] != p.h.ids[j];
    }
  }

  lemma AppendAccounted(p: Port, packet: Packet)
    requires Accounted(p.h, p.queue)
    ensures Accounted(Append(p, packet).h, Append(p, packet).queue)
  {
    var n, h := |p.h.log|, Append(p, packet).h;
    hide Key;
    assert forall k :: 0 <= k < n ==> h.log[k] == p.h.log[k] && h.fate[k] == p.h.fate[k];
    assert h.log[n] == packet && h.fate[n] == Queued && h.ids[|p.queue|] == n;
    assert forall k :: k in p.h.ids ==> k in h.ids;
  }

  /** A packet logged when none queued has its key. */
  lemma LogNewest(h: History, queue: seq<Packet>, g: History, packet: Packet)
    requires Accounted(h, queue) && Newest(h) && FindKey(queue, packet) == |queue|
    requires g.log == h.log + [packet] && (g.ids == h.ids || g.ids == h.ids + [|h.log|])
    ensures forall i :: 0 <= i < |g.ids| ==> g.ids[i] < |g.log|
    ensures Newest(g)
  {
    forall i, m | 0 <= i < |g.ids| && g.ids[i] < m < |g.log| && Key(g.log[m]).Some?
      ensures Key(g.log[m]) != Key(g.log[g.ids[i]])
    {
      assert i < |h.ids| && g.log[g.ids[i]] == queue[i];
      hide Key;
    }
  }

  lemma AppendKeeps(p: Port, packet: Packet)
    requires Kept(p) && p.state.Up? && !p.paused && |p.queue| < QUEUE && |packet| <= MAX_PACKET
    requires FindKey(p.queue, packet) == |p.queue|
    ensures Kept(Append(p, packet))
  {
    var n, h := |p.h.log|, Append(p, packet).h;
    AllLogged(p.h, p.queue);
    SendOrder(p.h, h, packet, 0);
    AppendAccounted(p, packet);
    LogNewest(p.h, p.queue, h, packet);
    hide Key, InOrder, Logged, Accounted, Newest;
  }

  lemma SendKeeps(p: Port, packet: Packet)
    requires Kept(p)
    ensures Kept(SendTo(p, packet))
  {
    if p.state == Up && !p.paused && |packet| <= MAX_PACKET {
      var i := FindKey(p.queue, packet);
      if i < |p.queue| {
        ReplaceKeeps(p, i, packet);
      } else if |p.queue| < QUEUE {
        AppendKeeps(p, packet);
      } else {
        RefuseKeeps(p, packet);
      }
    }
  }

  lemma RefuseKeeps(p: Port, packet: Packet)
    requires Kept(p) && FindKey(p.queue, packet) == |p.queue|
    ensures Kept(p.(dropped := p.dropped + 1, h := p.h.(log := p.h.log + [packet], fate := p.h.fate + [Fate.Dropped])))
  {
    var h := p.h.(log := p.h.log + [packet], fate := p.h.fate + [Fate.Dropped]);
    AllLogged(p.h, p.queue);
    SendOrder(p.h, h, packet, 0);
    hide Key, InOrder, Logged;
    assert forall k :: 0 <= k < |p.h.log| ==> h.log[k] == p.h.log[k] && h.fate[k] == p.h.fate[k];
  }

  lemma {:induction false} DrainKeeps(p: Port, a: Answers, k: nat)
    requires Kept(p)
    ensures Kept(Drain(p, a, k))
    decreases |p.queue|
  {
    if p.queue != [] {
      match a.write(k)
      case Sent(carried) =>
        PopKeeps(p, carried);
        DrainKeeps(Pop(p, carried), a, k + 1);
      case Full =>
      case Fault => CloseKeeps(p, NoTarget);
      case Second => CloseKeeps(p, NoHeader);
    }
  }

  lemma StepKeeps(p: Port, e: Event)
    requires Kept(p)
    ensures Kept(Step(p, e))
  {
    match e
    case Send(packet) => SendKeeps(p, packet);
    case Pause(_) => CloseKeeps(p, p.state);
    case Hold => CloseKeeps(p, Held);
    case Release => CloseKeeps(p, NoHeader);
    case Poll(a) => PollKeeps(p, a);
  }

  lemma SinceKeeps(p: Port, t: nat)
    requires Kept(p)
    ensures Kept(p.(since := t))
  {
  }

  lemma CloseAtKeeps(p: Port, why: State, t: nat)
    requires Kept(p)
    ensures Kept(Close(p, why).(since := t))
  {
    CloseKeeps(p, why);
    hide Accounted, InOrder, Newest, Close;
  }

  lemma ServiceKeeps(p: Port, a: Answers)
    requires Kept(p)
    ensures Kept(Service(p, a))
  {
    var q := p.(since := a.now);
    assert Kept(q);
    hide Kept;
    DrainKeeps(p, a, 0);
    DrainKeeps(q, a, 0);
    CloseAtKeeps(q, NoTarget, a.now);
    CloseKeeps(q, NoHeader);
    CloseAtKeeps(q, NoHeader, 0);
  }

  lemma OpenKeeps(p: Port, s: State, t: nat)
    requires Kept(p) && (p.state != Up || p.queue == [])
    ensures Kept(p.(state := s, since := t))
  {
    hide Accounted, InOrder, Newest;
  }

  lemma PollKeeps(p: Port, a: Answers)
    requires Kept(p)
    ensures Kept(Polled(p, a))
  {
    assert p.state != Up ==> p.queue == [];
    hide Kept, Service, Close;
    match p.state
    case Up => ServiceKeeps(p, a);
    case Held =>
    case Attaching =>
      OpenKeeps(p, Up, a.now);
      CloseAtKeeps(p, NoHeader, a.now);
      CloseAtKeeps(p, NoTarget, a.now);
    case _ => OpenKeeps(p, Polled(p, a).state, Polled(p, a).since);
  }

  // ---- every run ----

  function Start(): Port {
    Port(NoTarget, 0, [], 0, false, History([], [], [], []))
  }

  /** A port over any run of sends, pauses, holds and polls. */
  function Run(events: seq<Event>): (p: Port)
    ensures Kept(p)
  {
    if events == [] then Start()
    else
      var p := Run(events[..|events| - 1]);
      StepKeeps(p, events[|events| - 1]);
      Step(p, events[|events| - 1])
  }

  /** What a step adds: the log and the deliveries only grow, and a fate once settled stays. */
  predicate Extends(h: History, g: History) {
    && |h.fate| == |h.log| && |g.fate| == |g.log| && h.log <= g.log && h.out <= g.out
    && forall n :: 0 <= n < |h.fate| && h.fate[n] != Queued ==> g.fate[n] == h.fate[n]
  }

  lemma ExtendsOn(a: History, b: History, c: History)
    requires Extends(a, b) && Extends(b, c)
    ensures Extends(a, c)
  {
  }

  lemma CloseExtends(p: Port, why: State)
    requires Kept(p)
    ensures Extends(p.h, Close(p, why).h)
  {
  }

  lemma {:induction false} DrainExtends(p: Port, a: Answers, k: nat)
    requires Kept(p)
    ensures Extends(p.h, Drain(p, a, k).h)
    decreases |p.queue|
  {
    if p.queue != [] {
      match a.write(k)
      case Sent(carried) =>
        PopKeeps(p, carried);
        DrainExtends(Pop(p, carried), a, k + 1);
        assert Extends(p.h, Pop(p, carried).h);
        ExtendsOn(p.h, Pop(p, carried).h, Drain(Pop(p, carried), a, k + 1).h);
      case Full =>
      case Fault => CloseExtends(p, NoTarget);
      case Second => CloseExtends(p, NoHeader);
    }
  }

  lemma StepExtends(p: Port, e: Event)
    requires Kept(p)
    ensures Extends(p.h, Step(p, e).h)
  {
    match e
    case Send(packet) => hide Key, InOrder, Newest, FindKey;
    case Pause(_) => CloseExtends(p, p.state);
    case Hold => CloseExtends(p, Held);
    case Release => CloseExtends(p, NoHeader);
    case Poll(a) =>
      var q := p.(since := a.now);
      DrainExtends(p, a, 0);
      DrainExtends(q, a, 0);
      CloseExtends(p, NoTarget);
      CloseExtends(p, NoHeader);
      CloseExtends(q, NoTarget);
      CloseExtends(q, NoHeader);
      hide Accounted, InOrder, Newest, Drain, Close, Extends;
  }

  lemma RunSnoc(events: seq<Event>, e: Event)
    ensures Run(events + [e]) == Step(Run(events), e)
  {
    assert (events + [e])[..|events|] == events;
    hide Step, Kept;
  }

  /** Whatever happens later, what was sent stays logged, what was delivered stays delivered, in the order it was. */
  lemma {:induction false} RunExtends(events: seq<Event>, more: seq<Event>)
    ensures Extends(Run(events).h, Run(events + more).h)
  {
    hide Kept, Step;
    if more == [] {
      assert events + more == events;
      ExtendsSelf(Run(events));
    } else {
      var front, last := more[..|more| - 1], more[|more| - 1];
      RunExtends(events, front);
      assert events + more == events + front + [last];
      RunSnoc(events + front, last);
      hide Run, Extends;
      StepExtends(Run(events + front), last);
      ExtendsOn(Run(events).h, Run(events + front).h, Run(events + more).h);
    }
  }

  lemma ExtendsSelf(p: Port)
    requires Kept(p)
    ensures Extends(p.h, p.h)
  {
  }

  // ---- at most once ----

  predicate Distinct(s: seq<nat>) {
    forall i, j :: 0 <= i < j < |s| ==> s[i] != s[j]
  }

  lemma {:induction false} DrainOnce(p: Port, a: Answers, k: nat)
    requires Kept(p) && Distinct(p.h.out)
    ensures Distinct(Drain(p, a, k).h.out)
    decreases |p.queue|
  {
    if p.queue != [] {
      match a.write(k)
      case Sent(carried) =>
        PopKeeps(p, carried);
        assert p.h.ids[0] !in p.h.out;
        hide Kept;
        DrainOnce(Pop(p, carried), a, k + 1);
      case Full =>
      case Fault =>
      case Second =>
    }
  }

  lemma StepOnce(p: Port, e: Event)
    requires Kept(p) && Distinct(p.h.out)
    ensures Distinct(Step(p, e).h.out)
  {
    if e.Poll? {
      assert Kept(p.(since := e.a.now));
      DrainOnce(p, e.a, 0);
      DrainOnce(p.(since := e.a.now), e.a, 0);
    }
    hide Kept, Drain, Distinct, FindKey;
  }

  lemma {:induction false} RunOnce(events: seq<Event>)
    ensures Distinct(Run(events).h.out)
  {
    if events != [] {
      RunOnce(events[..|events| - 1]);
      StepOnce(Run(events[..|events| - 1]), events[|events| - 1]);
    }
  }

  /** What is delivered and what is queued are different packets, none of them twice. */
  lemma NeverTwice(events: seq<Event>)
    ensures var h := Run(events).h; Distinct(h.out + h.ids)
  {
    var h := Run(events).h;
    RunOnce(events);
    forall i, j | 0 <= i < j < |h.out + h.ids|
      ensures (h.out + h.ids)[i] != (h.out + h.ids)[j]
    {
      if i < |h.out| <= j {
        assert h.out[i] in h.out;
        assert h.fate[h.ids[j - |h.out|]] == Queued;
      }
    }
  }

  /** After any run: at most one queued packet per key, and it is the newest sent with that key; packets without one are
      delivered and queued in the order they were sent; no packet is delivered twice, or delivered and still queued; one
      that was replaced gave way to a later one of its own key; a packet is in the queue exactly while its fate is open; and
      a port that is down or paused has nothing queued. */
  lemma LatestWins(events: seq<Event>)
    ensures var p := Run(events);
            && (forall i, j :: 0 <= i < j < |p.queue| && Key(p.queue[i]).Some? ==> Key(p.queue[i]) != Key(p.queue[j]))
            && (forall i :: 0 <= i < |p.queue| ==> p.h.ids[i] < |p.h.log| && p.h.log[p.h.ids[i]] == p.queue[i])
            && (forall i, m :: 0 <= i < |p.queue| && p.h.ids[i] < m < |p.h.log| && Key(p.queue[i]).Some? ==> Key(p.h.log[m]) != Key(p.queue[i]))
            && (forall n :: 0 <= n < |p.h.log| ==> (p.h.fate[n] == Queued <==> n in p.h.ids) && (p.h.fate[n] == Delivered <==> n in p.h.out))
            && InOrder(p.h) && Distinct(p.h.out + p.h.ids)
            && (forall n :: 0 <= n < |p.h.log| && p.h.fate[n].Replaced? ==> Supersedes(p.h.log, n, p.h.fate[n].newer))
            && |p.queue| <= QUEUE && (p.state != Up || p.paused ==> p.queue == [])
  {
    var p := Run(events);
    NeverTwice(events);
    forall i, j | 0 <= i < j < |p.queue| && Key(p.queue[i]).Some?
      ensures Key(p.queue[i]) != Key(p.queue[j])
    {
      KeyedOnce(p, i);
    }
  }

  class MailboxPort {
    var state: State
    var since: nat
    var queue: seq<Packet>
    var dropped: nat
    var paused: bool
    ghost var h: History

    ghost function View(): Port
      reads this
    {
      Port(state, since, queue, dropped, paused, h)
    }

    ghost predicate Valid()
      reads this
    {
      Kept(View())
    }

    /** A closed port. */
    constructor ()
      ensures Valid() && View() == Start()
    {
      state, since, queue, dropped, paused := NoTarget, 0, [], 0, false;
      h := Start().h;
    }

    method CloseFor(why: State)
      requires Valid()
      modifies this`queue, this`state, this`h
      ensures Valid() && View() == Close(old(View()), why)
    {
      CloseKeeps(View(), why);
      h := Close(View(), why).h;
      queue, state := [], why;
    }

    method TakeDown()
      requires Valid()
      modifies this
      ensures Valid() && View() == Step(old(View()), Hold)
    {
      CloseFor(Held);
    }

    method GiveBack()
      requires Valid()
      modifies this
      ensures Valid() && View() == Step(old(View()), Release)
    {
      if state.Held? {
        CloseFor(NoHeader);
        since := 0;
      }
    }

    method SetPaused(on: bool)
      requires Valid()
      modifies this
      ensures Valid() && View() == Step(old(View()), Pause(on))
    {
      if on {
        CloseFor(state);
      }
      paused := on;
    }

    /** A packet sent: queued, put in an older one's place, refused, or of no effect while the session is down. */
    method Accept(packet: Packet)
      requires Valid()
      modifies this
      ensures Valid() && View() == Step(old(View()), Send(packet))
    {
      SendKeeps(View(), packet);
      hide Kept, Key;
      if state != Up || paused {
        return;
      }
      if |packet| > MAX_PACKET {
        dropped := dropped + 1;
        return;
      }
      var i := IndexOf(packet);
      h := SendTo(View(), packet).h;
      if i < |queue| {
        queue := queue[i := packet];
      } else if |queue| < QUEUE {
        queue := queue + [packet];
      } else {
        dropped := dropped + 1;
      }
    }

    /** What a poll does towards the board, by the state the session is in. */
    method PollSession(a: Answers)
      requires Valid()
      modifies this
      ensures Valid() && View() == Step(old(View()), Poll(a))
    {
      PollKeeps(View(), a);
      hide Kept, Drain, Close;
      if paused {
        return;
      }
      var elapsed := if a.now < since then 0 else a.now - since;
      match state {
        case Held =>
        case Up => Serve(a, elapsed);
        case Attaching =>
          if a.ack.Acked? {
            state, since := Up, a.now;
          } else if a.ack.AckFault? {
            CloseFor(NoTarget);
            since := a.now;
          } else if elapsed > ACK_TIMEOUT_US {
            CloseFor(NoHeader);
            since := a.now;
          }
        case _ =>
          if since == 0 || elapsed > REOPEN_US {
            since := if a.now < 1 then 1 else a.now;
            state := if a.opens.Up? || a.opens.Held? then NoTarget else a.opens;
          }
      }
    }

    method Serve(a: Answers, elapsed: nat)
      requires Valid() && elapsed == Elapsed(a, View())
      modifies this
      ensures Valid() && View() == Service(old(View()), a)
    {
      ServiceKeeps(View(), a);
      SinceKeeps(View(), a.now);
      hide Kept, Close, Drain;
      if elapsed > HEADER_CHECK_US {
        since := a.now;
        match a.header {
          case HeaderFault =>
            CloseFor(NoTarget);
            since := a.now;
            return;
          case OtherMagic =>
            CloseFor(NoHeader);
            return;
          case OtherSession =>
            CloseFor(NoHeader);
            since := 0;
            return;
          case Intact =>
        }
      }
      Flush(a);
    }

    method PopFront(carried: bool)
      requires Valid() && queue != []
      modifies this
      ensures Valid() && View() == Pop(old(View()), carried)
    {
      PopKeeps(View(), carried);
      hide Kept;
      h := Pop(View(), carried).h;
      queue := queue[1..];
      if !carried {
        dropped := dropped + 1;
      }
    }

    /** Frames leave from the front until the queue is empty or one of them cannot be written. */
    method Flush(a: Answers)
      requires Valid()
      modifies this
      ensures Valid() && View() == Drain(old(View()), a, 0)
    {
      var k := 0;
      DrainKeeps(View(), a, 0);
      hide Kept, Close, Pop;
      while queue != []
        invariant Valid() && Drain(View(), a, k) == Drain(old(View()), a, 0)
        decreases |queue|
      {
        match a.write(k) {
          case Sent(carried) =>
            PopFront(carried);
          case Full =>
            return;
          case Fault =>
            CloseFor(NoTarget);
            since := a.now;
            return;
          case Second =>
            CloseFor(NoHeader);
            since := 0;
            return;
        }
        k := k + 1;
      }
    }

    method IndexOf(packet: Packet) returns (i: nat)
      ensures i == FindKey(queue, packet)
    {
      i := 0;
      var k := Key(packet);
      if k.None? {
        NoKey(queue, packet);
        return |queue|;
      }
      while i < |queue|
        invariant 0 <= i <= |queue| && FindKey(queue, packet) == i + FindKey(queue[i..], packet)
      {
        if Key(queue[i]) == k {
          return;
        }
        assert queue[i..][1..] == queue[i + 1..];
        i := i + 1;
      }
    }
  }

  lemma {:induction false} NoKey(queue: seq<Packet>, p: Packet)
    requires Key(p).None?
    ensures FindKey(queue, p) == |queue|
  {
    if queue != [] {
      NoKey(queue[1..], p);
    }
  }
}
