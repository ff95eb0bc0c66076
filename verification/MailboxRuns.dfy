/** What the queue does with each frame: where a send puts it, what the board's ring makes of it, and when the session is up. */
module MailboxRuns {
  import opened Bytes
  import opened Parts
  import opened Mailbox

  // ---- a send ----

  /** Two packets share a key exactly when both are inputs for one destination, or both drive one motor of one destination. */
  lemma SameKey(a: Packet, b: Packet)
    ensures Key(a).Some? && Key(a) == Key(b)
            <==> || (|a| >= 3 && |b| >= 3 && a[0] == b[0] == 0x12 && a[2] == b[2])
                 || (|a| >= 9 && |b| >= 9 && a[0] == b[0] == 0x11 && a[2] == b[2] && a[8] == b[8])
  {
  }

  /** The packet `i` of the queue that a new one displaces, and no other can. */
  predicate Displaced(queue: seq<Packet>, i: nat, packet: Packet) {
    i < |queue| && Key(packet).Some? && Key(queue[i]) == Key(packet)
  }

  /** A packet displaces the queued one of its key, or joins the end of the queue, or is dropped; one sent to a port that is
      down or paused is none of these. */
  lemma SendOutcome(p: Port, packet: Packet)
    requires Kept(p)
    ensures var q := Step(p, Send(packet));
            && q.state == p.state && q.since == p.since && q.paused == p.paused && q.h.out == p.h.out
            && if p.state != Up || p.paused then q == p
               else if |packet| > 256 then q == p.(dropped := p.dropped + 1)
               else
                 && q.h.log == p.h.log + [packet]
                 && (forall i: nat :: Displaced(p.queue, i, packet) ==>
                       q.queue == p.queue[i := packet] && q.dropped == p.dropped && q.h.fate[p.h.ids[i]] == Replaced(|p.h.log|))
                 && ((forall i: nat :: !Displaced(p.queue, i, packet)) ==>
                       if |p.queue| < 8 then q.queue == p.queue + [packet] && q.dropped == p.dropped
                       else q.queue == p.queue && q.dropped == p.dropped + 1)
  {
    var first := FindKey(p.queue, packet);
    assert first < |p.queue| ==> Displaced(p.queue, first, packet);
    forall i: nat | Displaced(p.queue, i, packet)
      ensures i == FindKey(p.queue, packet)
    {
      KeyedOnce(p, i);
    }
    hide Key, InOrder, Newest;
  }

  // ---- a poll that drains ----

  /** The packets among the first `j` queued whose write carried them. */
  function Carried(ids: seq<nat>, write: nat -> Write, j: nat): seq<nat>
    requires j <= |ids|
  {
    if j == 0 then []
    else Carried(ids, write, j - 1) + if write(j - 1).Sent? && write(j - 1).carried then [ids[j - 1]] else []
  }

  predicate WentOut(write: nat -> Write, j: nat) {
    forall k :: 0 <= k < j ==> write(k).Sent?
  }

  /** `j` writes went out, and the next, if any is left, did not. */
  predicate Leading(write: nat -> Write, n: nat, j: nat) {
    j <= n && WentOut(write, j) && (j < n ==> !write(j).Sent?)
  }

  /** Every queued packet has its place in the log, no two the same. */
  ghost predicate Tidy(p: Port) {
    && |p.h.fate| == |p.h.log| && |p.h.ids| == |p.queue|
    && (forall i :: 0 <= i < |p.h.ids| ==> p.h.ids[i] < |p.h.log|)
    && forall i, k :: 0 <= i < k < |p.h.ids| ==> p.h.ids[i] != p.h.ids[k]
  }

  lemma KeptIsTidy(p: Port)
    requires Kept(p)
    ensures Tidy(p)
  {
  }

  /** The port with its first `j` packets gone. */
  ghost predicate Flushed(p: Port, q: Port, write: nat -> Write, j: nat)
    requires Tidy(p) && j <= |p.queue|
  {
    && q.queue == p.queue[j..] && q.h.ids == p.h.ids[j..] && q.h.log == p.h.log
    && q.h.out == p.h.out + Carried(p.h.ids, write, j)
    && q.dropped == p.dropped + j - |Carried(p.h.ids, write, j)|
    && (q.state, q.since, q.paused) == (p.state, p.since, p.paused)
    && Settled(p.h, q.h.fate, write, j)
  }

  /** Their fates: delivered where the write carried them, dropped where not; every other as it was. */
  ghost predicate Settled(h: History, fate: seq<Fate>, write: nat -> Write, j: nat)
    requires j <= |h.ids| && |h.fate| == |h.log| && forall i :: 0 <= i < |h.ids| ==> h.ids[i] < |h.log|
  {
    && |fate| == |h.fate|
    && (forall k :: 0 <= k < j ==> fate[h.ids[k]] == if write(k).Sent? && write(k).carried then Delivered else Fate.Dropped)
    && forall n :: 0 <= n < |fate| && n !in h.ids[..j] ==> fate[n] == h.fate[n]
  }

  lemma SettlesOne(h: History, fate: seq<Fate>, write: nat -> Write, j: nat)
    requires 0 < j <= |h.ids| && |h.fate| == |h.log| && forall i :: 0 <= i < |h.ids| ==> h.ids[i] < |h.log|
    requires forall i, k :: 0 <= i < k < |h.ids| ==> h.ids[i] != h.ids[k]
    requires Settled(h, fate, write, j - 1)
    ensures Settled(h, fate[h.ids[j - 1] := if write(j - 1).Sent? && write(j - 1).carried then Delivered else Fate.Dropped], write, j)
  {
    assert h.ids[..j] == h.ids[..j - 1] + [h.ids[j - 1]];
  }

  function Popped(p: Port, write: nat -> Write, j: nat): (q: Port)
    requires Kept(p) && j <= |p.queue| && WentOut(write, j)
    ensures Kept(q) && q.queue == p.queue[j..]
  {
    if j == 0 then p
    else
      var q := Popped(p, write, j - 1);
      PopKeeps(q, write(j - 1).carried);
      Pop(q, write(j - 1).carried)
  }

  lemma {:induction false} PoppedIsFlushed(p: Port, write: nat -> Write, j: nat)
    requires Kept(p) && j <= |p.queue| && WentOut(write, j)
    ensures Tidy(p) && Flushed(p, Popped(p, write, j), write, j)
  {
    KeptIsTidy(p);
    hide Kept;
    if j > 0 {
      PoppedIsFlushed(p, write, j - 1);
      PopFlushes(p, Popped(p, write, j - 1), write, j);
    }
  }

  lemma PopFlushes(p: Port, q: Port, write: nat -> Write, j: nat)
    requires Tidy(p) && Kept(q) && 0 < j <= |p.queue| && WentOut(write, j) && Flushed(p, q, write, j - 1)
    ensures Flushed(p, Pop(q, write(j - 1).carried), write, j)
  {
    hide Kept, Settled, Key, InOrder, Newest;
    KeptIsTidy(q);
    SettlesOne(p.h, q.h.fate, write, j);
  }

  /** Writes that go out pop one packet each. */
  lemma {:induction false} DrainPops(p: Port, a: Answers, j: nat)
    requires Kept(p) && j <= |p.queue| && WentOut(a.write, j)
    ensures Drain(p, a, 0) == Drain(Popped(p, a.write, j), a, j)
  {
    hide Kept, Pop;
    if j > 0 {
      DrainPops(p, a, j - 1);
      DrainsOne(Popped(p, a.write, j - 1), a, j - 1);
    }
  }

  lemma DrainsOne(p: Port, a: Answers, k: nat)
    requires Kept(p) && p.queue != [] && a.write(k).Sent?
    ensures Kept(Pop(p, a.write(k).carried)) && Drain(p, a, k) == Drain(Pop(p, a.write(k).carried), a, k + 1)
  {
    PopKeeps(p, a.write(k).carried);
    hide Kept, Pop;
  }

  /** The header check is not due, or finds the session intact. */
  predicate Checked(p: Port, a: Answers) {
    a.now - p.since <= 100_000 || a.header.Intact?
  }

  /** What a poll leaves of `p` when the first write that does not go out is the `j`-th: the frames before it are gone,
      delivered where the link carried them and dropped where it could not; a full ring keeps it and the rest, their fates
      open; a lost link or another session takes them all, and the session with them. */
  ghost predicate FlushedTo(p: Port, q: Port, a: Answers, j: nat)
    requires Tidy(p) && Leading(a.write, |p.queue|, j)
  {
    && q.h.out == p.h.out + Carried(p.h.ids, a.write, j)
    && q.dropped == p.dropped + j - |Carried(p.h.ids, a.write, j)|
    && |q.h.fate| == |p.h.fate| && !q.paused
    && (forall k :: 0 <= k < j ==> q.h.fate[p.h.ids[k]] == if a.write(k).carried then Delivered else Fate.Dropped)
    && if j == |p.queue| then q.queue == [] && q.state.Up? && q.since == p.since
       else if a.write(j).Full? then
         && q.queue == p.queue[j..] && q.h.ids == p.h.ids[j..] && q.state.Up? && q.since == p.since
         && forall k :: j <= k < |p.queue| ==> q.h.fate[p.h.ids[k]] == Queued
       else
         && q.queue == [] && (forall k :: j <= k < |p.queue| ==> q.h.fate[p.h.ids[k]] == Cleared)
         && if a.write(j).Fault? then q.state.NoTarget? && q.since == a.now else q.state.NoHeader? && q.since == 0
  }

  lemma DrainFlushes(p: Port, a: Answers, j: nat)
    requires Kept(p) && p.state.Up? && !p.paused && Leading(a.write, |p.queue|, j)
    ensures Tidy(p) && FlushedTo(p, Drain(p, a, 0), a, j)
  {
    KeptIsTidy(p);
    DrainPops(p, a, j);
    PoppedIsFlushed(p, a.write, j);
    var f := Popped(p, a.write, j);
    RestOpen(p, f, a.write, j);
    StopsAt(f, a, j);
    hide Kept, Popped, FlushedTo, Flushed, Leading, WentOut;
    if j == |p.queue| || a.write(j).Full? {
      StopsKept(p, f, a, j);
    } else if a.write(j).Fault? {
      StopsClosed(p, f, a, j, NoTarget, a.now);
    } else {
      StopsClosed(p, f, a, j, NoHeader, 0);
    }
  }

  lemma StopsKept(p: Port, f: Port, a: Answers, j: nat)
    requires Tidy(p) && p.state.Up? && !p.paused && Leading(a.write, |p.queue|, j) && Flushed(p, f, a.write, j)
    requires j == |p.queue| || a.write(j).Full?
    requires forall k :: j <= k < |p.queue| ==> f.h.fate[p.h.ids[k]] == Queued
    ensures FlushedTo(p, f, a, j)
  {
    assert forall k :: 0 <= k < j ==> a.write(k).Sent?;
    hide Carried, Leading, WentOut;
  }

  lemma StopsClosed(p: Port, f: Port, a: Answers, j: nat, why: State, t: nat)
    requires Tidy(p) && !p.paused && Leading(a.write, |p.queue|, j) && Flushed(p, f, a.write, j) && j < |p.queue|
    requires if a.write(j).Fault? then why == NoTarget && t == a.now else !a.write(j).Full? && why == NoHeader && t == 0
    requires forall k :: j <= k < |p.queue| ==> p.h.ids[k] in f.h.ids
    requires forall k :: 0 <= k < j ==> p.h.ids[k] !in f.h.ids
    ensures FlushedTo(p, Close(f, why).(since := t), a, j)
  {
    assert forall k :: 0 <= k < j ==> a.write(k).Sent?;
    hide Carried, Leading, WentOut;
  }

  /** A poll with the session up, its header not due for a check or found intact. */
  lemma PollFlushes(p: Port, a: Answers, j: nat)
    requires Kept(p) && p.state.Up? && !p.paused && Checked(p, a) && Leading(a.write, |p.queue|, j)
    ensures Tidy(p)
    ensures FlushedTo(if a.now - p.since > 100_000 then p.(since := a.now) else p, Step(p, Poll(a)), a, j)
  {
    var r := if a.now - p.since > 100_000 then p.(since := a.now) else p;
    SinceKeeps(p, a.now);
    KeptIsTidy(p);
    PollDrains(p, a);
    hide Kept, FlushedTo, Drain, Step, Leading, Checked;
    DrainFlushes(r, a, j);
  }

  lemma PollDrains(p: Port, a: Answers)
    requires Kept(p) && p.state.Up? && !p.paused && Checked(p, a)
    ensures Kept(p.(since := a.now))
    ensures Step(p, Poll(a)) == Drain(if a.now - p.since > 100_000 then p.(since := a.now) else p, a, 0)
  {
    SinceKeeps(p, a.now);
    hide Kept, Drain;
  }

  /** What is left after `j` packets is queued still. */
  lemma RestOpen(p: Port, f: Port, write: nat -> Write, j: nat)
    requires Kept(p) && Kept(f) && j <= |p.queue| && Tidy(p) && Flushed(p, f, write, j)
    ensures forall k :: j <= k < |p.queue| ==> f.h.fate[p.h.ids[k]] == Queued && p.h.ids[k] in f.h.ids
    ensures forall k :: 0 <= k < j ==> p.h.ids[k] !in f.h.ids
  {
    assert forall k :: j <= k < |p.queue| ==> f.h.ids[k - j] == p.h.ids[k];
    hide Key, InOrder, Newest, Settled;
  }

  /** The write that does not go out. */
  lemma StopsAt(f: Port, a: Answers, j: nat)
    requires Kept(f) && (f.queue != [] ==> !a.write(j).Sent?)
    ensures Drain(f, a, j) ==
            if f.queue == [] || a.write(j).Full? then f
            else if a.write(j).Fault? then Close(f, NoTarget).(since := a.now)
            else Close(f, NoHeader).(since := 0)
  {
    hide Kept;
  }

  // ---- the session ----

  /** The session goes down: nothing is queued, and what was is cleared. */
  ghost predicate Emptied(p: Port, q: Port)
    requires Tidy(p)
  {
    && q.queue == [] && q.h.log == p.h.log && q.h.out == p.h.out && q.dropped == p.dropped && |q.h.fate| == |p.h.fate|
    && forall n :: 0 <= n < |p.h.fate| ==> q.h.fate[n] == if n in p.h.ids then Cleared else p.h.fate[n]
  }

  /** A hold, a pause and a header found wrong each empty the queue; only a release ends a hold, and the port then looks for
      its header at once. */
  lemma SessionEnds(p: Port, a: Answers)
    requires Kept(p)
    ensures Tidy(p)
    ensures var q := Step(p, Hold); Emptied(p, q) && q.state.Held? && q.paused == p.paused
    ensures var q := Step(p, Pause(true)); Emptied(p, q) && q.paused && q.state == p.state && q.since == p.since
    ensures Step(p, Pause(false)) == p.(paused := false)
    ensures var q := Step(p, Release); if p.state.Held? then Emptied(p, q) && q.state.NoHeader? && q.since == 0 else q == p
    ensures p.state.Up? && !p.paused && !Checked(p, a) ==>
              var q := Step(p, Poll(a));
              && Emptied(p, q)
              && (q.state, q.since) == if a.header.HeaderFault? then (NoTarget, a.now)
                                       else if a.header.OtherMagic? then (NoHeader, a.now)
                                       else (NoHeader, 0)
  {
    KeptIsTidy(p);
    hide Kept, Drain;
  }

  /** A port comes up exactly at an acknowledged attach. One that waits for it gives up after two seconds; one that is down
      tries again after half a second, or at once where it has never tried. */
  lemma SessionComesUp(p: Port, a: Answers)
    requires Kept(p) && !p.state.Up?
    ensures var q := Step(p, Poll(a));
            && (q.state.Up? <==> p.state.Attaching? && !p.paused && a.ack.Acked?)
            && q.queue == [] && q.h.out == p.h.out
            && (p.state.Held? || p.paused ==> q == p)
            && (p.state.Attaching? && !p.paused ==>
                  (q.state, q.since) == if a.ack.Acked? then (Up, a.now)
                                        else if a.ack.AckFault? then (NoTarget, a.now)
                                        else if a.now - p.since > 2_000_000 then (NoHeader, a.now)
                                        else (p.state, p.since))
            && (!p.state.Attaching? && !p.state.Held? && !p.paused ==>
                  if p.since == 0 || a.now - p.since > 500_000 then
                    q.since == (if a.now < 1 then 1 else a.now) && q.state == if a.opens.Up? || a.opens.Held? then NoTarget else a.opens
                  else q.state == p.state && q.since == p.since)
  {
    assert p.queue == [];
    hide Kept, Drain;
  }
}
