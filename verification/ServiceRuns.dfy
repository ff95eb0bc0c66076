/** What the two clients are told, over every run: GDB how its load ended, the terminal tool how its flash did, and who is
    refused meanwhile. */
module ServiceRuns {
  import opened Bytes
  import opened Parts
  import opened Services
  import Bulk
  import Mailbox

  // ---- GDB's load ----

  predicate Ends(e: Event) {
    e.Poll? && e.e.Finished?
  }

  /** GDB's job runs: no result yet. */
  predicate Loading(s: Svc, image: seq<Byte>) {
    s.job == Some(Job(image, Halt)) && s.load.Flashing?
  }

  lemma LoadingGoesOn(s: Svc, e: Event, image: seq<Byte>, hash: Hash)
    requires Ok(s, hash) && Loading(s, image) && !Ends(e) && !e.GdbStart?
    ensures Loading(Step(s, e, hash).0, image)
  {
    JobUndisturbed(s, e, hash);
  }

  /** A started load runs on the collected bytes, and through any run without its end or another start GDB is told
      nothing. */
  lemma {:induction false} LoadingLasts(s: Svc, events: seq<Event>, image: seq<Byte>, hash: Hash)
    requires Ok(s, hash) && Loading(s, image)
    requires forall i :: 0 <= i < |events| ==> !Ends(events[i]) && !events[i].GdbStart?
    ensures Loading(RunAll(s, events, hash), image) && Result(RunAll(s, events, hash)).None?
  {
    hide Step, Ok;
    if events != [] {
      LoadingLasts(s, events[..|events| - 1], image, hash);
      LoadingGoesOn(RunAll(s, events[..|events| - 1], hash), events[|events| - 1], image, hash);
    }
  }

  lemma GdbStarts(s: Svc, hash: Hash)
    requires Ok(s, hash) && s.load.Collecting? && s.rx.len > 0
    ensures Loading(Step(s, GdbStart, hash).0, s.rx.Data()) && Ok(Step(s, GdbStart, hash).0, hash)
  {
    StepKeeps(s, GdbStart, hash);
  }

  /** GDB's flash, whatever else happens while it runs: until it ends the answer is none, once it has it is how it ended, and
      the one after that is none again. */
  lemma LoadEndsAsTheJob(s: Svc, during: seq<Event>, ok: bool, hash: Hash)
    requires Ok(s, hash) && s.load.Collecting? && s.rx.len > 0
    requires forall i :: 0 <= i < |during| ==> !Ends(during[i]) && !during[i].GdbStart?
    ensures Ok(Step(s, GdbStart, hash).0, hash)
    ensures var n := RunAll(Step(s, GdbStart, hash).0, during, hash);
            && n.job == Some(Job(s.rx.Data(), Halt)) && Result(n) == None
            && var (over, out) := Step(n, Poll(Finished(ok)), hash);
               && over.job.None? && over.rx.len == 0 && over.port.NoHeader? && out == [] && Result(over) == Some(ok)
               && Result(Step(over, GdbResult, hash).0) == None && Step(n, Poll(Progress), hash) == (n, [])
  {
    GdbStarts(s, hash);
    var started := Step(s, GdbStart, hash).0;
    hide Ok, Step, RunAll, Loading;
    LoadingLasts(started, during, s.rx.Data(), hash);
    LoadEnd(RunAll(started, during, hash), s.rx.Data(), ok, hash);
  }

  lemma LoadEnd(n: Svc, image: seq<Byte>, ok: bool, hash: Hash)
    requires Ok(n, hash) && Loading(n, image)
    ensures n.job == Some(Job(image, Halt)) && Step(n, Poll(Progress), hash) == (n, [])
    ensures var (over, out) := Step(n, Poll(Finished(ok)), hash);
            && over.rx.Wf() && over.job.None? && over.rx.len == 0 && over.port.NoHeader? && out == [] && Result(over) == Some(ok)
            && Result(Step(over, GdbResult, hash).0) == None
  {
  }

  /** The condition is exact: a start while the job runs has GDB told of a success at once, with the job still to end. */
  lemma ToldAtTheEndIff(s: Svc, during: seq<Event>, image: seq<Byte>, hash: Hash)
    requires Ok(s, hash) && Loading(s, image) && forall i :: 0 <= i < |during| ==> !Ends(during[i])
    ensures (forall i :: 0 <= i < |during| ==> !during[i].GdbStart?)
            <==> forall k :: 0 <= k <= |during| ==> Result(RunAll(s, during[..k], hash)) == None
    ensures forall i :: 0 <= i < |during| && during[i].GdbStart? && (forall j :: 0 <= j < i ==> !during[j].GdbStart?) ==>
              var n := RunAll(s, during[..i + 1], hash); Result(n) == Some(true) && n.job == Some(Job(image, Halt))
  {
    hide Ok;
    forall k | 0 <= k <= |during| && forall j :: 0 <= j < k ==> !during[j].GdbStart?
      ensures Result(RunAll(s, during[..k], hash)) == None
    {
      LoadingLasts(s, during[..k], image, hash);
    }
    forall i | 0 <= i < |during| && during[i].GdbStart? && (forall j :: 0 <= j < i ==> !during[j].GdbStart?)
      ensures var n := RunAll(s, during[..i + 1], hash); Result(n) == Some(true) && n.job == Some(Job(image, Halt))
    {
      LoadingLasts(s, during[..i], image, hash);
      assert during[..i + 1][..i] == during[..i];
    }
    if exists i :: 0 <= i < |during| && during[i].GdbStart? {
      var i := FirstStart(during);
      assert Result(RunAll(s, during[..i + 1], hash)) == Some(true);
    }
  }

  lemma FirstStart(events: seq<Event>) returns (i: nat)
    requires exists i :: 0 <= i < |events| && events[i].GdbStart?
    ensures i < |events| && events[i].GdbStart? && forall j :: 0 <= j < i ==> !events[j].GdbStart?
  {
    i := 0;
    while !events[i].GdbStart?
      invariant i < |events| && forall j :: 0 <= j < i ==> !events[j].GdbStart?
      invariant exists k :: i <= k < |events| && events[k].GdbStart?
      decreases |events| - i
    {
      i := i + 1;
    }
  }

  // ---- what GDB loads ----

  /** What a run's placements leave, each over the ones before it, on what there was. */
  function Placed(base: seq<Byte>, events: seq<Event>): seq<Byte> {
    if events == [] then base
    else
      var a, e := Placed(base, events[..|events| - 1]), events[|events| - 1];
      if e.GdbPlace? && e.off + |e.data| <= IMAGE_BUFFER then Bulk.Overlay(a, e.off, e.data) else a
  }

  predicate Collects(e: Event) {
    !e.GdbStart? && !e.GdbDrop?
  }

  lemma PlacesOne(s: Svc, e: Event, hash: Hash)
    requires Ok(s, hash) && s.load.Collecting? && Collects(e)
    ensures var n := Step(s, e, hash).0;
            && n.load.Collecting?
            && n.rx.Data() == if e.GdbPlace? && e.off + |e.data| <= IMAGE_BUFFER then Bulk.Overlay(s.rx.Data(), e.off, e.data) else s.rx.Data()
  {
    if e.GdbPlace? {
      Bulk.PlaceOverlays(s.rx, e.off, e.data);
      hide Bulk.Place, Bulk.Overlay;
    }
  }

  /** Between a load's first bytes and its start, whatever else is sent, the buffer is the placements. */
  lemma {:induction false} GdbCollects(s: Svc, events: seq<Event>, hash: Hash)
    requires Ok(s, hash) && s.load.Collecting? && forall i :: 0 <= i < |events| ==> Collects(events[i])
    ensures var n := RunAll(s, events, hash); n.load.Collecting? && n.rx.Data() == Placed(s.rx.Data(), events)
  {
    hide Step, Ok;
    if events != [] {
      GdbCollects(s, events[..|events| - 1], hash);
      PlacesOne(RunAll(s, events[..|events| - 1], hash), events[|events| - 1], hash);
    }
  }

  /** So GDB's job flashes exactly what GDB has placed since its load began, on nothing of what the buffer held before. */
  lemma GdbFlashesWhatItPlaced(s: Svc, off: nat, data: seq<Byte>, events: seq<Event>, hash: Hash)
    requires Ok(s, hash) && s.job.None? && !s.load.Collecting? && off + |data| <= IMAGE_BUFFER
    requires forall i :: 0 <= i < |events| ==> Collects(events[i])
    ensures Ok(Step(s, GdbPlace(off, data), hash).0, hash)
    ensures var n := RunAll(Step(s, GdbPlace(off, data), hash).0, events, hash);
            var image := Placed(Bulk.Overlay([], off, data), events);
            && n.rx.Data() == image
            && (image != [] ==> Step(n, GdbStart, hash).0.job == Some(Job(image, Halt)))
            && (image == [] ==> Result(Step(n, GdbStart, hash).0) == Some(true) && Step(n, GdbStart, hash).0.job.None?)
  {
    StepKeeps(s, GdbPlace(off, data), hash);
    var p := Step(s, GdbPlace(off, data), hash).0;
    Bulk.PlaceOverlays(Bulk.Reset(s.rx), off, data);
    assert p.load.Collecting? && p.rx.Data() == Bulk.Overlay([], off, data);
    GdbCollects(p, events, hash);
    hide Bulk.Place, Bulk.Overlay, Placed;
    var n := RunAll(p, events, hash);
    if n.rx.len > 0 {
      GdbStarts(n, hash);
    }
  }

  /** GDB gone: what it was collecting is, and so is a result it has not asked for; a flash it started goes on. */
  lemma DropFrees(s: Svc, hash: Hash)
    requires Ok(s, hash)
    ensures var n := Step(s, GdbDrop, hash).0;
            && n.job == s.job && n.port == s.port && Result(n) == None && (n.GdbOwnsImage() <==> s.load.Flashing?)
            && (s.load.Collecting? ==> n.rx.Data() == [] && !n.rx.Complete())
            && (!s.load.Collecting? ==> n.rx == s.rx)
  {
  }

  // ---- the terminal tool's flash ----

  lemma {:induction false} PeerStays(s: Svc, events: seq<Event>, image: seq<Byte>, hash: Hash)
    requires Ok(s, hash) && Transferring(s, image, {}, hash) && forall i :: 0 <= i < |events| ==> Honest(events[i], image)
    ensures RunAll(s, events, hash).peer == s.peer
  {
    hide Ok, Transferring, Step, Honest;
    if events != [] {
      PeerStays(s, events[..|events| - 1], image, hash);
      PeerKept(RunAll(s, events[..|events| - 1], hash), events[|events| - 1], image, hash);
    }
  }

  lemma PeerKept(s: Svc, e: Event, image: seq<Byte>, hash: Hash)
    requires Ok(s, hash) && Honest(e, image)
    ensures Step(s, e, hash).0.peer == s.peer
  {
    hide Ok, Bulk.Take, Bulk.Begin;
  }

  /** The terminal tool's flash, from its accepted begin by `src` on, whatever else happens until every chunk has come and
      then to the end: the end's one reply goes to `src` and says how it ended. */
  lemma FlashEndsAsTheJob(s: Svc, src: int, image: seq<Byte>, limit: Option<nat>, events: seq<Event>, ok: bool, hash: Hash)
    requires Ok(s, hash) && 0 < |image|
    requires Handled(s, src, FlashBegin(|image|, hash(image), limit), hash).1 == [Reply(src, Accepted)]
    requires forall i :: 0 <= i < |events| ==> Honest(events[i], image)
    ensures Ok(Handled(s, src, FlashBegin(|image|, hash(image), limit), hash).0, hash)
    ensures var n := RunAll(Handled(s, src, FlashBegin(|image|, hash(image), limit), hash).0, events, hash);
            AllSent(Sent(events), |image|) ==>
              var (over, out) := Step(n, Poll(Finished(ok)), hash);
              && over.job.None? && over.rx.len == 0 && over.port.NoHeader? && over.load == n.load
              && out == [Reply(src, if ok then Booted(|image|) else Failed)]
              && Step(n, Poll(Progress), hash) == (n, [Reply(src, Advanced)])
  {
    var begun := Handled(s, src, FlashBegin(|image|, hash(image), limit), hash).0;
    HandleKeeps(s, src, FlashBegin(|image|, hash(image), limit), hash);
    BeginTransfers(s, src, image, limit, hash);
    assert begun.peer == src;
    hide AllSent, Honest, Handled, RunAll, Ok, Step;
    PeerStays(begun, events, image, hash);
    TransferStartsTheJob(begun, events, image, hash);
    if AllSent(Sent(events), |image|) {
      EndIsReported(RunAll(begun, events, hash), src, image, ok, hash);
    }
  }

  lemma EndIsReported(n: Svc, src: int, image: seq<Byte>, ok: bool, hash: Hash)
    requires Ok(n, hash) && n.job == Some(Job(image, Boot)) && n.peer == src
    ensures var (over, out) := Step(n, Poll(Finished(ok)), hash);
            && over.job.None? && over.rx.len == 0 && over.port.NoHeader? && over.load == n.load
            && out == [Reply(src, if ok then Booted(|image|) else Failed)]
            && Step(n, Poll(Progress), hash) == (n, [Reply(src, Advanced)])
  {
    assert n.rx.Data() == image;
  }

  // ---- who is refused ----

  /** A command is answered busy exactly when it needs what another has: a flash's start or an exclusive command while GDB
      halts the core, owns the buffer or a job runs, an engine command while a job runs. It then changes nothing. */
  lemma BusyIff(s: Svc, src: int, m: Command, hash: Hash)
    requires Ok(s, hash)
    ensures Handled(s, src, m, hash).1 == [Reply(src, Busy)]
            <==> || ((m.FlashBegin? || m.Exclusive?) && (s.halted || s.load.Collecting? || s.job.Some?))
                 || (m.Engine? && s.job.Some?)
    ensures Handled(s, src, m, hash).1 == [Reply(src, Busy)] ==> Handled(s, src, m, hash).0 == s
  {
  }

  /** Any other command is answered as it went; an exclusive one has the mailbox look for its header again. None of them
      touches a transfer or a load. */
  lemma CommandsAnswered(s: Svc, src: int, done: bool, on: bool, hash: Hash)
    requires Ok(s, hash)
    ensures Handled(s, src, Other, hash) == (s, [Reply(src, Accepted)])
    ensures s.job.None? ==> Handled(s, src, Engine(done), hash) == (s, [Reply(src, if done then Accepted else Refused)])
    ensures s.job.None? && !s.halted && !s.load.Collecting? ==>
              Handled(s, src, Exclusive(done), hash) == (s.(port := Mailbox.NoHeader), [Reply(src, if done then Accepted else Refused)])
    ensures var h := Step(s, GdbHalted(on), hash).0;
            && h == s.(halted := h.halted)
            && (s.job.None? && !s.load.Collecting? ==> (Handled(h, src, Exclusive(done), hash).1 == [Reply(src, Busy)] <==> on))
  {
  }

  /** GDB's bytes take the buffer, whether they fit or not, unless a job runs; what does not fit is not placed. */
  lemma PlacingTakesTheBuffer(s: Svc, off: nat, data: seq<Byte>, hash: Hash)
    requires Ok(s, hash)
    ensures var n := Step(s, GdbPlace(off, data), hash).0;
            if s.job.Some? then n == s
            else
              var before := if s.load.Collecting? then s.rx.Data() else [];
              n.load.Collecting? && n.rx.Data() == if off + |data| <= IMAGE_BUFFER then Bulk.Overlay(before, off, data) else before
  {
    Bulk.PlaceOverlays(s.rx, off, data);
    Bulk.PlaceOverlays(Bulk.Reset(s.rx), off, data);
    hide Bulk.Place, Bulk.Overlay;
  }

  /** A flash is begun exactly when nobody is in its way, the part may be flashed and the image fits it and the buffer. */
  lemma BeginAcceptedIff(s: Svc, src: int, len: nat, sha: int, limit: Option<nat>, hash: Hash)
    requires Ok(s, hash)
    ensures Handled(s, src, FlashBegin(len, sha, limit), hash).1 == [Reply(src, Accepted)]
            <==> !s.halted && !s.load.Collecting? && s.job.None? && limit.Some? && 1 <= len <= limit.value && len <= 73_728
    ensures Handled(s, src, FlashBegin(len, sha, limit), hash).1 != [Reply(src, Accepted)] ==>
              Handled(s, src, FlashBegin(len, sha, limit), hash).0 == s
  {
  }

  /** A chunk's replies: none where there is no transfer, the whole length where there is nothing left to take, a refusal, or
      an acknowledgement where one is due and, once the image is all there, how it compares to its digest. */
  lemma ChunkAnswers(s: Svc, src: int, off: nat, data: seq<Byte>, hash: Hash)
    requires Ok(s, hash)
    ensures var (n, out) := Handled(s, src, FlashChunk(off, data), hash);
            if s.rx.len == 0 || s.load.Collecting? || s.load.Flashing? then n == s && out == []
            else if s.job.Some? || s.rx.contiguous == s.rx.len then n == s && out == [Reply(src, Ack(s.rx.len))]
            else
              var t := Bulk.Take(s.rx, off, data);
              if t.None? then n == s && out == [Reply(src, Refused)]
              else if !t.value.Complete() then
                n.job.None? && out == if t.value.unacked >= 8 then [Reply(src, Ack(t.value.contiguous))] else []
              else if hash(t.value.Data()) == s.sha then
                n.job == Some(Job(t.value.Data(), Boot)) && out == [Reply(src, Ack(s.rx.len)), Reply(s.peer, Receiving(s.rx.len))]
              else n.job.None? && n.rx.len == 0 && out == [Reply(src, Ack(s.rx.len)), Reply(s.peer, ShaMismatch)]
  {
    hide Bulk.Walk, Bulk.Patch;
  }
}
