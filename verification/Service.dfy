/** Two clients of one debug engine and one image buffer, with the commands between them: which of them has what, after any
    interleaving of their calls. */
module Services {
  import opened Bytes
  import opened Parts
  import Bulk
  import Mailbox

  type Rx = Bulk.Rx
  type Hash = seq<Byte> -> int

  datatype Finish = Boot | Halt

  /** A running flash, with the image it was started on. */
  datatype Job = Job(image: seq<Byte>, finish: Finish)

  datatype Load = Idle | Collecting | Flashing | Ended(ok: bool)

  datatype Svc = Svc(rx: Rx, sha: int, peer: int, job: Option<Job>, halted: bool, load: Load, port: Mailbox.State) {
    predicate GdbOwnsImage() {
      load.Collecting? || load.Flashing?
    }
  }

  datatype Body = Busy | Accepted | Refused | Ack(contiguous: nat) | Receiving(len: nat) | ShaMismatch | Failed | Advanced | Booted(len: nat)

  datatype Reply = Reply(dst: int, body: Body)

  /** A command with what the board answers to it: `limit` is the part's image limit, none when it must not be flashed. */
  datatype Command =
    | FlashBegin(len: nat, sha: int, limit: Option<nat>)
    | FlashChunk(off: nat, data: seq<Byte>)
    | Exclusive(done: bool)
    | Engine(done: bool)
    | Other

  datatype JobEvent = Pending | Progress | Finished(ok: bool)

  datatype Event =
    | Handle(src: int, m: Command)
    | GdbPlace(off: nat, data: seq<Byte>)
    | GdbStart
    | GdbResult
    | GdbDrop
    | GdbHalted(on: bool)
    | Poll(e: JobEvent)
    | Port(to: Mailbox.State)

  // ---- operations ----

  /** GDB asks for the buffer: refused during a job; otherwise it is GDB's from then on, and no transfer survives. */
  function GdbImage(s: Svc): Option<Svc> {
    if s.job.Some? then None
    else if s.load.Collecting? then Some(s)
    else Some(s.(rx := Bulk.Reset(s.rx), load := Collecting))
  }

  function GdbPlaced(s: Svc, off: nat, data: seq<Byte>): Svc
    requires s.rx.Wf()
  {
    var g := GdbImage(s);
    if g.None? then s
    else
      var rx := Bulk.Place(g.value.rx, off, data);
      if rx.None? then g.value else g.value.(rx := rx.value)
  }

  predicate InRange(len: nat) {
    1 <= len <= IMAGE_BUFFER
  }

  function GdbStarted(s: Svc): Svc
    requires s.rx.Wf()
  {
    if !s.load.Collecting? || s.rx.len == 0 then s.(load := Ended(true))
    else if InRange(s.rx.len) then s.(port := Mailbox.Held, job := Some(Job(s.rx.Data(), Halt)), load := Flashing)
    else s.(rx := Bulk.Reset(s.rx), load := Ended(false))
  }

  function GdbDropped(s: Svc): Svc {
    match s.load
    case Collecting => s.(rx := Bulk.Reset(s.rx), load := Idle)
    case Ended(_) => s.(load := Idle)
    case _ => s
  }

  /** What GDB is answered when it asks how its load ended; the answer is given once. */
  function Result(s: Svc): Option<bool> {
    if s.load.Ended? then Some(s.load.ok) else None
  }

  function Released(p: Mailbox.State): Mailbox.State {
    if p.Held? then Mailbox.NoHeader else p
  }

  function Begin(s: Svc, src: int, len: nat, sha: int, limit: Option<nat>): (Svc, seq<Reply>)
    requires s.rx.Wf()
  {
    if InRange(len) && limit.Some? && len <= limit.value then
      var rx := Bulk.Begin(s.rx, len);
      (s.(rx := if rx.Some? then rx.value else s.rx, sha := sha, peer := src), [Reply(src, Accepted)])
    else (s, [Reply(src, Refused)])
  }

  function Chunk(s: Svc, src: int, off: nat, data: seq<Byte>, hash: Hash): (Svc, seq<Reply>)
    requires s.rx.Wf()
  {
    if s.rx.len == 0 || s.GdbOwnsImage() then (s, [])
    else if s.job.Some? || s.rx.Complete() then (s, [Reply(src, Ack(s.rx.len))])
    else
      var t := Bulk.Take(s.rx, off, data);
      if t.None? then (s, [Reply(src, Refused)])
      else
        var acks := if Bulk.AckDue(t.value) then [Reply(src, Ack(t.value.contiguous))] else [];
        var n := s.(rx := Bulk.TakeAck(t.value));
        if !n.rx.Complete() then (n, acks)
        else if hash(n.rx.Data()) != n.sha then (n.(rx := Bulk.Reset(n.rx)), acks + [Reply(n.peer, ShaMismatch)])
        else if InRange(n.rx.len) then
          (n.(port := Mailbox.Held, job := Some(Job(n.rx.Data(), Boot))), acks + [Reply(n.peer, Receiving(n.rx.len))])
        else (n.(rx := Bulk.Reset(n.rx)), acks + [Reply(n.peer, Failed)])
  }

  function Handled(s: Svc, src: int, m: Command, hash: Hash): (Svc, seq<Reply>)
    requires s.rx.Wf()
  {
    if (s.halted || s.GdbOwnsImage()) && (m.Exclusive? || m.FlashBegin?) then (s, [Reply(src, Busy)])
    else if s.job.Some? && (m.Exclusive? || m.FlashBegin? || m.Engine?) then (s, [Reply(src, Busy)])
    else
      match m
      case FlashBegin(len, sha, limit) => Begin(s, src, len, sha, limit)
      case FlashChunk(off, data) => Chunk(s, src, off, data, hash)
      case Exclusive(done) => (s.(port := Mailbox.NoHeader), [Reply(src, if done then Accepted else Refused)])
      case Engine(done) => (s, [Reply(src, if done then Accepted else Refused)])
      case Other => (s, [Reply(src, Accepted)])
  }

  function Polled(s: Svc, e: JobEvent): (Svc, seq<Reply>) {
    if s.job.None? then (s, [])
    else match e
      case Pending => (s, [])
      case Progress => (s, if s.load.Flashing? then [] else [Reply(s.peer, Advanced)])
      case Finished(ok) =>
        var n := s.(job := None, rx := Bulk.Reset(s.rx), port := Released(s.port));
        if s.load.Flashing? then (n.(load := Ended(ok)), [])
        else (n, [Reply(s.peer, if ok then Booted(s.rx.len) else Failed)])
  }

  /** The port's own polls and sends: it comes and goes, but a held port stays held, and no other becomes so. */
  predicate PortMoves(before: Mailbox.State, after: Mailbox.State) {
    before.Held? <==> after.Held?
  }

  function Step(s: Svc, e: Event, hash: Hash): (Svc, seq<Reply>)
    requires s.rx.Wf()
  {
    match e
    case Handle(src, m) => Handled(s, src, m, hash)
    case GdbPlace(off, data) => (GdbPlaced(s, off, data), [])
    case GdbStart => (GdbStarted(s), [])
    case GdbResult => (if s.load.Ended? then s.(load := Idle) else s, [])
    case GdbDrop => (GdbDropped(s), [])
    case GdbHalted(on) => (s.(halted := on), [])
    case Poll(j) => Polled(s, j)
    case Port(to) => (if PortMoves(s.port, to) then s.(port := to) else s, [])
  }

  // ---- what every interleaving keeps ----

  predicate Ok(s: Svc, hash: Hash) {
    && s.rx.Wf()
    && (s.job.Some? <==> s.port.Held?)
    && (s.job.Some? ==> s.rx.len > 0 && s.rx.Data() == s.job.value.image)
    && (s.job.Some? && s.job.value.finish.Boot? ==> s.rx.Complete() && hash(s.job.value.image) == s.sha)
    && (s.load.Collecting? ==> s.job.None?)
    && (s.load.Flashing? ==> s.job.Some? && s.job.value.finish.Halt?)
    && (s.job.None? && !s.load.Collecting? ==> Bulk.Walked(s.rx))
  }

  lemma StepKeeps(s: Svc, e: Event, hash: Hash)
    requires Ok(s, hash)
    ensures Ok(Step(s, e, hash).0, hash)
  {
    match e
    case Handle(src, m) => HandleKeeps(s, src, m, hash);
    case GdbPlace(off, data) =>
    case _ =>
  }

  lemma HandleKeeps(s: Svc, src: int, m: Command, hash: Hash)
    requires Ok(s, hash)
    ensures Ok(Handled(s, src, m, hash).0, hash)
  {
    match m
    case FlashBegin(len, _, _) =>
      if InRange(len) {
        Bulk.BeginWalked(s.rx, len);
      }
    case FlashChunk(off, data) =>
      if s.rx.len != 0 && !s.GdbOwnsImage() && s.job.None? && Bulk.Take(s.rx, off, data).Some? {
        Bulk.TakeWalked(s.rx, off, data);
      }
    case _ =>
  }

  /** Only a finished poll ends a job; until then it, its image and the buffer under it stand still. */
  lemma JobUndisturbed(s: Svc, e: Event, hash: Hash)
    requires Ok(s, hash) && s.job.Some?
    ensures var n := Step(s, e, hash).0;
            if e.Poll? && e.e.Finished? then n.job.None? && n.rx.len == 0 && !n.port.Held?
            else n.job == s.job && n.rx == s.rx && n.sha == s.sha && n.port.Held?
  {
  }

  /** What the terminal tool sends while GDB owns the buffer changes nothing. */
  lemma GdbBufferSafe(s: Svc, src: int, m: Command, hash: Hash)
    requires Ok(s, hash) && s.GdbOwnsImage() && (m.FlashBegin? || m.FlashChunk? || m.Exclusive?)
    ensures Handled(s, src, m, hash).0 == s
    ensures Handled(s, src, m, hash).1 == if m.FlashChunk? then [] else [Reply(src, Busy)]
  {
  }

  // ---- every run ----

  function RunAll(s: Svc, events: seq<Event>, hash: Hash): (n: Svc)
    requires Ok(s, hash)
    ensures Ok(n, hash)
  {
    if events == [] then s
    else
      var p := RunAll(s, events[..|events| - 1], hash);
      StepKeeps(p, events[|events| - 1], hash);
      Step(p, events[|events| - 1], hash).0
  }

  /** Through any run without the job's end, the job goes on over the very bytes it was started on, the engine its own. */
  lemma {:induction false} ImageFrozen(s: Svc, events: seq<Event>, hash: Hash)
    requires Ok(s, hash) && s.job.Some? && forall i :: 0 <= i < |events| ==> !(events[i].Poll? && events[i].e.Finished?)
    ensures var n := RunAll(s, events, hash);
            n.job == s.job && n.rx == s.rx && n.rx.Data() == s.job.value.image && n.port.Held?
  {
    if events != [] {
      ImageFrozen(s, events[..|events| - 1], hash);
      JobUndisturbed(RunAll(s, events[..|events| - 1], hash), events[|events| - 1], hash);
    }
  }

  /** A transfer under way: what the sender sends is the image's, and nobody takes the buffer or ends the job. */
  predicate Honest(e: Event, image: seq<Byte>) {
    match e
    case Handle(_, m) =>
      (match m
       case FlashChunk(off, data) => off % 48 == 0 && off < |image| && data == image[off..off + Bulk.Want(|image|, off)]
       case FlashBegin(_, _, _) => false
       case _ => true)
    case GdbPlace(_, _) => false
    case Poll(j) => !j.Finished?
    case _ => true
  }

  /** The chunks sent by a run. */
  function Sent(events: seq<Event>): set<nat> {
    set i | 0 <= i < |events| && events[i].Handle? && events[i].m.FlashChunk? :: events[i].m.off
  }

  predicate AllSent(sent: set<nat>, len: nat) {
    forall o: nat :: o < len && o % 48 == 0 ==> o in sent
  }

  predicate Arrived(rx: Rx, sent: set<nat>)
    requires rx.Wf()
  {
    forall o: nat :: o < rx.len && o % 48 == 0 ==> (o in sent <==> rx.have[o / 48])
  }

  /** A transfer of `image` of which the chunks at `sent` have come. */
  predicate Transferring(s: Svc, image: seq<Byte>, sent: set<nat>, hash: Hash) {
    && Ok(s, hash) && !s.GdbOwnsImage() && s.sha == hash(image) && s.rx.len == |image| && 0 < |image| <= IMAGE_BUFFER
    && (forall o :: o in sent ==> o % 48 == 0 && o < |image|)
    && if AllSent(sent, |image|) then s.job == Some(Job(image, Boot))
       else
         && s.job.None? && Bulk.Matches(s.rx, image)
         && Arrived(s.rx, sent)
  }

  lemma TransferComplete(rx: Rx, image: seq<Byte>, sent: set<nat>)
    requires rx.Wf() && Bulk.Walked(rx) && rx.len == |image| > 0 && Bulk.Matches(rx, image)
    requires Arrived(rx, sent)
    ensures rx.Complete() <==> AllSent(sent, |image|)
    ensures rx.Complete() ==> rx.Data() == image
  {
    Bulk.WalkEnds(rx.have, rx.len, 0);
    forall i | 0 <= i < Bulk.Chunks(rx.len)
      ensures rx.have[i] <==> i * Bulk.CHUNK in sent
    {
      assert i * Bulk.CHUNK % 48 == 0 && i * Bulk.CHUNK / 48 == i;
    }
    if rx.Complete() {
      assert forall o :: 0 <= o < rx.len ==> 0 <= o / 48 < Bulk.Chunks(rx.len);
    }
  }

  lemma NothingSent(len: nat)
    requires 0 < len
    ensures !AllSent({}, len)
  {
    var none: set<nat> := {};
    assert 0 !in none;
  }

  /** The receiver after an honest chunk. */
  lemma ChunkArrives(rx: Rx, off: nat, image: seq<Byte>, sent: set<nat>)
    requires rx.Wf() && Bulk.Walked(rx) && rx.len == |image| && Bulk.Matches(rx, image) && Arrived(rx, sent)
    requires off % 48 == 0 && off < |image|
    ensures var t := Bulk.Take(rx, off, image[off..off + Bulk.Want(|image|, off)]);
            && t.Some?
            && var n := Bulk.TakeAck(t.value);
               && n.Wf() && n.len == |image| && Bulk.Walked(n) && Bulk.Matches(n, image) && Arrived(n, sent + {off})
               && (n.Complete() <==> AllSent(sent + {off}, |image|)) && (n.Complete() ==> n.Data() == image)
  {
    Bulk.TakeMatches(rx, off, image);
    Bulk.TakeWalked(rx, off, image[off..off + Bulk.Want(|image|, off)]);
    var n := Bulk.TakeAck(Bulk.Take(rx, off, image[off..off + Bulk.Want(|image|, off)]).value);
    TransferComplete(n, image, sent + {off});
    hide AllSent;
  }

  lemma ChunkTransfers(s: Svc, src: int, off: nat, image: seq<Byte>, sent: set<nat>, hash: Hash)
    requires Transferring(s, image, sent, hash) && off % 48 == 0 && off < |image|
    ensures Transferring(Chunk(s, src, off, image[off..off + Bulk.Want(|image|, off)], hash).0, image, sent + {off}, hash)
  {
    var data := image[off..off + Bulk.Want(|image|, off)];
    StepKeeps(s, Handle(src, FlashChunk(off, data)), hash);
    if AllSent(sent, |image|) {
      assert AllSent(sent + {off}, |image|);
      hide Bulk.Take, Arrived;
    } else {
      TransferComplete(s.rx, image, sent);
      ChunkArrives(s.rx, off, image, sent);
      hide AllSent, Bulk.Take, Bulk.Matches, Bulk.Walked, Arrived;
    }
  }

  lemma OtherTransfers(s: Svc, e: Event, image: seq<Byte>, sent: set<nat>, hash: Hash)
    requires Transferring(s, image, sent, hash) && Honest(e, image) && !(e.Handle? && e.m.FlashChunk?)
    ensures Transferring(Step(s, e, hash).0, image, sent, hash)
  {
    StepKeeps(s, e, hash);
    hide AllSent, Bulk.Matches, Bulk.Walked, Arrived, Chunk, Begin;
  }

  /** A terminal flash, whatever else happens meanwhile: the job has started exactly when every chunk of the image has
      come, in any order and however often, and it runs on that image. */
  lemma {:induction false} TransferStartsTheJob(s: Svc, events: seq<Event>, image: seq<Byte>, hash: Hash)
    requires Ok(s, hash) && Transferring(s, image, {}, hash) && forall i :: 0 <= i < |events| ==> Honest(events[i], image)
    ensures var n := RunAll(s, events, hash);
            && Transferring(n, image, Sent(events), hash)
            && (AllSent(Sent(events), |image|) ==> n.job == Some(Job(image, Boot)))
            && (!AllSent(Sent(events), |image|) ==> n.job.None?)
  {
    hide Transferring, Step, Ok, AllSent;
    if events == [] {
      assert Sent(events) == {};
    } else {
      var front, e := events[..|events| - 1], events[|events| - 1];
      TransferStartsTheJob(s, front, image, hash);
      var p := RunAll(s, front, hash);
      assert events == front + [e];
      SentGrows(front, e);
      if e.Handle? && e.m.FlashChunk? {
        ChunkTransfers(p, e.src, e.m.off, image, Sent(front), hash);
        ChunkIsStep(p, e.src, e.m, image, Sent(front), hash);
      } else {
        OtherTransfers(p, e, image, Sent(front), hash);
      }
    }
    TransferState(RunAll(s, events, hash), image, Sent(events), hash);
  }

  lemma ChunkIsStep(s: Svc, src: int, m: Command, image: seq<Byte>, sent: set<nat>, hash: Hash)
    requires Transferring(s, image, sent, hash) && m.FlashChunk?
    ensures Step(s, Handle(src, m), hash) == Chunk(s, src, m.off, m.data, hash)
  {
    hide Chunk;
  }

  lemma TransferState(s: Svc, image: seq<Byte>, sent: set<nat>, hash: Hash)
    requires Transferring(s, image, sent, hash)
    ensures if AllSent(sent, |image|) then s.job == Some(Job(image, Boot)) else s.job.None?
  {
    hide AllSent;
  }

  lemma SentGrows(front: seq<Event>, e: Event)
    ensures Sent(front + [e]) == if e.Handle? && e.m.FlashChunk? then Sent(front) + {e.m.off} else Sent(front)
  {
    var all := front + [e];
    assert forall i :: 0 <= i < |front| ==> all[i] == front[i];
    assert all[|front|] == e;
  }

  /** An accepted `FLASH_BEGIN` starts such a transfer, on nothing of what the buffer held. */
  lemma BeginTransfers(s: Svc, src: int, image: seq<Byte>, limit: Option<nat>, hash: Hash)
    requires Ok(s, hash) && 0 < |image|
    requires Handled(s, src, FlashBegin(|image|, hash(image), limit), hash).1 == [Reply(src, Accepted)]
    ensures Transferring(Handled(s, src, FlashBegin(|image|, hash(image), limit), hash).0, image, {}, hash)
  {
    HandleKeeps(s, src, FlashBegin(|image|, hash(image), limit), hash);
    Bulk.BeginWalked(s.rx, |image|);
    NothingSent(|image|);
  }

  // ---- the service ----

  class Service {
    const hash: Hash
    const rx: Bulk.BulkRx
    var sha: int
    var peer: int
    /** The running job's image length and finish; the image is the buffer's. */
    var job: Option<Finish>
    var halted: bool
    var load: Load
    ghost var image: seq<Byte>

    ghost function View(port: Mailbox.MailboxPort): Svc
      reads this, rx, rx.buf, rx.have, port
    {
      Svc(rx.View(), sha, peer, if job.Some? then Some(Job(image, job.value)) else None, halted, load, port.state)
    }

    ghost predicate Valid(port: Mailbox.MailboxPort)
      reads this, rx, rx.buf, rx.have, port
    {
      rx.Valid() && port.Valid() && Ok(View(port), hash)
    }

    constructor (hash: Hash, port: Mailbox.MailboxPort)
      requires port.Valid() && !port.state.Held?
      ensures Valid(port) && fresh(rx) && fresh(rx.buf) && fresh(rx.have)
    {
      this.hash := hash;
      rx := new Bulk.BulkRx();
      sha, peer, job, halted, load := 0, 0, None, false, Idle;
    }

    /** The job starts on what the buffer holds, with the engine held for it. */
    method StartJob(port: Mailbox.MailboxPort, finish: Finish)
      requires rx.Valid() && port.Valid()
      modifies this`job, this`image, port
      ensures rx.Valid() && port.Valid()
      ensures View(port) == old(View(port)).(port := Mailbox.Held, job := Some(Job(old(rx.View()).Data(), finish)))
    {
      port.TakeDown();
      job, image := Some(finish), rx.View().Data();
    }

    /** The image buffer's next bytes from GDB, which takes it with its first call; refused while a flash runs. */
    method GdbWrite(port: Mailbox.MailboxPort, off: nat, data: seq<Byte>) returns (ok: bool)
      requires Valid(port)
      modifies this, rx, rx.buf, rx.have
      ensures Valid(port) && View(port) == Step(old(View(port)), GdbPlace(off, data), hash).0
      ensures ok <==> old(job).None? && off + |data| <= Bulk.CAPACITY
    {
      StepKeeps(View(port), GdbPlace(off, data), hash);
      if job.Some? {
        return false;
      }
      if !load.Collecting? {
        rx.Forget();
        load := Collecting;
      }
      ok := rx.PlaceAt(off, data);
    }

    /** The load's bytes are all in: a job on them, or success already if there are none. The buffer never holds more than a job
        takes, so none is refused for its length. */
    method GdbLoadStart(port: Mailbox.MailboxPort)
      requires Valid(port)
      modifies this, rx, port
      ensures Valid(port) && View(port) == Step(old(View(port)), GdbStart, hash).0
    {
      StepKeeps(View(port), GdbStart, hash);
      if !load.Collecting? || rx.len == 0 {
        load := Ended(true);
      } else {
        assert InRange(rx.len);
        StartJob(port, Halt);
        load := Flashing;
      }
    }

    method GdbLoadResult(port: Mailbox.MailboxPort) returns (r: Option<bool>)
      requires Valid(port)
      modifies this
      ensures Valid(port) && View(port) == Step(old(View(port)), GdbResult, hash).0
      ensures r == Result(old(View(port)))
    {
      if load.Ended? {
        r, load := Some(load.ok), Idle;
      } else {
        r := None;
      }
    }

    method GdbLoadDrop(port: Mailbox.MailboxPort)
      requires Valid(port)
      modifies this, rx
      ensures Valid(port) && View(port) == Step(old(View(port)), Event.GdbDrop, hash).0
    {
      StepKeeps(View(port), Event.GdbDrop, hash);
      match load {
        case Collecting =>
          rx.Forget();
          load := Idle;
        case Ended(_) => load := Idle;
        case _ =>
      }
    }

    method Answer(port: Mailbox.MailboxPort, src: int, m: Command) returns (out: seq<Reply>)
      requires Valid(port)
      modifies this, rx, rx.buf, rx.have, port
      ensures Valid(port) && (View(port), out) == Step(old(View(port)), Handle(src, m), hash)
    {
      StepKeeps(View(port), Handle(src, m), hash);
      if (halted || load.Collecting? || load.Flashing?) && (m.Exclusive? || m.FlashBegin?) {
        return [Reply(src, Busy)];
      }
      if job.Some? && (m.Exclusive? || m.FlashBegin? || m.Engine?) {
        return [Reply(src, Busy)];
      }
      match m {
        case FlashBegin(n, sum, limit) =>
          if InRange(n) && limit.Some? && n <= limit.value {
            var ok := rx.Start(n);
            sha, peer := sum, src;
            out := [Reply(src, Accepted)];
          } else {
            out := [Reply(src, Refused)];
          }
        case FlashChunk(off, data) => out := TakeChunk(port, src, off, data);
        case Exclusive(done) =>
          port.TakeDown();
          port.GiveBack();
          out := [Reply(src, if done then Accepted else Refused)];
        case Engine(done) => out := [Reply(src, if done then Accepted else Refused)];
        case Other => out := [Reply(src, Accepted)];
      }
    }

    method TakeChunk(port: Mailbox.MailboxPort, src: int, off: nat, data: seq<Byte>) returns (out: seq<Reply>)
      requires Valid(port)
      modifies this, rx, rx.buf, rx.have, port
      ensures rx.Valid() && port.Valid() && (View(port), out) == Chunk(old(View(port)), src, off, data, hash)
    {
      hide Bulk.Take, Bulk.Walked;
      if rx.len == 0 || load.Collecting? || load.Flashing? {
        return [];
      }
      if job.Some? || rx.contiguous == rx.len {
        return [Reply(src, Ack(rx.len))];
      }
      var ok := rx.Chunk(off, data);
      if !ok {
        return [Reply(src, Refused)];
      }
      var ack := rx.NextAck();
      out := if ack.Some? then [Reply(src, Ack(ack.value))] else [];
      if !(rx.len > 0 && rx.contiguous == rx.len) {
        return;
      }
      if hash(rx.buf[..rx.len]) != sha {
        rx.Forget();
        out := out + [Reply(peer, ShaMismatch)];
      } else {
        assert InRange(rx.len);
        StartJob(port, Boot);
        out := out + [Reply(peer, Receiving(rx.len))];
      }
    }

    /** One pass over a running flash, `e` what its next piece did. */
    method PollJob(port: Mailbox.MailboxPort, e: JobEvent) returns (out: seq<Reply>)
      requires Valid(port)
      modifies this, rx, port
      ensures Valid(port) && (View(port), out) == Step(old(View(port)), Poll(e), hash)
    {
      StepKeeps(View(port), Poll(e), hash);
      out := [];
      if job.None? {
        return;
      }
      match e {
        case Pending =>
        case Progress =>
          if !load.Flashing? {
            out := [Reply(peer, Advanced)];
          }
        case Finished(ok) =>
          var len := rx.len;
          job := None;
          rx.Forget();
          port.GiveBack();
          if load.Flashing? {
            load := Ended(ok);
          } else {
            out := [Reply(peer, if ok then Booted(len) else Failed)];
          }
      }
    }
  }
}
