/** The protocol between the bridge and the code it runs on the board: each bus access a step, with any number of the
    loader's turns between two. */
module Loaders {
  import opened Bytes
  import opened Parts
  import opened Chips
  import opened Ring

  /** Bytes that become readable together. */
  const CHUNK := 1024

  datatype Outcome = Outcome(stat: Stat, addr: int)

  datatype Phase = Feed | Drain | Halt | Done(outcome: Outcome)

  /** Where a poll stands between two of its bus accesses: between polls, before the `w`-th word of a
      chunk, or before the write of `wp = 0`. */
  datatype Pc = Idle | Writing(w: nat) | Ending

  /** The bridge's record of a run: what it is to program, how much it has published, and its copies of both pointers. */
  datatype Run = Run(ringLen: nat, addr: int, len: nat, sent: nat, wp: int, rp: int, phase: Phase, pc: Pc) {

    predicate Wf() {
      0 < ringLen && sent <= len
    }

    function End(): int {
      addr + 2 * Halves(len)
    }

    /** The ring's fill as far as the bridge knows, which may be more than there still is. */
    function Used(): nat
      requires Wf()
    {
      if wp + ringLen < rp then 0 else Wrap(wp + ringLen - rp, ringLen)
    }

    /** The next chunk's bytes, what it moves `wp` by, and its words. */
    function Next(): nat
      requires Wf()
    {
      if len - sent < CHUNK then len - sent else CHUNK
    }

    function Advance(): nat
      requires Wf()
    {
      2 * Halves(Next())
    }

    function Words(): nat
      requires Wf()
    {
      (Next() + 3) / 4
    }

    predicate Room()
      requires Wf()
    {
      Used() + Advance() < ringLen
    }
  }

  /** The run as it starts, and the chip as starting it leaves it: pointers at the ring's start, the
      register arguments set, the core resumed at the loader's entry. */
  function Begin(p: Part, addr: int, len: nat): (r: Run)
    requires Sound(p)
    ensures r.Wf()
  {
    Run(p.ring, addr, len, 0, RING_START, RING_START, Feed, Idle)
  }

  function Launch(c: Chip, addr: int, len: nat): (r: Chip)
    requires Wf(c) && c.loader.Off?
    requires FLASH_BASE <= addr && addr % 2 == 0 && addr + 2 * Halves(len) <= FLASH_BASE + c.part.FlashLen()
    ensures Wf(r)
  {
    var regs := Regs(RING_START, RING_START + c.part.ring, addr, Halves(len), c.part.StackTop(), LOADER_BASE + 1, true, c.regs.stat);
    Resume(c.(wp := RING_START, rp := RING_START, regs := regs))
  }

  /** A word written into the ring, low halfword first; outside it nothing modelled changes. */
  function WriteRing(c: Chip, a: int, lo: Half, hi: Half): (r: Chip)
    requires Wf(c)
    ensures Wf(r)
  {
    if RING_START <= a && a + 4 <= RING_START + 2 * |c.ring| then
      var i := (a - RING_START) / 2;
      c.(ring := c.ring[i := lo][i + 1 := hi])
    else c
  }

  /** The `k`-th word of the chunk of `n` bytes at `at`, padded with erased bytes. */
  function ChunkByte(data: seq<Byte>, at: nat, n: nat, o: nat): Byte {
    if o < n && at + o < |data| then data[at + o] else 0xFF
  }

  function ChunkHalf(data: seq<Byte>, at: nat, n: nat, j: nat): Half {
    Combine(ChunkByte(data, at, n, 2 * j), ChunkByte(data, at, n, 2 * j + 1))
  }

  /** The next bus access of the bridge. A step that changes nothing is a poll that answers `Waiting`. */
  function HostStep(r: Run, c: Chip, data: seq<Byte>): (n: (Run, Chip))
    requires r.Wf() && Wf(c)
    ensures n.0.Wf() && Wf(n.1)
  {
    match r.phase
    case Feed => FeedStep(r, c, data)
    case Drain =>
      if r.pc.Ending? then (r.(phase := Halt, pc := Idle), c.(wp := 0))
      else if c.rp == 0 then (r.(phase := Halt), c)
      else if c.rp == r.wp then (r.(rp := c.rp, pc := Ending), c)
      else (r.(rp := c.rp), c)
    case Halt =>
      if c.halted then (r.(phase := Done(Outcome(c.regs.stat, c.regs.r2))), c) else (r, c)
    case Done(_) => (r, c)
  }

  function FeedStep(r: Run, c: Chip, data: seq<Byte>): (n: (Run, Chip))
    requires r.Wf() && Wf(c)
    ensures n.0.Wf() && Wf(n.1)
  {
    if r.pc.Writing? then
      var w := r.pc.w;
      if w < r.Words() then
        (r.(pc := Writing(w + 1)),
         WriteRing(c, r.wp + 4 * w, ChunkHalf(data, r.sent, r.Next(), 2 * w), ChunkHalf(data, r.sent, r.Next(), 2 * w + 1)))
      else Publish(r, c)
    else if r.Room() then (r.(pc := Writing(0)), c)
    else if c.rp == 0 then (r.(phase := Halt), c)
    else
      var q := r.(rp := c.rp);
      (if q.Room() then q.(pc := Writing(0)) else q, c)
  }

  function Publish(r: Run, c: Chip): (n: (Run, Chip))
    requires r.Wf() && Wf(c)
    ensures n.0.Wf() && Wf(n.1)
  {
    var wp := if r.wp + r.Advance() == RING_START + r.ringLen then RING_START else r.wp + r.Advance();
    var sent := r.sent + r.Next();
    (r.(wp := wp, sent := sent, phase := if sent == r.len then Drain else Feed, pc := Idle), c.(wp := wp))
  }

  /** Who moves: the bridge makes its next bus access, or the loader its next turn. */
  datatype Actor = Bridge | Board

  function RunStep(s: (Run, Chip), a: Actor, data: seq<Byte>): (n: (Run, Chip))
    requires s.0.Wf() && Wf(s.1)
    ensures n.0.Wf() && Wf(n.1)
  {
    if a.Bridge? then HostStep(s.0, s.1, data) else (s.0, LoaderStep(s.1))
  }

  /** A run under a schedule: any interleaving of the two. */
  function RunAll(s: (Run, Chip), sch: seq<Actor>, data: seq<Byte>): (n: (Run, Chip))
    requires s.0.Wf() && Wf(s.1)
    ensures n.0.Wf() && Wf(n.1)
  {
    if sch == [] then s else RunStep(RunAll(s, sch[..|sch| - 1], data), sch[|sch| - 1], data)
  }
}
