/** The serial wire between the bridge and the debug port, bit by bit: ADIv5's transfers as the host clocks them, and the
    port that answers. */
module Wire {
  import opened Parts

  const RESET_ONES := 50

  /** 32 bits, lowest first. */
  type Word = w: seq<bool> | |w| == 32 witness seq(32, _ => false)

  datatype Request = Request(ap: bool, read: bool, a2: bool, a3: bool)

  datatype Resp = Ok(v: Word) | Wait | Fault

  datatype Phase =
    | Hunt
    | Requesting(bits: seq<bool>)
    | Release(q: Request, resp: Resp)
    | Turn(q: Request, resp: Resp)
    | Acking(q: Request, resp: Resp, n: nat)
    | Reading(val: Word, parity: bool, n: nat)
    | ReadTurn(clocked: bool)
    | WriteTurn(q: Request, clocked: bool)
    | Writing(q: Request, acc: seq<bool>)
    | NackTurn(clocked: bool)
    | Lost

  /** The port as the line sees it, with a record of what it has served and written. `jtag` is what it has seen of a switch
      sequence. */
  datatype Port = Port(
    phase: Phase, driven: bool, ones: nat, needsIdcode: bool, jtag: seq<bool>, selected: bool, resets: nat,
    served: seq<(Request, Resp)>, writes: seq<(Request, Word)>)

  /** What the target does with the next request, and whether the next parity bit it sends is flipped. */
  datatype Env = Env(mute: bool, resp: Resp, flip: bool)

  /** JTAG-to-SWD, lowest bit first. */
  const SWITCH: seq<bool> := [
    false, true, true, true, true, false, false, true, true, true, true, false, false, true, true, true]

  // ---- codes ----

  function Parity(bits: seq<bool>): bool {
    if bits == [] then false else Parity(bits[..|bits| - 1]) != bits[|bits| - 1]
  }

  function Encode(q: Request): (bits: seq<bool>)
    ensures |bits| == 8
  {
    [true, q.ap, q.read, q.a2, q.a3, Parity([q.ap, q.read, q.a2, q.a3]), false, true]
  }

  function Decode(bits: seq<bool>): Option<Request> {
    if |bits| == 8 && bits[0] && bits[5] == Parity(bits[1..5]) && !bits[6] && bits[7] then
      Some(Request(bits[1], bits[2], bits[3], bits[4]))
    else None
  }

  /** Bits as a number, the lowest first. */
  function Value(bits: seq<bool>): nat {
    if bits == [] then 0 else (if bits[0] then 1 else 0) + 2 * Value(bits[1..])
  }

  function CountOnes(bits: seq<bool>): nat {
    if bits == [] then 0 else (if bits[0] then 1 else 0) + CountOnes(bits[1..])
  }

  lemma {:induction false} CountOnesLast(bits: seq<bool>)
    requires bits != []
    ensures CountOnes(bits) == CountOnes(bits[..|bits| - 1]) + if bits[|bits| - 1] then 1 else 0
  {
    if |bits| > 1 {
      CountOnesLast(bits[1..]);
      assert bits[1..][..|bits| - 2] == bits[..|bits| - 1][1..];
    }
  }

  /** The parity bit makes the ones even. */
  lemma {:induction false} ParityIsOdd(bits: seq<bool>)
    ensures Parity(bits) <==> CountOnes(bits) % 2 == 1
    ensures CountOnes(bits + [Parity(bits)]) % 2 == 0
  {
    if bits != [] {
      ParityIsOdd(bits[..|bits| - 1]);
      CountOnesLast(bits);
    }
    CountOnesLast(bits + [Parity(bits)]);
    assert (bits + [Parity(bits)])[..|bits|] == bits;
  }

  /** The header's bits in their places: start, port, direction, both address bits, their parity, stop, park. */
  lemma HeaderValue(q: Request)
    ensures var ap, rd, a2, a3 := if q.ap then 1 else 0, if q.read then 1 else 0, if q.a2 then 1 else 0, if q.a3 then 1 else 0;
            Value(Encode(q)) == 0x81 + 2 * ap + 4 * rd + 8 * a2 + 16 * a3 + 32 * ((ap + rd + a2 + a3) % 2)
  {
    var bits := [q.ap, q.read, q.a2, q.a3];
    ParityIsOdd(bits);
    FourOnes(bits);
    var b := Encode(q);
    Nibble(b);
    Nibble(b[4..]);
    hide Parity, Value, CountOnes;
  }

  lemma FourOnes(b: seq<bool>)
    requires |b| == 4
    ensures CountOnes(b) == (if b[0] then 1 else 0) + (if b[1] then 1 else 0) + (if b[2] then 1 else 0) + if b[3] then 1 else 0
  {
    FirstOne(b);
    FirstOne(b[1..]);
    FirstOne(b[2..]);
    FirstOne(b[3..]);
    assert b[1..][1..] == b[2..] && b[2..][1..] == b[3..] && b[3..][1..] == [];
    assert CountOnes([]) == 0;
    hide CountOnes;
  }

  lemma FirstOne(b: seq<bool>)
    requires b != []
    ensures CountOnes(b) == (if b[0] then 1 else 0) + CountOnes(b[1..])
  {
  }

  /** The one request a reset port hears: the read of `DPIDR`. */
  lemma IdcodeIs(q: Request)
    ensures IsIdcode(q) <==> Value(Encode(q)) == 0xA5
  {
    HeaderValue(q);
    hide Value, Encode;
  }

  lemma Nibble(b: seq<bool>)
    requires 4 <= |b|
    ensures Value(b) == (if b[0] then 1 else 0) + (if b[1] then 2 else 0) + (if b[2] then 4 else 0) + (if b[3] then 8 else 0) + 16 * Value(b[4..])
    ensures |b| == 4 ==> Value(b[4..]) == 0
  {
    assert b[1..][1..] == b[2..] && b[2..][1..] == b[3..] && b[3..][1..] == b[4..];
    assert Value(b[2..]) == (if b[2] then 1 else 0) + 2 * Value(b[3..]);
    assert Value(b[3..]) == (if b[3] then 1 else 0) + 2 * Value(b[4..]);
  }

  /** The sixteen bits that turn a JTAG port to SWD. */
  lemma SwitchValue()
    ensures |SWITCH| == 16 && Value(SWITCH) == 0xE79E
  {
    hide Value;
    Nibble(SWITCH);
    Nibble(SWITCH[4..]);
    Nibble(SWITCH[8..]);
    Nibble(SWITCH[12..]);
    assert SWITCH[4..][4..] == SWITCH[8..] && SWITCH[8..][4..] == SWITCH[12..];
  }

  /** A header says its own request and no other bits do. */
  lemma HeaderRoundTrip(q: Request, bits: seq<bool>)
    ensures Decode(bits) == Some(q) <==> bits == Encode(q)
  {
    if |bits| == 8 {
      assert bits[1..5] == [bits[1], bits[2], bits[3], bits[4]];
    }
  }

  function Ack(r: Resp): (a: seq<bool>)
    ensures |a| == 3
  {
    match r
    case Ok(_) => [true, false, false]
    case Wait => [false, true, false]
    case Fault => [false, false, true]
  }

  predicate IsIdcode(q: Request) {
    !q.ap && q.read && !q.a2 && !q.a3
  }

  // ---- the port's side ----

  function LineBit(p: Port, b: bool): Port {
    if b && p.ones + 1 == RESET_ONES then
      p.(ones := RESET_ONES, phase := Hunt, needsIdcode := true, jtag := [], resets := p.resets + 1)
    else
      var q := p.(ones := if b then p.ones + 1 else 0);
      if q.ones < RESET_ONES && |p.jtag| < 16 then
        q.(jtag := p.jtag + [b], selected := p.selected || p.jtag + [b] == SWITCH)
      else q
  }

  predicate Answers(p: Port, bits: seq<bool>, e: Env) {
    Decode(bits).Some? && p.selected && !e.mute && (p.needsIdcode ==> IsIdcode(Decode(bits).value))
  }

  /** The eighth bit of a request: answered, or lost. */
  function Decoded(p: Port, bits: seq<bool>, e: Env): Port {
    if !Answers(p, bits, e) then p.(phase := Lost)
    else
      var q := Decode(bits).value;
      p.(phase := Release(q, e.resp), served := p.served + [(q, e.resp)],
         needsIdcode := p.needsIdcode && !(IsIdcode(q) && e.resp.Ok?))
  }

  /** A bit the host writes; none where the port does not expect one. */
  function WriteStep(p: Port, b: bool, e: Env): Option<Port> {
    if !p.driven then None
    else
      var l := LineBit(p, b);
      if l.ones >= RESET_ONES then Some(l)
      else
        match l.phase
        case Hunt => Some(if b then l.(phase := Requesting([true])) else l)
        case Requesting(bits) =>
          Some(if |bits| + 1 == 8 then Decoded(l, bits + [b], e) else l.(phase := Requesting(bits + [b])))
        case Writing(q, acc) =>
          if |acc| < 32 then Some(l.(phase := Writing(q, acc + [b])))
          else if |acc| == 32 && b == Parity(acc) then Some(l.(phase := Hunt, writes := l.writes + [(q, acc)]))
          else None
        case Lost => Some(l)
        case _ => None
  }

  function ReadStep(p: Port, e: Env): Option<(bool, Port)> {
    if p.driven then None
    else
      match p.phase
      case Acking(q, r, n) =>
        if n >= 3 then None
        else
          var next := if n < 2 then Acking(q, r, n + 1)
                      else if !r.Ok? then NackTurn(false)
                      else if q.read then Reading(r.v, Parity(r.v) != e.flip, 0)
                      else WriteTurn(q, false);
          Some((Ack(r)[n], p.(phase := next)))
      case Reading(v, parity, n) =>
        if n < 32 then Some((v[n], p.(phase := Reading(v, parity, n + 1)))) else Some((parity, p.(phase := ReadTurn(false))))
      case Lost => Some((true, p))
      case _ => None
  }

  function ClockStep(p: Port): Option<Port> {
    match p.phase
    case Turn(q, r) => Some(p.(phase := Acking(q, r, 0)))
    case ReadTurn(c) => if c then None else Some(p.(phase := ReadTurn(true)))
    case WriteTurn(q, c) => if c then None else Some(p.(phase := WriteTurn(q, true)))
    case NackTurn(c) => if c then None else Some(p.(phase := NackTurn(true)))
    case Lost => Some(p)
    case _ => None
  }

  /** The host drives the line again. */
  function OutStep(p: Port): Option<Port> {
    match p.phase
    case ReadTurn(c) => if c then Some(p.(phase := Hunt, driven := true)) else None
    case NackTurn(c) => if c then Some(p.(phase := Hunt, driven := true)) else None
    case WriteTurn(q, c) => if c then Some(p.(phase := Writing(q, []), driven := true)) else None
    case Release(_, _) => None
    case Turn(_, _) => None
    case Acking(_, _, _) => None
    case Reading(_, _, _) => None
    case _ => Some(p.(driven := true))
  }

  /** The host lets the line go. */
  function InStep(p: Port): Option<Port> {
    match p.phase
    case Release(q, r) => Some(p.(phase := Turn(q, r), driven := false))
    case Lost => Some(p.(driven := false))
    case _ => None
  }

  // ---- line resets ----

  /** `n` ones from the host, none where the port breaks off. */
  function Ones(p: Port, n: nat, e: Env): Option<Port> {
    if n == 0 then Some(p)
    else
      var q := Ones(p, n - 1, e);
      if q.None? then None else WriteStep(q.value, true, e)
  }

  /** A request one park bit short of a valid one that the port would answer. */
  predicate Interrupted(p: Port, e: Env) {
    p.phase.Requesting? && |p.phase.bits| == 7 && Answers(LineBit(p, true), p.phase.bits + [true], e)
  }

  /** Where the line can be reset from: between transfers, inside a request, or lost. */
  predicate Resettable(p: Port) {
    p.driven && p.ones < RESET_ONES && (p.phase.Hunt? || p.phase.Lost? || (p.phase.Requesting? && 1 <= |p.phase.bits| <= 7))
  }

  function Trues(n: nat): (s: seq<bool>)
    ensures |s| == n && forall i :: 0 <= i < n ==> s[i]
  {
    seq(n, _ => true)
  }

  /** The bits of the request being collected, so far. */
  function Collected(p: Port): seq<bool> {
    if p.phase.Requesting? then p.phase.bits else []
  }

  /** The port after `n` ones short of a reset: still collecting, or lost on a request whose stop bit is one. */
  predicate AfterOnes(p: Port, q: Port, n: nat) {
    && q.driven && q.ones == p.ones + n && (p.selected ==> q.selected) && q.served == p.served && q.writes == p.writes
    && if q.ones >= RESET_ONES then q.phase.Hunt? && q.needsIdcode && q.resets == p.resets + 1 && q.jtag == []
       else
         && q.resets == p.resets && q.needsIdcode == p.needsIdcode
         && if p.phase.Lost? || |Collected(p)| + n >= 8 then q.phase.Lost?
            else if p.phase.Hunt? && n == 0 then q.phase.Hunt?
            else q.phase == Requesting(Collected(p) + Trues(n))
  }

  /** A one that completes a line reset, or comes after it. */
  lemma ResetBit(p: Port, q: Port, n: nat, e: Env)
    requires AfterOnes(p, q, n) && q.ones + 1 >= RESET_ONES
    ensures var r := WriteStep(q, true, e); r.Some? && AfterOnes(p, r.value, n + 1)
  {
  }

  /** A one short of it. */
  lemma OneMore(p: Port, q: Port, n: nat, e: Env)
    requires Resettable(p) && AfterOnes(p, q, n) && (n == 0 ==> q == p && !Interrupted(p, e))
    ensures var r := WriteStep(q, true, e); r.Some? && AfterOnes(p, r.value, n + 1)
  {
    if q.ones + 1 >= RESET_ONES {
      ResetBit(p, q, n, e);
    } else {
      QuietBit(q, true);
      QuietOne(q);
      var bits := Collected(q);
      assert Collected(p) + Trues(n) + [true] == Collected(p) + Trues(n + 1);
      if q.phase.Requesting? && |bits| == 7 && |Collected(p)| <= 6 {
        assert (bits + [true])[6];
      }
      hide LineBit, Trues, Parity;
    }
  }

  lemma QuietOne(p: Port)
    requires p.ones + 1 < RESET_ONES
    ensures LineBit(p, true).ones == p.ones + 1
  {
  }

  /** A bit that does not complete a line reset. */
  lemma QuietBit(p: Port, b: bool)
    requires p.ones + 1 < RESET_ONES
    ensures var l := LineBit(p, b); l.phase == p.phase && l.driven == p.driven && l.ones <= p.ones + 1 && Same(p, l)
  {
  }

  lemma {:induction false} OnesShape(p: Port, n: nat, e: Env)
    requires Resettable(p) && !Interrupted(p, e)
    ensures Ones(p, n, e).Some? && AfterOnes(p, Ones(p, n, e).value, n)
  {
    assert Collected(p) + Trues(0) == Collected(p);
    if n > 0 {
      OnesShape(p, n - 1, e);
      OneMore(p, Ones(p, n - 1, e).value, n - 1, e);
    }
  }

  /** A request interrupted before its park bit is answered by the first one, and the port cannot take a second. */
  lemma InterruptedBreaks(p: Port, e: Env)
    requires Resettable(p) && Interrupted(p, e) && p.ones + 2 < RESET_ONES
    ensures Ones(p, 2, e).None?
  {
    assert Ones(p, 1, e) == WriteStep(p, true, e);
    assert Ones(p, 1, e).Some? && Ones(p, 1, e).value.phase.Release?;
  }

  lemma {:induction false} OnesBroken(p: Port, k: nat, n: nat, e: Env)
    requires Ones(p, k, e).None? && k <= n
    ensures Ones(p, n, e).None?
  {
    if k < n {
      OnesBroken(p, k, n - 1, e);
    }
  }

  predicate IsReset(p: Port, q: Port) {
    q.phase.Hunt? && q.needsIdcode && q.resets == p.resets + 1 && q.writes == p.writes
  }

  /** A one that completes a line reset, wherever the port stands, or comes after it. */
  lemma LastBit(p: Port, e: Env)
    requires p.driven && RESET_ONES <= p.ones + 1
    ensures var r := WriteStep(p, true, e);
            && r.Some? && r.value.driven && r.value.ones == p.ones + 1
            && if p.ones + 1 == RESET_ONES then IsReset(p, r.value) else r.value == p.(ones := p.ones + 1)
  {
  }

  /** The one before, when it completes a request as well. */
  lemma ParkBit(p: Port, e: Env)
    requires Resettable(p) && Interrupted(p, e) && p.ones + 2 == RESET_ONES
    ensures var r := WriteStep(p, true, e);
            r.Some? && r.value.driven && r.value.ones == p.ones + 1 && r.value.resets == p.resets && r.value.writes == p.writes
  {
  }

  /** A port that the first one or two of these ones reset, before it can break off. */
  lemma {:induction false} LateReset(p: Port, n: nat, e: Env)
    requires Resettable(p) && Interrupted(p, e) && RESET_ONES <= p.ones + 2 && RESET_ONES <= p.ones + n
    ensures var r := Ones(p, n, e);
            r.Some? && IsReset(p, r.value) && r.value.driven && r.value.ones == p.ones + n
  {
    hide WriteStep, Interrupted;
    if RESET_ONES < p.ones + n {
      LateReset(p, n - 1, e);
      LastBit(Ones(p, n - 1, e).value, e);
    } else if n == 1 {
      LastBit(p, e);
      assert Ones(p, 0, e) == Some(p);
    } else {
      ParkBit(p, e);
      assert Ones(p, 1, e) == WriteStep(p, true, e);
      LastBit(Ones(p, 1, e).value, e);
    }
  }

  /** Fifty ones reset the line from between transfers, inside a request or lost, unless the request is one park bit short
      of being answered and more than two ones are missing; exactly then the port breaks off at the second. */
  lemma OnesReset(p: Port, n: nat, e: Env)
    requires Resettable(p) && RESET_ONES <= n
    ensures Ones(p, n, e).None? <==> Interrupted(p, e) && p.ones + 2 < RESET_ONES
    ensures Ones(p, n, e).Some? ==> IsReset(p, Ones(p, n, e).value)
    ensures !Interrupted(p, e) ==> Ones(p, n, e).value.served == p.served
  {
    if !Interrupted(p, e) {
      OnesShape(p, n, e);
    } else if p.ones + 2 < RESET_ONES {
      InterruptedBreaks(p, e);
      OnesBroken(p, 2, n, e);
    } else {
      LateReset(p, n, e);
    }
  }

  /** Such a request exists: a `DPIDR` read stopped before its park bit. */
  lemma SomeRequestBreaks()
    ensures var q, e := Request(false, true, false, false), Env(false, Wait, false);
            var p := Port(Requesting(Encode(q)[..7]), true, 0, false, SWITCH, true, 0, [], []);
            Resettable(p) && Ones(p, RESET_ONES, e).None?
  {
    var q, e := Request(false, true, false, false), Env(false, Wait, false);
    var p := Port(Requesting(Encode(q)[..7]), true, 0, false, SWITCH, true, 0, [], []);
    assert Encode(q)[..7] + [true] == Encode(q);
    HeaderRoundTrip(q, Encode(q));
    OnesReset(p, RESET_ONES, e);
  }

  // ---- the port as pins ----

  class SimPins {
    var phase: Phase
    var driven: bool
    var ones: nat
    var needsIdcode: bool
    var jtag: seq<bool>
    var selected: bool
    var resets: nat
    var served: seq<(Request, Resp)>
    var writes: seq<(Request, Word)>
    /** What the target does next, whatever that is. */
    var env: Env
    /** Clock cycles so far. */
    ghost var cycles: nat

    ghost function View(): Port
      reads this
    {
      Port(phase, driven, ones, needsIdcode, jtag, selected, resets, served, writes)
    }

    constructor (env: Env)
      ensures View() == Port(Hunt, true, 0, true, [], false, 0, [], []) && this.env == env
    {
      phase, driven, ones, needsIdcode, jtag, selected, resets := Hunt, true, 0, true, [], false, 0;
      served, writes := [], [];
      this.env := env;
    }

    /** One written bit on the line; whether it was the last of a line reset. */
    method SeeBit(b: bool) returns (reset: bool)
      modifies this`phase, this`ones, this`needsIdcode, this`jtag, this`selected, this`resets
      ensures View() == LineBit(old(View()), b) && reset == (b && old(ones) + 1 == RESET_ONES)
    {
      if b {
        ones := ones + 1;
        if ones == RESET_ONES {
          phase, needsIdcode, jtag, resets := Hunt, true, [], resets + 1;
          return true;
        }
      } else {
        ones := 0;
      }
      if ones < RESET_ONES && |jtag| < 16 {
        jtag := jtag + [b];
        if jtag == SWITCH {
          selected := true;
        }
      }
      reset := false;
    }

    method WriteBit(b: bool)
      requires WriteStep(View(), b, env).Some?
      modifies this`phase, this`ones, this`needsIdcode, this`jtag, this`selected, this`resets, this`served, this`writes, this`cycles
      ensures View() == WriteStep(old(View()), b, env).value && cycles == old(cycles) + 1
    {
      cycles := cycles + 1;
      hide LineBit;
      var reset := SeeBit(b);
      if ones >= RESET_ONES {
        return;
      }
      match phase {
        case Hunt =>
          if b {
            phase := Requesting([true]);
          }
        case Requesting(bits) =>
          if |bits| + 1 == 8 {
            DecodeRequest(bits + [b]);
          } else {
            phase := Requesting(bits + [b]);
          }
        case Writing(q, acc) =>
          if |acc| == 32 {
            phase, writes := Hunt, writes + [(q, acc)];
          } else {
            phase := Writing(q, acc + [b]);
          }
        case _ =>
      }
    }

    method DecodeRequest(bits: seq<bool>)
      modifies this`phase, this`served, this`needsIdcode
      ensures View() == Decoded(old(View()), bits, env)
    {
      var d := Decode(bits);
      if d.None? || !selected || env.mute || (needsIdcode && !IsIdcode(d.value)) {
        phase := Lost;
        return;
      }
      phase, served := Release(d.value, env.resp), served + [(d.value, env.resp)];
      if IsIdcode(d.value) && env.resp.Ok? {
        needsIdcode := false;
      }
    }

    method ReadBit() returns (b: bool)
      requires ReadStep(View(), env).Some?
      modifies this`phase, this`cycles
      ensures (b, View()) == ReadStep(old(View()), env).value && cycles == old(cycles) + 1
    {
      cycles := cycles + 1;
      match phase {
        case Acking(q, r, n) =>
          b := Ack(r)[n];
          if n < 2 {
            phase := Acking(q, r, n + 1);
          } else if !r.Ok? {
            phase := NackTurn(false);
          } else if q.read {
            phase := Reading(r.v, Parity(r.v) != env.flip, 0);
          } else {
            phase := WriteTurn(q, false);
          }
        case Reading(v, parity, n) =>
          if n < 32 {
            b, phase := v[n], Reading(v, parity, n + 1);
          } else {
            b, phase := parity, ReadTurn(false);
          }
        case _ => b := true;
      }
    }

    method Clock()
      requires ClockStep(View()).Some?
      modifies this`phase, this`cycles
      ensures View() == ClockStep(old(View())).value && cycles == old(cycles) + 1
    {
      cycles := cycles + 1;
      match phase {
        case Turn(q, r) => phase := Acking(q, r, 0);
        case ReadTurn(_) => phase := ReadTurn(true);
        case WriteTurn(q, _) => phase := WriteTurn(q, true);
        case NackTurn(_) => phase := NackTurn(true);
        case _ =>
      }
    }

    method SwdioOut()
      requires OutStep(View()).Some?
      modifies this`phase, this`driven
      ensures View() == OutStep(old(View())).value
    {
      driven := true;
      match phase {
        case ReadTurn(_) => phase := Hunt;
        case NackTurn(_) => phase := Hunt;
        case WriteTurn(q, _) => phase := Writing(q, []);
        case _ =>
      }
    }

    method SwdioIn()
      requires InStep(View()).Some?
      modifies this`phase, this`driven
      ensures View() == InStep(old(View())).value
    {
      driven := false;
      match phase {
        case Release(q, r) => phase := Turn(q, r);
        case _ =>
      }
    }
  }

  // ---- the host's side ----

  const NOACK_RELEASE_CLOCKS := 34

  datatype AckSeen = AckOk | AckWait | AckFault | AckMissing

  /** What one transfer saw. */
  datatype Seen = Seen(ack: AckSeen, bits: seq<bool>, data: seq<bool>, parityOk: bool)

  function AckOf(a: seq<bool>): AckSeen {
    if a == [true, false, false] then AckOk
    else if a == [false, true, false] then AckWait
    else if a == [false, false, true] then AckFault
    else AckMissing
  }

  /** The header under way: collected so far, and answered or lost with its last bit. */
  predicate HeaderAt(p0: Port, p: Port, q: Request, i: nat, e: Env) {
    && p.driven && p.ones <= p0.ones + i && p.resets == p0.resets && p.writes == p0.writes && (p0.selected ==> p.selected)
    && if i == 8 && p0.phase.Hunt? && p.selected && !e.mute && (p0.needsIdcode ==> IsIdcode(q)) then
         && p.phase == Release(q, e.resp) && p.served == p0.served + [(q, e.resp)]
         && p.needsIdcode == (p0.needsIdcode && !(IsIdcode(q) && e.resp.Ok?))
       else
         && p.served == p0.served && p.needsIdcode == p0.needsIdcode
         && p.phase == if p0.phase.Lost? || i >= 8 then Lost else if i == 0 then Hunt else Requesting(Encode(q)[..i])
  }

  lemma HeaderBit(p0: Port, p: Port, q: Request, i: nat, e: Env)
    requires p0.ones == 0 && (p0.phase.Hunt? || p0.phase.Lost?) && i < 8 && HeaderAt(p0, p, q, i, e)
    ensures var r := WriteStep(p, Encode(q)[i], e); r.Some? && HeaderAt(p0, r.value, q, i + 1, e)
  {
    var bits := Encode(q);
    QuietBit(p, bits[i]);
    HeaderStarts(q);
    assert [bits[0]] == bits[..1];
    assert bits[..i] + [bits[i]] == bits[..i + 1];
    if i == 7 {
      HeaderEnds(p0, p, q, e);
    }
    hide LineBit, Encode, Decoded;
  }

  lemma HeaderEnds(p0: Port, p: Port, q: Request, e: Env)
    requires p0.ones == 0 && (p0.phase.Hunt? || p0.phase.Lost?) && HeaderAt(p0, p, q, 7, e)
    ensures var r := WriteStep(p, Encode(q)[7], e); r.Some? && HeaderAt(p0, r.value, q, 8, e)
  {
    var bits := Encode(q);
    QuietBit(p, bits[7]);
    HeaderRoundTrip(q, bits);
    assert bits[..7] + [bits[7]] == bits;
    hide LineBit, Encode, Decode, Parity;
  }

  /** The data under way. */
  predicate DataAt(p0: Port, p: Port, q: Request, w: Word, i: nat) {
    p.driven && p.ones <= p0.ones + i && Same(p0, p) && i <= 32 && p.phase == Writing(q, w[..i])
  }

  lemma ParityNext(bits: seq<bool>, b: bool)
    ensures Parity(bits + [b]) == (Parity(bits) != b)
  {
    assert (bits + [b])[..|bits|] == bits;
  }

  lemma DataBit(p0: Port, p: Port, q: Request, w: Word, i: nat, e: Env)
    requires p0.ones <= 8 && i < 32 && DataAt(p0, p, q, w, i)
    ensures var r := WriteStep(p, w[i], e); r.Some? && DataAt(p0, r.value, q, w, i + 1)
    ensures Parity(w[..i + 1]) == (Parity(w[..i]) != w[i])
  {
    QuietBit(p, w[i]);
    assert w[..i] + [w[i]] == w[..i + 1] && w[..i + 1][..i] == w[..i];
    hide LineBit;
  }

  lemma LastDataBit(p0: Port, p: Port, q: Request, w: Word, e: Env)
    requires p0.ones <= 8 && DataAt(p0, p, q, w, 32)
    ensures var r := WriteStep(p, Parity(w), e);
            && r.Some? && r.value.driven && r.value.ones < RESET_ONES && r.value.phase.Hunt?
            && Same(p0.(writes := p0.writes + [(q, w)]), r.value)
  {
    assert w[..32] == w;
    QuietBit(p, Parity(w));
    hide LineBit, Parity;
  }

  /** The switch under way, from a line reset: nothing in it is a request. */
  predicate SwitchAt(p0: Port, p: Port, i: nat) {
    && p.driven && p.ones <= i + (if i == 0 then p0.ones else 0) && p.resets == p0.resets && p.served == p0.served && p.writes == p0.writes
    && i <= 16 && p.jtag == SWITCH[..i] && (i == 16 ==> p.selected)
    && p.phase == if i <= 1 then Hunt else if i < 9 then Requesting(SWITCH[1..i]) else Lost
  }

  lemma SwitchBit(p0: Port, p: Port, i: nat, e: Env)
    requires i < 16 && SwitchAt(p0, p, i)
    ensures var r := WriteStep(p, SWITCH[i], e); r.Some? && SwitchAt(p0, r.value, i + 1)
  {
    assert SWITCH[..i] + [SWITCH[i]] == SWITCH[..i + 1] && SWITCH[..16] == SWITCH;
    if i == 1 {
      assert [true] == SWITCH[1..2];
    } else if 1 < i {
      assert SWITCH[1..i] + [SWITCH[i]] == SWITCH[1..i + 1];
    }
    assert SWITCH[1..9][6] && Decode(SWITCH[1..9]).None?;
    hide Decode, Parity;
  }

  class Swd {
    const pins: SimPins

    constructor (pins: SimPins)
      ensures this.pins == pins
    {
      this.pins := pins;
    }

    /** The header's eight bits: answered, or not heard. */
    method SendHeader(q: Request)
      requires pins.driven && pins.ones == 0 && (pins.phase.Hunt? || pins.phase.Lost?)
      modifies pins
      ensures pins.env == old(pins.env) && pins.driven && pins.ones <= 8 && pins.cycles == old(pins.cycles) + 8
      ensures var a, b := old(pins.View()), pins.View();
              && a.resets == b.resets && a.writes == b.writes && (a.selected ==> b.selected)
              && if a.phase.Hunt? && b.selected && !pins.env.mute && (a.needsIdcode ==> IsIdcode(q)) then
                   && b.phase == Release(q, pins.env.resp) && b.served == a.served + [(q, pins.env.resp)]
                   && b.needsIdcode == (a.needsIdcode && !(IsIdcode(q) && pins.env.resp.Ok?))
                 else b.phase.Lost? && b.served == a.served && b.needsIdcode == a.needsIdcode
    {
      ghost var p0 := pins.View();
      var bits := Encode(q);
      hide WriteStep, Encode;
      var i := 0;
      while i < 8
        invariant 0 <= i <= 8 && pins.cycles == old(pins.cycles) + i && pins.env == old(pins.env) && HeaderAt(p0, pins.View(), q, i, pins.env)
      {
        HeaderBit(p0, pins.View(), q, i, pins.env);
        pins.WriteBit(bits[i]);
        i := i + 1;
      }
    }

    /** The acknowledgement's three bits, after the turnaround. */
    method ReceiveAck() returns (a: seq<bool>)
      requires pins.driven && (pins.phase.Release? || pins.phase.Lost?)
      modifies pins
      ensures pins.env == old(pins.env) && Same(old(pins.View()), pins.View()) && !pins.driven && pins.ones == old(pins.ones)
      ensures pins.cycles == old(pins.cycles) + 4
      ensures match old(pins.phase)
              case Release(q, r) =>
                && a == Ack(r)
                && pins.phase == (if !r.Ok? then NackTurn(false)
                                  else if q.read then Reading(r.v, Parity(r.v) != pins.env.flip, 0)
                                  else WriteTurn(q, false))
              case _ => a == [true, true, true] && pins.phase.Lost?
    {
      pins.SwdioIn();
      pins.Clock();
      var b0 := pins.ReadBit();
      var b1 := pins.ReadBit();
      var b2 := pins.ReadBit();
      a := [b0, b1, b2];
    }

    /** The 32 data bits and their parity. */
    method ReceiveData() returns (data: seq<bool>, parityOk: bool)
      requires !pins.driven && pins.phase.Reading? && pins.phase.n == 0
      modifies pins
      ensures pins.env == old(pins.env) && Same(old(pins.View()), pins.View()) && pins.driven && pins.ones == old(pins.ones)
      ensures pins.cycles == old(pins.cycles) + 34
      ensures pins.phase.Hunt? && data == old(pins.phase.val) && parityOk == (old(pins.phase.parity) == Parity(data))
    {
      var v, parity := pins.phase.val, pins.phase.parity;
      assert Parity([]) == false;
      hide Parity;
      data := [];
      var odd := false;
      var i := 0;
      while i < 32
        invariant 0 <= i <= 32 && pins.cycles == old(pins.cycles) + i && pins.env == old(pins.env) && Same(old(pins.View()), pins.View()) && pins.ones == old(pins.ones)
        invariant !pins.driven && pins.phase == Reading(v, parity, i) && data == v[..i] && odd == Parity(data)
      {
        var b := pins.ReadBit();
        ParityNext(data, b);
        assert data + [b] == v[..i + 1];
        data, odd := data + [b], odd != b;
        i := i + 1;
      }
      var p := pins.ReadBit();
      parityOk := p == odd;
      pins.Clock();
      pins.SwdioOut();
    }

    /** The 32 data bits and their parity, driven. */
    method SendData(w: Word)
      requires !pins.driven && pins.phase.WriteTurn? && !pins.phase.clocked && pins.ones <= 8
      modifies pins
      ensures pins.env == old(pins.env) && pins.driven && pins.phase.Hunt? && pins.ones < RESET_ONES && pins.cycles == old(pins.cycles) + 34
      ensures var a, b := old(pins.View()), pins.View();
              && b.resets == a.resets && b.served == a.served && b.needsIdcode == a.needsIdcode && (a.selected ==> b.selected)
              && b.writes == a.writes + [(a.phase.q, w)]
    {
      ghost var p0, q := pins.View(), pins.phase.q;
      pins.Clock();
      pins.SwdioOut();
      hide WriteStep;
      var i := 0;
      var odd := false;
      assert w[..0] == [];
      while i < 32
        invariant 0 <= i <= 32 && pins.cycles == old(pins.cycles) + 1 + i && pins.env == old(pins.env) && DataAt(p0, pins.View(), q, w, i) && odd == Parity(w[..i])
      {
        DataBit(p0, pins.View(), q, w, i, pins.env);
        pins.WriteBit(w[i]);
        odd := odd != w[i];
        i := i + 1;
      }
      assert w[..32] == w;
      LastDataBit(p0, pins.View(), q, w, pins.env);
      pins.WriteBit(odd);
    }

    method Idle()
      requires pins.driven && pins.ones < RESET_ONES && (pins.phase.Hunt? || pins.phase.Lost?)
      modifies pins
      ensures pins.env == old(pins.env) && Same(old(pins.View()), pins.View()) && pins.driven && pins.ones == 0 && pins.phase == old(pins.phase)
      ensures pins.cycles == old(pins.cycles) + 8
    {
      var i := 0;
      while i < 8
        invariant 0 <= i <= 8 && pins.env == old(pins.env) && Same(old(pins.View()), pins.View()) && pins.driven
        invariant pins.ones < RESET_ONES && (i > 0 ==> pins.ones == 0) && pins.phase == old(pins.phase) && pins.cycles == old(pins.cycles) + i
      {
        pins.WriteBit(false);
        i := i + 1;
      }
    }

    method BackOff()
      requires !pins.driven && pins.phase.Lost?
      modifies pins
      ensures pins.env == old(pins.env) && Same(old(pins.View()), pins.View()) && pins.driven && pins.ones == old(pins.ones) && pins.phase.Lost?
      ensures pins.cycles == old(pins.cycles) + 34
    {
      var i := 0;
      while i < NOACK_RELEASE_CLOCKS
        invariant 0 <= i <= NOACK_RELEASE_CLOCKS && pins.cycles == old(pins.cycles) + i && pins.env == old(pins.env)
        invariant Same(old(pins.View()), pins.View()) && !pins.driven
        invariant pins.ones == old(pins.ones) && pins.phase.Lost?
      {
        pins.Clock();
        i := i + 1;
      }
      pins.SwdioOut();
    }

    /** One transfer: request, turnaround, acknowledgement, data and parity, idle. A request the port answers is served as it
        was asked, with the same 32 bits at both ends; one it does not leaves it lost. An answer of wait or fault is the
        shorter transfer, and any other takes as long as its data would. Nothing on the way is a line reset,
        and the port is never asked for what it cannot do. */
    method Raw(q: Request, w: Word) returns (s: Seen)
      requires pins.driven && pins.ones == 0 && (pins.phase.Hunt? || pins.phase.Lost?)
      modifies pins
      ensures pins.env == old(pins.env) && pins.driven && pins.ones == 0 && pins.resets == old(pins.resets)
      ensures old(pins.selected) ==> pins.selected
      ensures pins.cycles == old(pins.cycles) + if s.ack.AckOk? || s.ack.AckMissing? then 54 else 21
      ensures var answered := pins.phase.Hunt?;
              if answered then
                && old(pins.phase.Hunt?) && !pins.env.mute && (old(pins.needsIdcode) ==> IsIdcode(q))
                && pins.served == old(pins.served) + [(q, pins.env.resp)]
                && (s.ack, s.bits) == (match pins.env.resp
                                       case Ok(_) => (AckOk, [true, false, false])
                                       case Wait => (AckWait, [false, true, false])
                                       case Fault => (AckFault, [false, false, true]))
                && pins.writes == (if pins.env.resp.Ok? && !q.read then old(pins.writes) + [(q, w)] else old(pins.writes))
                && (pins.env.resp.Ok? && q.read ==> s.data == pins.env.resp.v && s.parityOk == !pins.env.flip)
              else
                && pins.phase.Lost? && s.ack == AckMissing && pins.served == old(pins.served) && pins.writes == old(pins.writes)
                && (old(pins.phase.Lost?) || !old(pins.selected) || pins.env.mute || (old(pins.needsIdcode) && !IsIdcode(q)))
    {
      SendHeader(q);
      var resp := pins.env.resp;
      var a := ReceiveAck();
      s := Seen(AckOf(a), a, [], true);
      if s.ack == AckOk {
        if q.read {
          var data, parityOk := ReceiveData();
          s := s.(data := data, parityOk := parityOk);
        } else {
          SendData(w);
        }
      } else if s.ack == AckMissing {
        BackOff();
      } else {
        pins.Clock();
        pins.SwdioOut();
      }
      Idle();
    }

    method LineReset()
      requires Resettable(pins.View()) && pins.ones + 2 < RESET_ONES && !Interrupted(pins.View(), pins.env)
      modifies pins
      ensures pins.env == old(pins.env) && AfterOnes(old(pins.View()), pins.View(), 56) && pins.cycles == old(pins.cycles) + 56
    {
      var i := 0;
      ghost var p0 := pins.View();
      OnesShape(p0, 0, pins.env);
      while i < 56
        invariant 0 <= i <= 56 && pins.cycles == old(pins.cycles) + i && pins.env == old(pins.env) && Ones(p0, i, pins.env) == Some(pins.View())
      {
        OnesShape(p0, i + 1, pins.env);
        pins.WriteBit(true);
        i := i + 1;
      }
      OnesShape(p0, 56, pins.env);
    }

    /** The sequence that makes any port listen: afterwards it is selected, between transfers, and answers only a `DPIDR`
        read. */
    method Wake()
      requires pins.driven && pins.ones == 0 && (pins.phase.Hunt? || pins.phase.Lost?)
      modifies pins
      ensures pins.env == old(pins.env) && pins.driven && pins.ones == 0 && pins.phase.Hunt? && pins.selected && pins.needsIdcode
      ensures pins.resets == old(pins.resets) + 2 && pins.served == old(pins.served) && pins.writes == old(pins.writes)
      ensures pins.cycles == old(pins.cycles) + 132
    {
      LineReset();
      ghost var p0 := pins.View();
      var i := 0;
      while i < 16
        invariant 0 <= i <= 16 && pins.cycles == old(pins.cycles) + 56 + i && pins.env == old(pins.env) && SwitchAt(p0, pins.View(), i)
      {
        SwitchBit(p0, pins.View(), i, pins.env);
        hide WriteStep;
        pins.WriteBit(SWITCH[i]);
        i := i + 1;
      }
      LineReset();
      i := 0;
      while i < 4
        invariant 0 <= i <= 4 && pins.cycles == old(pins.cycles) + 128 + i && pins.env == old(pins.env) && pins.driven && pins.phase.Hunt? && pins.selected && pins.needsIdcode
        invariant i > 0 ==> pins.ones == 0
        invariant pins.resets == old(pins.resets) + 2 && pins.served == old(pins.served) && pins.writes == old(pins.writes)
      {
        pins.WriteBit(false);
        i := i + 1;
      }
    }
  }

  /** The port outside the line: served, written and reset as before. */
  predicate Same(a: Port, b: Port) {
    b.resets == a.resets && b.served == a.served && b.writes == a.writes && b.needsIdcode == a.needsIdcode && (a.selected ==> b.selected)
  }

  lemma HeaderStarts(q: Request)
    ensures Encode(q)[0]
  {
  }
}
