/** Every history of programs and erases, each of which the device may let finish or fail: what the device can hold after
    it, and when that is what the mirror holds. */
module KeysRuns {
  import opened Bytes
  import opened KeysRules

  datatype Op = Program(off: nat, data: seq<Byte>) | Erase(n: nat)

  /** An operation and whether the device finished it; one the store refuses never reaches the device. */
  datatype Act = Act(op: Op, done: bool)

  predicate Refused(m: seq<Byte>, op: Op) {
    match op
    case Program(off, data) => !Refusal(m, off, data).Done?
    case Erase(n) => n * PAGE + PAGE > |m|
  }

  predicate InPage(n: nat, i: nat) {
    n * PAGE <= i < n * PAGE + PAGE
  }

  function Mirrored(m: seq<Byte>, a: Act): (r: seq<Byte>)
    ensures |r| == |m|
  {
    if Refused(m, a.op) || !a.done then m
    else
      match a.op
      case Program(off, data) => Patch(m, off, data)
      case Erase(n) => Fill(m, n * PAGE, n * PAGE + PAGE, BLANK)
  }

  function MirrorAfter(boot: seq<Byte>, acts: seq<Act>): (m: seq<Byte>)
    ensures |m| == |boot|
  {
    if acts == [] then boot else Mirrored(MirrorAfter(boot, acts[..|acts| - 1]), acts[|acts| - 1])
  }

  // ---- one byte of the device ----

  /** What an operation does to one byte: nothing, erase it, leave anything in it, mask it, or mask part of it. */
  datatype Effect = Keep | Blank | Smear | Mask(w: Byte) | Tear(w: Byte)

  function EffectAt(m: seq<Byte>, a: Act, i: nat): Effect
    requires i < |m|
  {
    if Refused(m, a.op) then Keep
    else
      match a.op
      case Program(off, data) =>
        if !(WordsFrom(off) <= i < WordsTo(off + |data|)) then Keep
        else if a.done then Mask(Patch(m, off, data)[i])
        else Tear(Patch(m, off, data)[i])
      case Erase(n) => if !InPage(n, i) then Keep else if a.done then Blank else Smear
  }

  predicate ByteLeaves(e: Effect, x: Byte, y: Byte) {
    match e
    case Keep => y == x
    case Blank => y == BLANK
    case Smear => true
    case Mask(w) => y == And(x, w)
    case Tear(w) => Subset(And(x, w), y) && Subset(y, x)
  }

  /** What an operation on mirror `m` may make of a device. */
  ghost predicate Leaves(m: seq<Byte>, d0: seq<Byte>, a: Act, d1: seq<Byte>) {
    |d0| == |d1| == |m| && forall i :: 0 <= i < |m| ==> ByteLeaves(EffectAt(m, a, i), d0[i], d1[i])
  }

  /** What a device that was in step at boot may hold after a history. */
  ghost predicate Reach(boot: seq<Byte>, acts: seq<Act>, d: seq<Byte>) {
    if acts == [] then d == boot
    else
      var front, a := acts[..|acts| - 1], acts[|acts| - 1];
      var m := MirrorAfter(boot, front);
      exists e :: Reach(boot, front, e) && Leaves(m, e, a, d)
  }

  // ---- exactly which devices ----

  /** The bits a byte surely has and those it may have. */
  datatype Span = Span(lo: Byte, hi: Byte) {
    predicate Ok() {
      Subset(lo, hi)
    }

    predicate Holds(x: Byte) {
      Subset(lo, x) && Subset(x, hi)
    }
  }

  function SpanAfter(e: Effect, s: Span): Span {
    match e
    case Keep => s
    case Blank => Span(BLANK, BLANK)
    case Smear => Span(0, BLANK)
    case Mask(w) => Span(And(s.lo, w), And(s.hi, w))
    case Tear(w) => Span(And(s.lo, w), s.hi)
  }

  /** A byte from which `e` can make `y`, when there is one in `s`. */
  function Before(e: Effect, s: Span, y: Byte): (x: nat) {
    match e
    case Keep => y
    case Blank => s.lo
    case Smear => s.lo
    case Mask(_) => Or(y, s.lo)
    case Tear(_) => Or(y, s.lo)
  }

  lemma SpanOk(e: Effect, s: Span)
    requires s.Ok()
    ensures SpanAfter(e, s).Ok()
  {
    match e
    case Keep =>
    case Blank => SubsetSelf(BLANK);
    case Smear =>
    case Mask(w) =>
      AndInside(s.lo, w);
      SubsetTrans(And(s.lo, w), s.lo, s.hi);
      IntoAnd(And(s.lo, w), s.hi, w);
    case Tear(w) =>
      AndInside(s.lo, w);
      SubsetTrans(And(s.lo, w), s.lo, s.hi);
  }

  /** An effect on any byte of a span stays in the span after it. */
  lemma ByteWithin(e: Effect, s: Span, x: Byte, y: Byte)
    requires s.Ok() && s.Holds(x) && ByteLeaves(e, x, y)
    ensures SpanAfter(e, s).Holds(y)
  {
    match e
    case Keep =>
    case Blank => SubsetSelf(BLANK);
    case Smear => BlankHolds(y);
    case Mask(w) =>
      AndGrows(s.lo, x, w);
      AndGrows(x, s.hi, w);
    case Tear(w) =>
      AndGrows(s.lo, x, w);
      SubsetTrans(And(s.lo, w), And(x, w), y);
      SubsetTrans(y, x, s.hi);
  }

  /** And every byte of the span after it comes from one of the span before. */
  lemma ByteFrom(e: Effect, s: Span, y: Byte)
    requires s.Ok() && SpanAfter(e, s).Holds(y)
    ensures var x := Before(e, s, y); x < 256 && s.Holds(x) && ByteLeaves(e, x, y)
  {
    match e
    case Keep =>
    case Blank =>
      SubsetSelf(s.lo);
      SubsetAnti(y, BLANK);
    case Smear => SubsetSelf(s.lo);
    case Mask(w) =>
      AndInside(s.hi, w);
      SubsetTrans(y, And(s.hi, w), s.hi);
      SubsetTrans(y, And(s.hi, w), w);
      OrBetween(y, s.lo, s.hi);
      MaskedOr(y, s.lo, w);
      IntoAnd(y, Or(y, s.lo), w);
      SubsetAnti(y, And(Or(y, s.lo), w));
    case Tear(w) =>
      OrBetween(y, s.lo, s.hi);
      MaskedOr(y, s.lo, w);
  }

  function Spans(boot: seq<Byte>, acts: seq<Act>): (s: seq<Span>)
    ensures |s| == |boot|
  {
    if acts == [] then seq(|boot|, i requires 0 <= i < |boot| => Span(boot[i], boot[i]))
    else
      var s, m := Spans(boot, acts[..|acts| - 1]), MirrorAfter(boot, acts[..|acts| - 1]);
      seq(|boot|, i requires 0 <= i < |boot| => SpanAfter(EffectAt(m, acts[|acts| - 1], i), s[i]))
  }

  predicate Fits(s: seq<Span>, d: seq<Byte>) {
    |d| == |s| && forall i :: 0 <= i < |s| ==> s[i].Holds(d[i])
  }

  lemma {:induction false} SpansOk(boot: seq<Byte>, acts: seq<Act>)
    ensures forall i :: 0 <= i < |boot| ==> Spans(boot, acts)[i].Ok()
  {
    forall i | 0 <= i < |boot|
      ensures Spans(boot, acts)[i].Ok()
    {
      if acts == [] {
        SubsetSelf(boot[i]);
      } else {
        var front := acts[..|acts| - 1];
        SpansOk(boot, front);
        SpanOk(EffectAt(MirrorAfter(boot, front), acts[|acts| - 1], i), Spans(boot, front)[i]);
      }
    }
  }

  /** After every history the device can be exactly what the spans allow. */
  lemma {:induction false} ReachIsFits(boot: seq<Byte>, acts: seq<Act>, d: seq<Byte>)
    ensures Reach(boot, acts, d) <==> Fits(Spans(boot, acts), d)
    decreases |acts|, 1
  {
    if acts == [] {
      forall i | 0 <= i < |boot| && i < |d|
        ensures Span(boot[i], boot[i]).Holds(d[i]) <==> d[i] == boot[i]
      {
        SubsetSelf(boot[i]);
        if Span(boot[i], boot[i]).Holds(d[i]) {
          SubsetAnti(d[i], boot[i]);
        }
      }
    } else if Reach(boot, acts, d) {
      ReachFits(boot, acts, d);
    } else if Fits(Spans(boot, acts), d) {
      FitsReach(boot, acts, d);
    }
  }

  lemma {:induction false} ReachFits(boot: seq<Byte>, acts: seq<Act>, d: seq<Byte>)
    requires acts != [] && Reach(boot, acts, d)
    ensures Fits(Spans(boot, acts), d)
    decreases |acts|, 0
  {
    var front, a := acts[..|acts| - 1], acts[|acts| - 1];
    var m := MirrorAfter(boot, front);
    var e :| Reach(boot, front, e) && Leaves(m, e, a, d);
    ReachIsFits(boot, front, e);
    SpansOk(boot, front);
    forall i | 0 <= i < |boot|
      ensures Spans(boot, acts)[i].Holds(d[i])
    {
      ByteWithin(EffectAt(m, a, i), Spans(boot, front)[i], e[i], d[i]);
    }
  }

  lemma {:induction false} FitsReach(boot: seq<Byte>, acts: seq<Act>, d: seq<Byte>)
    requires acts != [] && Fits(Spans(boot, acts), d)
    ensures Reach(boot, acts, d)
    decreases |acts|, 0
  {
    var front, a := acts[..|acts| - 1], acts[|acts| - 1];
    var m, s := MirrorAfter(boot, front), Spans(boot, front);
    SpansOk(boot, front);
    forall i | 0 <= i < |boot|
      ensures var x := Before(EffectAt(m, a, i), s[i], d[i]); x < 256 && s[i].Holds(x) && ByteLeaves(EffectAt(m, a, i), x, d[i])
    {
      ByteFrom(EffectAt(m, a, i), s[i], d[i]);
    }
    var e: seq<Byte> := seq(|boot|, i requires 0 <= i < |boot| => Before(EffectAt(m, a, i), s[i], d[i]) as Byte);
    ReachIsFits(boot, front, e);
    assert Leaves(m, e, a, d);
  }

  // ---- in step ----

  /** Each byte's span is the mirror's byte alone. */
  predicate Pinned(boot: seq<Byte>, acts: seq<Act>) {
    forall i :: 0 <= i < |boot| ==> Spans(boot, acts)[i] == Span(MirrorAfter(boot, acts)[i], MirrorAfter(boot, acts)[i])
  }

  lemma PinnedInStep(boot: seq<Byte>, acts: seq<Act>, d: seq<Byte>)
    requires Pinned(boot, acts) && Reach(boot, acts, d)
    ensures d == MirrorAfter(boot, acts)
  {
    ReachIsFits(boot, acts, d);
    hide Spans, MirrorAfter, Reach;
    forall i | 0 <= i < |boot|
      ensures d[i] == MirrorAfter(boot, acts)[i]
    {
      assert Spans(boot, acts)[i].Holds(d[i]);
      SubsetAnti(d[i], MirrorAfter(boot, acts)[i]);
    }
  }

  /** A device at the bottom of every span, and one at the top. */
  lemma EndsReached(boot: seq<Byte>, acts: seq<Act>) returns (low: seq<Byte>, high: seq<Byte>)
    ensures Reach(boot, acts, low) && Reach(boot, acts, high) && |low| == |high| == |boot|
    ensures forall i :: 0 <= i < |boot| ==> Spans(boot, acts)[i] == Span(low[i], high[i])
  {
    var s := Spans(boot, acts);
    SpansOk(boot, acts);
    low := seq(|boot|, i requires 0 <= i < |boot| => s[i].lo);
    high := seq(|boot|, i requires 0 <= i < |boot| => s[i].hi);
    forall i | 0 <= i < |boot|
      ensures s[i].Holds(low[i]) && s[i].Holds(high[i])
    {
      SubsetSelf(s[i].lo);
      SubsetSelf(s[i].hi);
    }
    hide Spans, Reach;
    ReachIsFits(boot, acts, low);
    ReachIsFits(boot, acts, high);
  }

  /** Whatever the device did, it is in step after a history exactly when each byte's span is the mirror's byte alone, which
      the history and its answers decide. */
  lemma InStepExactly(boot: seq<Byte>, acts: seq<Act>)
    ensures (forall d: seq<Byte> :: Reach(boot, acts, d) ==> d == MirrorAfter(boot, acts)) <==> Pinned(boot, acts)
  {
    hide Reach, Spans, MirrorAfter;
    if Pinned(boot, acts) {
      forall d: seq<Byte> | Reach(boot, acts, d)
        ensures d == MirrorAfter(boot, acts)
      {
        PinnedInStep(boot, acts, d);
      }
    } else {
      var low, high := EndsReached(boot, acts);
    }
  }

  /** What a byte owes: the values failed programs meant for it, or whatever a failed erase left in it. */
  datatype Debt = Value(v: Byte) | Unknown

  /** A failed operation leaves its debts; the same value programmed pays its own, an erase of the page pays all. */
  function Owes(m: seq<Byte>, a: Act, i: nat, owed: set<Debt>): set<Debt> {
    if Refused(m, a.op) then owed
    else
      match a.op
      case Program(off, data) =>
        if !(off <= i < off + |data|) then owed
        else if a.done then owed - {Value(data[i - off])} else owed + {Value(data[i - off])}
      case Erase(n) => if !InPage(n, i) then owed else if a.done then {} else owed + {Unknown}
  }

  function Owed(boot: seq<Byte>, acts: seq<Act>, i: nat): set<Debt> {
    if acts == [] then {}
    else
      var front := acts[..|acts| - 1];
      Owes(MirrorAfter(boot, front), acts[|acts| - 1], i, Owed(boot, front, i))
  }

  /** Unless an erase is owed, a byte has no bit the mirror's has not, and it has every bit of it that each owed value has. */
  ghost predicate Backed(b: Byte, s: Span, owed: set<Debt>) {
    Unknown !in owed ==>
      && s.hi == b
      && forall x: Byte :: Subset(x, b) && (forall v: Byte :: Value(v) in owed ==> Subset(x, v)) ==> Subset(x, s.lo)
  }

  /** A mask by a value the mirror's byte holds the bits of. */
  lemma MaskBacked(b: Byte, s: Span, w: Byte, done: bool, owed: set<Debt>)
    requires s.Ok() && Backed(b, s, owed) && Subset(w, b)
    ensures Backed(if done then w else b, SpanAfter(if done then Mask(w) else Tear(w), s), if done then owed - {Value(w)} else owed + {Value(w)})
    ensures w == b ==> Backed(b, SpanAfter(if done then Mask(w) else Tear(w), s), owed)
  {
    AndSymmetric(w, b);
    SubsetSelf(b);
    if Unknown !in owed {
      forall x: Byte | Subset(x, w) && (forall v: Byte :: Value(v) in owed && v != w ==> Subset(x, v))
        ensures Subset(x, And(s.lo, w))
      {
        SubsetTrans(x, w, b);
        IntoAnd(x, s.lo, w);
      }
    }
  }

  /** What a program that is not refused masks byte `i` by: its own value there, and the mirror's next to it. */
  lemma ProgramMasks(m: seq<Byte>, off: nat, data: seq<Byte>, i: nat)
    requires i < |m| && Refusal(m, off, data).Done?
    ensures off + |data| <= |m| && Subset(Patch(m, off, data)[i], m[i])
    ensures Patch(m, off, data)[i] == if off <= i < off + |data| then data[i - off] else m[i]
  {
    SubsetSelf(m[i]);
    if off <= i < off + |data| {
      BlankHolds(data[i - off]);
      assert m[off + (i - off)] == BLANK || m[off + (i - off)] == data[i - off];
    }
  }

  /** What such a program does to byte `i`: its mirror, its device and its debts. */
  lemma ProgramAt(m: seq<Byte>, off: nat, data: seq<Byte>, done: bool, i: nat, owed: set<Debt>)
    requires i < |m| && Refusal(m, off, data).Done?
    ensures var a, w, own := Act(Program(off, data), done), Patch(m, off, data)[i], off <= i < off + |data|;
            && Mirrored(m, a)[i] == (if own && done then w else m[i])
            && Owes(m, a, i, owed) == (if !own then owed else if done then owed - {Value(w)} else owed + {Value(w)})
            && (EffectAt(m, a, i) == (if done then Mask(w) else Tear(w)) || (EffectAt(m, a, i) == Keep && !own))
  {
    var a := Act(Program(off, data), done);
    ProgramMasks(m, off, data, i);
    MaskAt(m, off, data, done, i);
    assert !Refused(m, a.op);
    hide EffectAt, Refusal, Refused, Patch, Subset, WordsFrom, WordsTo;
    if done {
      assert Mirrored(m, a) == Patch(m, off, data);
    }
  }

  lemma MaskAt(m: seq<Byte>, off: nat, data: seq<Byte>, done: bool, i: nat)
    requires i < |m| && Refusal(m, off, data).Done?
    ensures off + |data| <= |m|
    ensures var w := Patch(m, off, data)[i];
            EffectAt(m, Act(Program(off, data), done), i)
            == if !(WordsFrom(off) <= i < WordsTo(off + |data|)) then Keep else if done then Mask(w) else Tear(w)
    ensures off <= i < off + |data| ==> WordsFrom(off) <= i < WordsTo(off + |data|)
  {
    WordsHold(off, off + |data|);
    assert !Refused(m, Program(off, data)) && off + |data| <= |m|;
    hide WordsFrom, WordsTo, Refusal, Patch, Refused;
  }

  lemma WordsHold(off: nat, end: nat)
    ensures WordsFrom(off) <= off && end <= WordsTo(end)
  {
  }

  lemma ProgramBacked(m: seq<Byte>, off: nat, data: seq<Byte>, done: bool, i: nat, s: Span, owed: set<Debt>)
    requires i < |m| && s.Ok() && Backed(m[i], s, owed) && Refusal(m, off, data).Done?
    ensures var a := Act(Program(off, data), done);
            Backed(Mirrored(m, a)[i], SpanAfter(EffectAt(m, a, i), s), Owes(m, a, i, owed))
  {
    hide Backed, SpanAfter, Mirrored, EffectAt, Owes, Refusal;
    ProgramMasks(m, off, data, i);
    ProgramAt(m, off, data, done, i, owed);
    MaskBacked(m[i], s, Patch(m, off, data)[i], done, owed);
    KeepKeeps(s);
  }

  lemma KeepKeeps(s: Span)
    ensures SpanAfter(Keep, s) == s
  {
  }

  lemma OwesBacked(m: seq<Byte>, a: Act, i: nat, s: Span, owed: set<Debt>)
    requires i < |m| && s.Ok() && Backed(m[i], s, owed)
    ensures Backed(Mirrored(m, a)[i], SpanAfter(EffectAt(m, a, i), s), Owes(m, a, i, owed))
  {
    if a.op.Program? && !Refused(m, a.op) {
      ProgramBacked(m, a.op.off, a.op.data, a.done, i, s, owed);
      hide Backed, SpanAfter;
    } else if a.op.Erase? && a.done {
      SubsetSelf(BLANK);
      hide Refusal;
    }
  }

  lemma {:induction false} AllBacked(boot: seq<Byte>, acts: seq<Act>, i: nat)
    requires i < |boot|
    ensures Backed(MirrorAfter(boot, acts)[i], Spans(boot, acts)[i], Owed(boot, acts, i))
  {
    if acts != [] {
      var front := acts[..|acts| - 1];
      SpansOk(boot, front);
      AllBacked(boot, front, i);
      OwesBacked(MirrorAfter(boot, front), acts[|acts| - 1], i, Spans(boot, front)[i], Owed(boot, front, i));
    }
  }

  /** Wherever nothing is owed the device holds what the mirror does, after every history and whatever the device did. */
  lemma PaidInStep(boot: seq<Byte>, acts: seq<Act>, d: seq<Byte>, i: nat)
    requires Reach(boot, acts, d) && i < |boot| && Owed(boot, acts, i) == {}
    ensures |d| == |boot| && d[i] == MirrorAfter(boot, acts)[i]
  {
    var b, s := MirrorAfter(boot, acts)[i], Spans(boot, acts)[i];
    AllBacked(boot, acts, i);
    SpansOk(boot, acts);
    ReachIsFits(boot, acts, d);
    SubsetSelf(b);
    SubsetAnti(s.lo, b);
    SubsetAnti(d[i], b);
  }

  // ---- in a caller's terms ----

  function MirrorBefore(boot: seq<Byte>, acts: seq<Act>, k: nat): seq<Byte>
    requires k < |acts|
  {
    MirrorAfter(boot, acts[..k])
  }

  predicate Touches(op: Op, i: nat) {
    match op
    case Program(off, data) => off <= i < off + |data|
    case Erase(n) => InPage(n, i)
  }

  /** The `k`-th operation was let through to the device and failed there, on byte `i` among others. */
  predicate FailedOn(boot: seq<Byte>, acts: seq<Act>, k: nat, i: nat) {
    k < |acts| && !acts[k].done && !Refused(MirrorBefore(boot, acts, k), acts[k].op) && Touches(acts[k].op, i)
  }

  /** Since then the same operation has succeeded, or an erase of the byte's page has. */
  predicate Mended(boot: seq<Byte>, acts: seq<Act>, k: nat, i: nat)
    requires k < |acts|
  {
    exists j :: k < j < |acts| && acts[j].done && !Refused(MirrorBefore(boot, acts, j), acts[j].op)
                && (acts[j].op == acts[k].op || (acts[j].op.Erase? && Touches(acts[j].op, i)))
  }

  /** What a failed operation owes byte `i`. */
  function DebtOf(op: Op, i: nat): Debt
    requires Touches(op, i)
  {
    match op
    case Program(off, data) => Value(data[i - off])
    case Erase(_) => Unknown
  }

  lemma FailureStays(boot: seq<Byte>, front: seq<Act>, a: Act, k: nat, i: nat)
    requires FailedOn(boot, front, k, i)
    ensures FailedOn(boot, front + [a], k, i)
    ensures Mended(boot, front + [a], k, i) <==>
            || Mended(boot, front, k, i)
            || (a.done && !Refused(MirrorAfter(boot, front), a.op) && (a.op == front[k].op || (a.op.Erase? && Touches(a.op, i))))
  {
    var acts, n := front + [a], |front|;
    assert acts[n] == a && acts[..n] == front && acts[k] == front[k] && acts[..k] == front[..k];
    assert forall j :: 0 <= j < n ==> acts[j] == front[j] && acts[..j] == front[..j];
    hide Refused, Touches, MirrorAfter;
    if a.done && !Refused(MirrorAfter(boot, front), a.op) && (a.op == front[k].op || (a.op.Erase? && Touches(a.op, i))) {
      assert acts[n].done;
    }
    if j :| k < j < n && front[j].done && !Refused(MirrorBefore(boot, front, j), front[j].op)
            && (front[j].op == front[k].op || (front[j].op.Erase? && Touches(front[j].op, i))) {
      assert acts[j].done;
    }
  }

  /** What a step leaves owed was owed before and has not been paid by it, or is its own failure's. */
  lemma DebtSource(m: seq<Byte>, a: Act, i: nat, owed: set<Debt>, debt: Debt)
    requires debt in Owes(m, a, i, owed)
    ensures || (!Refused(m, a.op) && Touches(a.op, i) && !a.done && DebtOf(a.op, i) == debt)
            || (debt in owed && !(a.done && !Refused(m, a.op) && Touches(a.op, i) && (a.op.Erase? || DebtOf(a.op, i) == debt)))
  {
    hide Refused;
  }

  ghost predicate Unmended(boot: seq<Byte>, acts: seq<Act>, k: nat, i: nat, debt: Debt) {
    FailedOn(boot, acts, k, i) && !Mended(boot, acts, k, i) && DebtOf(acts[k].op, i) == debt
  }

  /** Every debt is some failed operation's that nothing has mended since. */
  lemma {:induction false} DebtsHaveCauses(boot: seq<Byte>, acts: seq<Act>, i: nat, debt: Debt) returns (k: nat)
    requires debt in Owed(boot, acts, i)
    ensures Unmended(boot, acts, k, i, debt)
  {
    k := |acts| - 1;
    var front, a := acts[..k], acts[k];
    assert acts == front + [a];
    DebtSource(MirrorAfter(boot, front), a, i, Owed(boot, front, i), debt);
    if !(!Refused(MirrorAfter(boot, front), a.op) && Touches(a.op, i) && !a.done && DebtOf(a.op, i) == debt) {
      k := DebtsHaveCauses(boot, front, i, debt);
      FailureStays(boot, front, a, k, i);
    }
  }

  /** The store is in step after every history in which each operation the device failed has since succeeded, or had its
      page erased. */
  lemma MendedInStep(boot: seq<Byte>, acts: seq<Act>, d: seq<Byte>)
    requires Reach(boot, acts, d)
    requires forall k: nat, i: nat :: i < |boot| && FailedOn(boot, acts, k, i) ==> Mended(boot, acts, k, i)
    ensures d == MirrorAfter(boot, acts)
  {
    ReachIsFits(boot, acts, d);
    hide Reach, FailedOn, Mended, MirrorAfter;
    forall i: nat | i < |boot|
      ensures d[i] == MirrorAfter(boot, acts)[i]
    {
      if Owed(boot, acts, i) != {} {
        var debt :| debt in Owed(boot, acts, i);
        var k := DebtsHaveCauses(boot, acts, i, debt);
      } else {
        PaidInStep(boot, acts, d, i);
      }
    }
  }

  // ---- an answer is not enough ----

  /** A program of `u` that fails, then one of `v` in its place that succeeds. */
  function TornThen(off: nat, u: seq<Byte>, v: seq<Byte>): seq<Act> {
    [Act(Program(off, u), false), Act(Program(off, v), true)]
  }

  lemma TearThenMask(b: Byte, x: Byte, y: Byte)
    requires Subset(x, b) && Subset(y, b)
    ensures SpanAfter(Mask(y), SpanAfter(Tear(x), Span(b, b))) == Span(y, y) <==> Subset(y, x)
    ensures SpanAfter(Mask(b), Span(b, b)) == Span(b, b) == SpanAfter(Tear(b), Span(b, b))
  {
    AndSymmetric(x, b);
    AndSymmetric(y, b);
    AndSymmetric(x, y);
    SubsetSelf(b);
  }

  lemma TwoActs(boot: seq<Byte>, a: Act, b: Act, i: nat)
    requires i < |boot| && !a.done
    ensures MirrorAfter(boot, [a, b]) == Mirrored(boot, b)
    ensures Spans(boot, [a, b])[i] == SpanAfter(EffectAt(boot, b, i), SpanAfter(EffectAt(boot, a, i), Span(boot[i], boot[i])))
  {
    assert [a, b][..1] == [a] && [a][..0] == [];
    hide EffectAt, SpanAfter, Refused;
    assert MirrorAfter(boot, [a]) == boot;
    assert Spans(boot, [a])[i] == SpanAfter(EffectAt(boot, a, i), Span(boot[i], boot[i]));
  }

  lemma TornThenSpans(boot: seq<Byte>, off: nat, u: seq<Byte>, v: seq<Byte>, i: nat)
    requires |u| == |v| && Refusal(boot, off, u).Done? && Refusal(boot, off, v).Done? && i < |boot|
    ensures off + |u| <= |boot| && MirrorAfter(boot, TornThen(off, u, v)) == Patch(boot, off, v)
    ensures var b, s := Patch(boot, off, v)[i], Spans(boot, TornThen(off, u, v))[i];
            s == Span(b, b) <==> (off <= i < off + |v| ==> Subset(v[i - off], u[i - off]))
  {
    var acts := TornThen(off, u, v);
    TwoActs(boot, acts[0], acts[1], i);
    ProgramAt(boot, off, u, false, i, {});
    ProgramAt(boot, off, v, true, i, {});
    ProgramMasks(boot, off, u, i);
    ProgramMasks(boot, off, v, i);
    hide EffectAt, Refusal, Patch, SpanAfter, Subset, Spans, MirrorAfter, Owes;
    TearThenMask(boot[i], Patch(boot, off, u)[i], Patch(boot, off, v)[i]);
    KeepKeeps(Span(boot[i], boot[i]));
  }

  /** After a tear the answer to another program does not say whether the device is in step: it is, whatever the device did,
      exactly when the other program's bits are all in the torn one's. */
  lemma TornThenOther(boot: seq<Byte>, off: nat, u: seq<Byte>, v: seq<Byte>)
    requires |u| == |v| && Refusal(boot, off, u).Done? && Refusal(boot, off, v).Done?
    ensures var acts := TornThen(off, u, v);
            (forall d: seq<Byte> :: Reach(boot, acts, d) ==> d == MirrorAfter(boot, acts)) <==> forall j :: 0 <= j < |v| ==> Subset(v[j], u[j])
  {
    var acts := TornThen(off, u, v);
    InStepExactly(boot, acts);
    forall i | 0 <= i < |boot|
      ensures off + |u| <= |boot| && MirrorAfter(boot, acts) == Patch(boot, off, v)
      ensures Spans(boot, acts)[i] == Span(Patch(boot, off, v)[i], Patch(boot, off, v)[i]) <==> (off <= i < off + |v| ==> Subset(v[i - off], u[i - off]))
    {
      TornThenSpans(boot, off, u, v, i);
    }
    hide Spans, MirrorAfter, Reach, Refusal, TornThen, Patch;
    if Pinned(boot, acts) {
      forall j | 0 <= j < |v|
        ensures Subset(v[j], u[j])
      {
        assert Spans(boot, acts)[off + j] == Spans(boot, acts)[off + j];
      }
    }
  }

  /** So zeros torn on a blank region and ones programmed over them leave the device wrong behind an answer of success. */
  lemma SuccessCanBeWrong(boot: seq<Byte>) returns (d: seq<Byte>)
    requires |boot| == REGION && forall i :: 0 <= i < REGION ==> boot[i] == BLANK
    ensures var acts := TornThen(0, [0, 0], [1, 1]); Reach(boot, acts, d) && d != MirrorAfter(boot, acts)
  {
    TornThenOther(boot, 0, [0, 0], [1, 1]);
    assert !Subset([1, 1][0], [0, 0][0]);
    d :| Reach(boot, TornThen(0, [0, 0], [1, 1]), d) && d != MirrorAfter(boot, TornThen(0, [0, 0], [1, 1]));
  }

  // ---- from what the device does ----

  /** A program's writes, whole or torn, are a step of a history. */
  lemma WritesLeave(m: seq<Byte>, d0: seq<Byte>, off: nat, data: seq<Byte>, done: bool, d1: seq<Byte>)
    requires |d0| == |m| && Refusal(m, off, data).Done?
    requires var lo, hi, img := WordsFrom(off), WordsTo(off + |data|), Patch(m, off, data);
             if done then Written(d0, d1, img, lo, hi) else Torn(d0, d1, img, lo, hi)
    ensures Leaves(m, d0, Act(Program(off, data), done), d1)
  {
    hide Subset, And, Patch;
  }

  lemma RefusedLeaves(m: seq<Byte>, d: seq<Byte>, a: Act)
    requires |d| == |m| && Refused(m, a.op)
    ensures Leaves(m, d, a, d) && Mirrored(m, a) == m
  {
    hide Refused;
  }

  lemma EraseLeaves(m: seq<Byte>, d0: seq<Byte>, n: nat, done: bool, d1: seq<Byte>)
    requires |d0| == |d1| == |m| && n * PAGE + PAGE <= |m|
    requires forall i :: 0 <= i < |m| && !InPage(n, i) ==> d1[i] == d0[i]
    requires done ==> d1 == Fill(d0, n * PAGE, n * PAGE + PAGE, BLANK)
    ensures Leaves(m, d0, Act(Erase(n), done), d1)
  {
  }

  lemma ReachOn(boot: seq<Byte>, acts: seq<Act>, e: seq<Byte>, a: Act, d: seq<Byte>)
    requires Reach(boot, acts, e) && Leaves(MirrorAfter(boot, acts), e, a, d)
    ensures Reach(boot, acts + [a], d) && MirrorAfter(boot, acts + [a]) == Mirrored(MirrorAfter(boot, acts), a)
  {
    assert (acts + [a])[..|acts|] == acts;
    hide Leaves, Mirrored;
  }
}
