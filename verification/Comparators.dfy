/** A debug session's breakpoints and watchpoints: its tables, the comparators that mirror them, and when the core halts. */
module Comparators {
  import opened Parts

  const MAX_COMP := 8
  const FP_CODE_END := 0x2000_0000

  datatype Bp = Bp(addr: nat, sw: bool)

  datatype Kind = Read | Write | ReadWrite

  datatype Wp = Wp(addr: nat, len: nat, kind: Kind)

  /** A watch comparator: `COMP`, `MASK`, and `FUNCTION`'s low bits and match flag. */
  datatype Dwt = Dwt(comp: nat, mask: nat, function_: nat, matched: bool)

  // ---- the tables ----

  function One<T>(o: Option<T>): multiset<T> {
    if o.Some? then multiset{o.value} else multiset{}
  }

  /** What a table holds, as a bag. */
  function Bag<T>(table: seq<Option<T>>): multiset<T> {
    if table == [] then multiset{} else Bag(table[..|table| - 1]) + One(table[|table| - 1])
  }

  lemma BagLast<T>(table: seq<Option<T>>)
    requires table != []
    ensures Bag(table) == Bag(table[..|table| - 1]) + One(table[|table| - 1])
  {
  }

  lemma {:induction false} BagSet<T>(table: seq<Option<T>>, n: nat, v: Option<T>)
    requires n < |table|
    ensures Bag(table[n := v]) + One(table[n]) == Bag(table) + One(v)
  {
    hide Bag;
    var last := |table| - 1;
    BagLast(table);
    BagLast(table[n := v]);
    if n < last {
      BagSet(table[..last], n, v);
      assert table[n := v][..last] == table[..last][n := v];
      Rearranged(Bag(table[..last][n := v]), Bag(table[..last]), One(table[last]), One(table[n]), One(v));
    } else {
      assert table[n := v][..last] == table[..last];
      Swapped(Bag(table[..last]), One(v), One(table[n]));
    }
  }

  lemma Rearranged<T>(a: multiset<T>, b: multiset<T>, own: multiset<T>, x: multiset<T>, y: multiset<T>)
    requires a + x == b + y
    ensures a + own + x == b + own + y
  {
    assert a + own + x == a + x + own;
  }

  lemma Swapped<T>(a: multiset<T>, x: multiset<T>, y: multiset<T>)
    ensures a + x + y == a + y + x
  {
  }

  lemma {:induction false} BagHas<T>(table: seq<Option<T>>, x: T)
    ensures x in Bag(table) <==> exists i :: 0 <= i < |table| && table[i] == Some(x)
  {
    if table != [] {
      var last := |table| - 1;
      BagHas(table[..last], x);
      if exists i :: 0 <= i < |table| && table[i] == Some(x) {
        var i :| 0 <= i < |table| && table[i] == Some(x);
        if i < last {
          assert table[..last][i] == Some(x);
        }
      }
    }
  }

  /** A table is full exactly when its bag is as large as it. */
  lemma {:induction false} BagFull<T>(table: seq<Option<T>>)
    ensures |Bag(table)| <= |table|
    ensures |Bag(table)| == |table| <==> forall i :: 0 <= i < |table| ==> table[i].Some?
  {
    if table != [] {
      BagFull(table[..|table| - 1]);
    }
  }

  lemma {:induction false} BagTail<T>(table: seq<Option<T>>, n: nat)
    requires n <= |table| && forall i :: n <= i < |table| ==> table[i].None?
    ensures Bag(table) == Bag(table[..n])
    decreases |table| - n
  {
    if n < |table| {
      BagTail(table[..|table| - 1], n);
      assert table[..|table| - 1][..n] == table[..n];
    } else {
      assert table[..n] == table;
    }
  }

  lemma BagAdd<T>(table: seq<Option<T>>, n: nat, x: T)
    requires n < |table| && table[n].None?
    ensures Bag(table[n := Some(x)]) == Bag(table) + multiset{x}
  {
    BagSet(table, n, Some(x));
    assert Bag(table[n := Some(x)]) + multiset{} == Bag(table[n := Some(x)]);
    hide Bag;
  }

  lemma BagRemove<T>(table: seq<Option<T>>, n: nat, x: T)
    requires n < |table| && table[n] == Some(x)
    ensures Bag(table[n := None]) == Bag(table) - multiset{x}
  {
    BagSet(table, n, None);
    AddThenTake(Bag(table[n := None]), Bag(table), x);
    hide Bag;
  }

  lemma AddThenTake<T>(a: multiset<T>, b: multiset<T>, x: T)
    requires a + multiset{x} == b + multiset{}
    ensures a == b - multiset{x}
  {
    assert a + multiset{x} == b;
  }

  /** The slots in use among the first `n` are all of them exactly when the bag is that large. */
  lemma BagRoom<T>(table: seq<Option<T>>, n: nat)
    requires n <= |table| && forall i :: n <= i < |table| ==> table[i].None?
    ensures |Bag(table)| <= n
    ensures |Bag(table)| == n <==> forall i :: 0 <= i < n ==> table[i].Some?
  {
    hide Bag, One;
    BagTail(table, n);
    BagFull(table[..n]);
    assert |table[..n]| == n && forall i :: 0 <= i < n ==> table[..n][i] == table[i];
  }

  /** The first free slot of the first `n`, or `n`. */
  method FirstFree<T>(table: seq<Option<T>>, n: nat) returns (k: nat)
    requires n <= |table| && forall i :: n <= i < |table| ==> table[i].None?
    ensures k <= n && (k < n ==> table[k].None?)
    ensures k < n <==> |Bag(table)| < n
  {
    BagRoom(table, n);
    hide Bag;
    k := 0;
    while k < n && table[k].Some?
      invariant 0 <= k <= n && forall i :: 0 <= i < k ==> table[i].Some?
    {
      k := k + 1;
    }
  }

  /** The first slot holding `x`, or the table's length. */
  method Position<T(==)>(table: seq<Option<T>>, x: T) returns (k: nat)
    ensures k <= |table| && (k < |table| ==> table[k] == Some(x))
    ensures k < |table| <==> x in Bag(table)
  {
    BagHas(table, x);
    hide Bag;
    k := 0;
    while k < |table| && table[k] != Some(x)
      invariant 0 <= k <= |table| && forall i :: 0 <= i < k ==> table[i] != Some(x)
    {
      k := k + 1;
    }
  }

  // ---- the comparators ----

  /** A code comparator's value for a breakpoint: the word compared, which halfword of it, enabled. */
  function FpbValue(addr: nat): nat {
    (if addr / 2 % 2 == 1 then 2 else 1) * 0x4000_0000 + addr / 4 * 4 % 0x2000_0000 + 1
  }

  /** A code comparator with the core at `pc`. */
  predicate FpbHits(c: nat, pc: nat) {
    && c % 2 == 1
    && c / 4 * 4 % 0x2000_0000 == pc / 4 * 4 % 0x2000_0000
    && (if pc / 2 % 2 == 1 then c / 0x8000_0000 % 2 == 1 else c / 0x4000_0000 % 2 == 1)
  }

  /** A breakpoint below the code region's end halts the core at its own halfword there, and nowhere else there. */
  lemma FpbExact(addr: nat, pc: nat)
    requires addr < FP_CODE_END && pc < FP_CODE_END && pc % 2 == 0
    ensures FpbHits(FpbValue(addr), pc) <==> pc == addr / 2 * 2
  {
    FpbMeets(addr, pc);
    SameHalfword(addr, pc);
    hide FpbHits, FpbValue;
  }

  /** The comparator meets its own word and halfword. */
  lemma FpbMeets(addr: nat, pc: nat)
    requires addr < FP_CODE_END && pc < FP_CODE_END
    ensures FpbHits(FpbValue(addr), pc) <==> addr / 4 == pc / 4 && addr / 2 % 2 == pc / 2 % 2
  {
    WordBelowEnd(addr);
    WordBelowEnd(pc);
    FpbParts(addr / 4, addr / 2 % 2 == 1);
  }

  lemma WordBelowEnd(a: nat)
    requires a < FP_CODE_END
    ensures a / 4 * 4 == 4 * (a / 4) && 4 * (a / 4) < 0x2000_0000 && a / 4 * 4 % 0x2000_0000 == 4 * (a / 4)
  {
    Divides(4 * (a / 4), 0x2000_0000, 0, 4 * (a / 4));
  }

  lemma SameHalfword(a: nat, pc: nat)
    requires pc % 2 == 0
    ensures a / 4 == pc / 4 && a / 2 % 2 == pc / 2 % 2 <==> pc == a / 2 * 2
  {
    assert a / 2 == 2 * (a / 4) + a / 2 % 2 && pc / 2 == 2 * (pc / 4) + pc / 2 % 2 && pc == 2 * (pc / 2);
  }

  /** The parts of a code comparator: enabled, its word, and one of the two halfword bits. */
  lemma FpbParts(word: nat, upper: bool)
    requires 4 * word < 0x2000_0000
    ensures var c := (if upper then 2 else 1) * 0x4000_0000 + 4 * word + 1;
            && c % 2 == 1 && c / 4 * 4 % 0x2000_0000 == 4 * word
            && c / 0x8000_0000 % 2 == (if upper then 1 else 0) && c / 0x4000_0000 % 2 == (if upper then 0 else 1)
  {
    if upper {
      UpperParts(word);
    } else {
      LowerParts(word);
    }
  }

  lemma UpperParts(word: nat)
    requires 4 * word < 0x2000_0000
    ensures var c := 0x8000_0001 + 4 * word;
            c % 2 == 1 && c / 4 * 4 % 0x2000_0000 == 4 * word && c / 0x8000_0000 == 1 && c / 0x4000_0000 == 2
  {
    var c := 0x8000_0001 + 4 * word;
    Divides(c, 2, 0x4000_0000 + 2 * word, 1);
    Divides(c, 4, 0x2000_0000 + word, 1);
    Divides(0x8000_0000 + 4 * word, 0x2000_0000, 4, 4 * word);
    Divides(c, 0x8000_0000, 1, 4 * word + 1);
    Divides(c, 0x4000_0000, 2, 4 * word + 1);
  }

  lemma LowerParts(word: nat)
    requires 4 * word < 0x2000_0000
    ensures var c := 0x4000_0001 + 4 * word;
            c % 2 == 1 && c / 4 * 4 % 0x2000_0000 == 4 * word && c / 0x8000_0000 == 0 && c / 0x4000_0000 == 1
  {
    var c := 0x4000_0001 + 4 * word;
    Divides(c, 2, 0x2000_0000 + 2 * word, 1);
    Divides(c, 4, 0x1000_0000 + word, 1);
    Divides(0x4000_0000 + 4 * word, 0x2000_0000, 2, 4 * word);
    Divides(c, 0x8000_0000, 0, c);
    Divides(c, 0x4000_0000, 1, 4 * word + 1);
  }

  lemma Divides(x: nat, n: nat, q: nat, r: nat)
    requires x == n * q + r && r < n
    ensures x / n == q && x % n == r
  {
    var p, s := x / n, x % n;
    assert x == n * p + s;
    if p > q {
      Multiples(n, q + 1, p);
    } else if p < q {
      Multiples(n, p + 1, q);
    }
  }

  function Pow2(n: nat): (p: nat)
    ensures p > 0
  {
    if n == 0 then 1 else 2 * Pow2(n - 1)
  }

  function TrailingZeros(len: nat): nat
    requires len > 0
  {
    if len % 2 == 1 then 0 else 1 + TrailingZeros(len / 2)
  }

  predicate PowerOfTwo(len: nat) {
    len > 0 && (len == 1 || (len % 2 == 0 && PowerOfTwo(len / 2)))
  }

  lemma {:induction false} PowerOfZeros(len: nat)
    requires PowerOfTwo(len)
    ensures Pow2(TrailingZeros(len)) == len
  {
    if len > 1 {
      PowerOfZeros(len / 2);
    }
  }

  function Code(k: Kind): nat {
    match k
    case Read => 5
    case Write => 6
    case ReadWrite => 7
  }

  predicate Wants(function_: nat, write: bool) {
    (function_ == 5 && !write) || (function_ == 6 && write) || function_ == 7
  }

  predicate Catches(k: Kind, write: bool) {
    match k
    case Read => !write
    case Write => write
    case ReadWrite => true
  }

  /** A watch comparator with the core touching `addr`: the bits above the mask compared. */
  predicate DwtHits(c: Dwt, addr: nat, write: bool) {
    Wants(c.function_, write) && addr / Pow2(c.mask) == c.comp / Pow2(c.mask)
  }

  lemma BlockOf(addr: nat, base: nat, len: nat)
    requires len > 0 && base % len == 0
    ensures addr / len == base / len <==> base <= addr < base + len
  {
    var q, r, b := addr / len, addr % len, base / len;
    assert addr == len * q + r && base == len * b;
    if q == b {
      assert base <= addr < base + len;
    } else if q < b {
      Multiples(len, q + 1, b);
    } else {
      Multiples(len, b + 1, q);
    }
  }

  lemma Multiples(len: nat, a: nat, b: nat)
    requires a <= b
    ensures len * a <= len * b
  {
    assert len * b - len * a == len * (b - a);
  }

  /** A watchpoint a comparator can hold halts the core on exactly the accesses of its kind to its bytes. */
  lemma DwtExact(w: Wp, matched: bool, addr: nat, write: bool)
    requires PowerOfTwo(w.len) && w.addr % w.len == 0
    ensures DwtHits(Dwt(w.addr, TrailingZeros(w.len), Code(w.kind), matched), addr, write)
            <==> w.addr <= addr < w.addr + w.len && Catches(w.kind, write)
  {
    PowerOfZeros(w.len);
    BlockOf(addr, w.addr, w.len);
  }

  // ---- a session ----

  /** The code comparators mirror the breakpoint table, their unit enabled; the watch comparators the watchpoint table, theirs
      powered. */
  ghost predicate CodeMirrors(bps: seq<Option<Bp>>, n: nat, fp: seq<nat>, enabled: bool) {
    && |bps| == MAX_COMP && n == |fp| <= MAX_COMP
    && (forall i :: n <= i < MAX_COMP ==> bps[i].None?)
    && (forall i :: 0 <= i < n && bps[i].Some? ==> enabled)
    && forall i :: 0 <= i < n ==>
         if bps[i].None? then fp[i] == 0 else bps[i].value.addr < FP_CODE_END && fp[i] == FpbValue(bps[i].value.addr)
  }

  ghost predicate WatchMirrors(wps: seq<Option<Wp>>, n: nat, dwt: seq<Dwt>, powered: bool) {
    && |wps| == MAX_COMP && n == |dwt| <= MAX_COMP
    && (forall i :: n <= i < MAX_COMP ==> wps[i].None?)
    && (forall i :: 0 <= i < n && wps[i].Some? ==> powered)
    && forall i :: 0 <= i < n ==>
         if wps[i].None? then dwt[i].function_ == 0
         else
           var w := wps[i].value;
           PowerOfTwo(w.len) && w.addr % w.len == 0
           && dwt[i] == Dwt(w.addr, TrailingZeros(w.len), Code(w.kind), dwt[i].matched)
  }

  /** The core reaches `pc`: some comparator is on it. */
  predicate CodeHalts(fp: seq<nat>, enabled: bool, pc: nat) {
    enabled && exists i :: 0 <= i < |fp| && FpbHits(fp[i], pc)
  }

  predicate TouchHalts(dwt: seq<Dwt>, powered: bool, addr: nat, write: bool) {
    powered && exists i :: 0 <= i < |dwt| && DwtHits(dwt[i], addr, write)
  }

  /** In the code region the core halts at a pc exactly when a breakpoint is set on it. */
  lemma HaltsAtBreakpoints(bps: seq<Option<Bp>>, n: nat, fp: seq<nat>, enabled: bool, pc: nat)
    requires CodeMirrors(bps, n, fp, enabled) && pc < FP_CODE_END && pc % 2 == 0
    ensures !CodeHalts(fp, false, pc)
    ensures CodeHalts(fp, enabled, pc) <==> exists b :: b in Bag(bps) && pc == b.addr / 2 * 2
  {
    forall i | 0 <= i < n
      ensures FpbHits(fp[i], pc) <==> bps[i].Some? && pc == bps[i].value.addr / 2 * 2
    {
      if bps[i].Some? {
        FpbExact(bps[i].value.addr, pc);
      }
    }
    hide FpbHits, FpbValue;
    if CodeHalts(fp, enabled, pc) {
      var i :| 0 <= i < |fp| && FpbHits(fp[i], pc);
      BagHas(bps, bps[i].value);
    }
    if b :| b in Bag(bps) && pc == b.addr / 2 * 2 {
      BagHas(bps, b);
      var i :| 0 <= i < |bps| && bps[i] == Some(b);
      assert FpbHits(fp[i], pc);
    }
  }

  /** The core halts on an access exactly when a watchpoint of its kind covers it. */
  lemma HaltsAtWatchpoints(wps: seq<Option<Wp>>, n: nat, dwt: seq<Dwt>, powered: bool, addr: nat, write: bool)
    requires WatchMirrors(wps, n, dwt, powered)
    ensures !TouchHalts(dwt, false, addr, write)
    ensures TouchHalts(dwt, powered, addr, write)
            <==> exists w :: w in Bag(wps) && w.addr <= addr < w.addr + w.len && Catches(w.kind, write)
  {
    hide Bag;
    forall i | 0 <= i < n
      ensures DwtHits(dwt[i], addr, write)
              <==> wps[i].Some? && wps[i].value.addr <= addr < wps[i].value.addr + wps[i].value.len && Catches(wps[i].value.kind, write)
    {
      if wps[i].Some? {
        DwtExact(wps[i].value, dwt[i].matched, addr, write);
      }
    }
    hide DwtHits, PowerOfTwo, TrailingZeros;
    if TouchHalts(dwt, powered, addr, write) {
      var i :| 0 <= i < |dwt| && DwtHits(dwt[i], addr, write);
      BagHas(wps, wps[i].value);
    }
    if w :| w in Bag(wps) && w.addr <= addr < w.addr + w.len && Catches(w.kind, write) {
      BagHas(wps, w);
      var i :| 0 <= i < |wps| && wps[i] == Some(w);
      assert DwtHits(dwt[i], addr, write);
    }
  }

  class Session {
    var bps: seq<Option<Bp>>
    var wps: seq<Option<Wp>>
    /** The comparators, the flash patch unit's enable and the DWT's power. */
    var fp: seq<nat>
    var enabled: bool
    var dwt: seq<Dwt>
    var powered: bool

    ghost predicate Valid()
      reads this
    {
      enabled && CodeMirrors(bps, |fp|, fp, enabled) && WatchMirrors(wps, |dwt|, dwt, powered)
    }

    /** A session opens with the flash patch unit enabled, every comparator cleared and both tables empty. */
    constructor (code: seq<nat>, watch: seq<Dwt>, powered: bool)
      requires |code| <= MAX_COMP && |watch| <= MAX_COMP
      ensures Valid() && |fp| == |code| && |dwt| == |watch|
      ensures Bag(bps) == multiset{} && Bag(wps) == multiset{}
    {
      fp, dwt := seq(|code|, _ => 0), seq(|watch|, i requires 0 <= i < |watch| => watch[i].(function_ := 0));
      bps, wps := seq(MAX_COMP, _ => None), seq(MAX_COMP, _ => None);
      enabled, this.powered := true, powered;
      new;
      BagTail(bps, 0);
      BagTail(wps, 0);
    }

    /** A breakpoint goes into the first free comparator: taken exactly when there is one and it is in the code region. */
    method AddBreakpoint(addr: nat, sw: bool) returns (ok: bool)
      requires Valid()
      modifies this`bps, this`fp
      ensures Valid() && |fp| == |old(fp)|
      ensures ok <==> addr < FP_CODE_END && |old(Bag(bps))| < |fp|
      ensures Bag(bps) == if ok then old(Bag(bps)) + multiset{Bp(addr, sw)} else old(Bag(bps))
    {
      hide Bag, WatchMirrors, FpbValue;
      if addr >= FP_CODE_END {
        return false;
      }
      var n := FirstFree(bps, |fp|);
      if n == |fp| {
        return false;
      }
      BagAdd(bps, n, Bp(addr, sw));
      fp, bps := fp[n := FpbValue(addr)], bps[n := Some(Bp(addr, sw))];
      ok := true;
    }

    method RemoveBreakpoint(addr: nat, sw: bool) returns (ok: bool)
      requires Valid()
      modifies this`bps, this`fp
      ensures Valid() && |fp| == |old(fp)|
      ensures ok <==> Bp(addr, sw) in old(Bag(bps))
      ensures Bag(bps) == if ok then old(Bag(bps)) - multiset{Bp(addr, sw)} else old(Bag(bps))
    {
      hide Bag, WatchMirrors, FpbValue;
      var n := Position(bps, Bp(addr, sw));
      if n == |bps| {
        return false;
      }
      BagRemove(bps, n, Bp(addr, sw));
      fp, bps := fp[n := 0], bps[n := None];
      ok := true;
    }

    /** Taken exactly when one comparator can watch those bytes and no others, and one is free. */
    method AddWatchpoint(addr: nat, len: nat, kind: Kind) returns (ok: bool)
      requires Valid()
      modifies this`wps, this`dwt, this`powered
      ensures Valid() && |dwt| == |old(dwt)|
      ensures ok <==> PowerOfTwo(len) && addr % len == 0 && |old(Bag(wps))| < |dwt|
      ensures Bag(wps) == if ok then old(Bag(wps)) + multiset{Wp(addr, len, kind)} else old(Bag(wps))
    {
      hide Bag, CodeMirrors, Code;
      if !PowerOfTwo(len) || addr % len != 0 {
        return false;
      }
      hide TrailingZeros;
      var n := FirstFree(wps, |dwt|);
      if n == |dwt| {
        return false;
      }
      BagAdd(wps, n, Wp(addr, len, kind));
      powered := true;
      dwt, wps := dwt[n := Dwt(addr, TrailingZeros(len), Code(kind), dwt[n].matched)], wps[n := Some(Wp(addr, len, kind))];
      ok := true;
    }

    method RemoveWatchpoint(addr: nat, len: nat, kind: Kind) returns (ok: bool)
      requires Valid()
      modifies this`wps, this`dwt
      ensures Valid() && |dwt| == |old(dwt)|
      ensures ok <==> Wp(addr, len, kind) in old(Bag(wps))
      ensures Bag(wps) == if ok then old(Bag(wps)) - multiset{Wp(addr, len, kind)} else old(Bag(wps))
    {
      hide Bag, CodeMirrors, Code, TrailingZeros;
      var n := Position(wps, Wp(addr, len, kind));
      if n == |wps| {
        return false;
      }
      BagRemove(wps, n, Wp(addr, len, kind));
      dwt, wps := dwt[n := dwt[n].(function_ := 0)], wps[n := None];
      ok := true;
    }
  }
}
