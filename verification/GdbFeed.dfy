/** The GDB server's byte feed: the client's bytes in order, held back behind each `$vFlashDone#` while its load runs. */
module GdbFeed {
  import opened Parts

  const RX := 512
  const DOLLAR := 0x24
  const LENGTH := 12

  /** `$vFlashDone#`, whose first byte stands nowhere else in it. */
  function FlashDone(): (p: seq<int>)
    ensures IsPattern(p)
  {
    [DOLLAR, 0x76, 0x46, 0x6C, 0x61, 0x73, 0x68, 0x44, 0x6F, 0x6E, 0x65, 0x23]
  }

  predicate IsPattern(p: seq<int>) {
    |p| == LENGTH && p[0] == DOLLAR && forall j :: 0 < j < LENGTH ==> p[j] != DOLLAR
  }

  /** The feed: what is queued, matched and held; whether a load runs and this session started it; and what the session
      has taken from the client, fed to the protocol and started so far; and the pattern it watches for. */
  datatype Feed = Feed(
    open: bool, rx: seq<int>, done: nat, held: bool, ended: bool,
    flashing: bool, own: bool,
    taken: seq<int>, fed: seq<int>, starts: nat, pattern: seq<int>)

  /** What one turn of the feed meets: replies still to go out, the protocol's end, an image to flash. */
  datatype Turn = Turn(out: nat, ends: bool, collected: bool)

  datatype Event = Open | Close | Push(data: seq<int>) | Feeds(turns: seq<Turn>) | LoadEnds

  // ---- steps ----

  predicate Fits(f: Feed) {
    f.done < LENGTH && |f.rx| <= RX && IsPattern(f.pattern)
  }

  function Closed(f: Feed): Feed {
    Feed(false, [], 0, false, false, f.flashing, false, [], [], 0, f.pattern)
  }

  function Pushed(f: Feed, data: seq<int>): Feed
    requires |f.rx| <= RX
  {
    if !f.open then f
    else
      var n := if |data| < RX - |f.rx| then |data| else RX - |f.rx|;
      f.(rx := f.rx + data[..n], taken := f.taken + data[..n])
  }

  /** The bytes matched once `b` follows `done` matched ones. */
  function Matched(p: seq<int>, done: nat, b: int): (n: nat)
    requires IsPattern(p) && done < LENGTH
    ensures n <= LENGTH
  {
    if b == p[done] then done + 1 else if b == DOLLAR then 1 else 0
  }

  /** One turn: whether the feed goes on, and what it leaves. */
  function TurnOf(f: Feed, t: Turn): (n: (bool, Feed))
    requires Fits(f)
    ensures Fits(n.1) && n.1.pattern == f.pattern
  {
    if f.held && f.flashing then (false, f)
    else
      var g := f.(held := false);
      if t.out != 0 || !g.open || g.rx == [] then (false, g)
      else (true, FedOne(g, t))
  }

  /** The next queued byte fed: to the protocol, which may end the session with it, and to the matcher. */
  function FedOne(f: Feed, t: Turn): (g: Feed)
    requires Fits(f) && f.rx != []
    ensures Fits(g) && g.pattern == f.pattern
  {
    var b, done := f.rx[0], Matched(f.pattern, f.done, f.rx[0]);
    var h := f.(fed := f.fed + [b], rx := if t.ends then [] else f.rx[1..], open := f.open && !t.ends, ended := f.ended || t.ends);
    if done < LENGTH then h.(done := done)
    else h.(done := 0, held := true, starts := h.starts + 1, flashing := t.collected && !h.flashing, own := true)
  }

  function FeedOn(f: Feed, turns: seq<Turn>): (g: Feed)
    requires Fits(f)
    ensures Fits(g) && g.pattern == f.pattern
    decreases |turns|
  {
    if turns == [] then f
    else
      var n := TurnOf(f, turns[0]);
      if n.0 then FeedOn(n.1, turns[1..]) else n.1
  }

  function Step(f: Feed, e: Event): (g: Feed)
    requires Fits(f)
    ensures Fits(g) && g.pattern == f.pattern
  {
    match e
    case Open => Closed(f).(open := true)
    case Close => Closed(f)
    case Push(data) => Pushed(f, data)
    case Feeds(turns) => FeedOn(f, turns)
    case LoadEnds => f.(flashing := false)
  }

  // ---- the matcher ----

  /** The stream ends with the first `k` bytes of the pattern, and `k` is not all of it. */
  predicate Border(p: seq<int>, s: seq<int>, k: nat)
    requires IsPattern(p)
  {
    k < LENGTH && k <= |s| && s[|s| - k..] == p[..k]
  }

  predicate Occurs(p: seq<int>, s: seq<int>) {
    LENGTH <= |s| && s[|s| - LENGTH..] == p
  }

  /** How often the pattern occurs in the stream. */
  function Count(p: seq<int>, s: seq<int>): nat {
    if s == [] then 0 else Count(p, s[..|s| - 1]) + if Occurs(p, s) then 1 else 0
  }

  predicate Longest(p: seq<int>, s: seq<int>, done: nat)
    requires IsPattern(p)
  {
    Border(p, s, done) && forall k :: done < k < LENGTH ==> !Border(p, s, k)
  }

  /** Of two overlapping borders, the shorter starts inside the longer where the pattern's first byte stands again. */
  lemma BordersShift(p: seq<int>, s: seq<int>, j: nat, k: nat)
    requires 0 < j < k <= |p| && k <= |s| && s[|s| - j..] == p[..j] && s[|s| - k..] == p[..k]
    ensures p[k - j] == p[0]
  {
    assert s[|s| - j..][0] == p[..j][0];
    assert s[|s| - k..][k - j] == p[..k][k - j];
  }

  /** A border of the longer stream is a border of the shorter one and the pattern's next byte. */
  lemma BorderNext(p: seq<int>, s: seq<int>, b: int, k: nat)
    requires k < |p| && k <= |s|
    ensures s[|s| - k..] == p[..k] && b == p[k] <==> (s + [b])[|s| - k..] == p[..k + 1]
  {
    var t := (s + [b])[|s| - k..];
    assert t == s[|s| - k..] + [b] && p[..k + 1] == p[..k] + [p[k]];
    if t == p[..k + 1] {
      assert t[..k] == p[..k + 1][..k] && t[k] == p[..k + 1][k];
    }
  }

  /** Whatever part of the pattern the stream now ends with is what the matcher has counted. */
  lemma EndsAt(p: seq<int>, s: seq<int>, done: nat, b: int, k: nat)
    requires IsPattern(p) && Longest(p, s, done) && 0 < k <= LENGTH && k <= |s| + 1 && (s + [b])[|s| + 1 - k..] == p[..k]
    ensures k == Matched(p, done, b)
  {
    BorderNext(p, s, b, k - 1);
    assert Border(p, s, k - 1);
    if 0 < k - 1 < done {
      BordersShift(p, s, k - 1, done);
    }
  }

  lemma MatchedEnds(p: seq<int>, s: seq<int>, done: nat, b: int)
    requires IsPattern(p) && Longest(p, s, done)
    ensures var n := Matched(p, done, b); n <= |s| + 1 && (s + [b])[|s| + 1 - n..] == p[..n]
  {
    BorderNext(p, s, b, done);
    BorderNext(p, s, b, 0);
    assert (s + [b])[|s| + 1..] == p[..0];
    assert s[|s|..] == p[..0];
  }

  /** The matcher's count is always the longest border, and it completes exactly at an occurrence. */
  lemma MatchedIs(p: seq<int>, s: seq<int>, done: nat, b: int)
    requires IsPattern(p) && Longest(p, s, done)
    ensures var n := Matched(p, done, b);
            && (n == LENGTH <==> Occurs(p, s + [b]))
            && Longest(p, s + [b], if n == LENGTH then 0 else n)
  {
    var t, m, n := s + [b], LENGTH, Matched(p, done, b);
    MatchedEnds(p, s, done, b);
    assert p[..m] == p && t[|t|..] == p[..0];
    if Occurs(p, t) {
      EndsAt(p, s, done, b, m);
    }
    forall k | 0 < k < m && Border(p, t, k)
      ensures k == n
    {
      EndsAt(p, s, done, b, k);
    }
    hide Matched, Longest;
  }

  // ---- every run ----

  predicate Ok(f: Feed) {
    && Fits(f)
    && Longest(f.pattern, f.fed, f.done)
    && f.starts == Count(f.pattern, f.fed)
    && (f.open ==> f.taken == f.fed + f.rx)
    && f.fed <= f.taken
    && (f.flashing && f.own ==> f.held)
  }

  lemma CountNext(p: seq<int>, s: seq<int>, b: int)
    ensures Count(p, s + [b]) == Count(p, s) + if Occurs(p, s + [b]) then 1 else 0
  {
    assert (s + [b])[..|s|] == s;
    hide Occurs;
  }

  lemma FedKeeps(f: Feed, t: Turn)
    requires Ok(f) && f.open && f.rx != [] && !(f.held && f.flashing)
    ensures Ok(FedOne(f, t))
  {
    hide Longest, Occurs, Matched, FlashDone, Count;
    var b := f.rx[0];
    MatchedIs(f.pattern, f.fed, f.done, b);
    CountNext(f.pattern, f.fed, b);
    assert f.fed + [b] + f.rx[1..] == f.fed + f.rx;
    assert f.open && f.fed + [b] <= f.taken;
  }

  lemma TurnKeeps(f: Feed, t: Turn)
    requires Ok(f)
    ensures Ok(TurnOf(f, t).1)
  {
    if !(f.held && f.flashing) && t.out == 0 && f.open && f.rx != [] {
      FedKeeps(f.(held := false), t);
      hide FedOne;
    }
  }

  lemma {:induction false} FeedKeeps(f: Feed, turns: seq<Turn>)
    requires Ok(f)
    ensures Ok(FeedOn(f, turns))
    decreases |turns|
  {
    if turns != [] {
      TurnKeeps(f, turns[0]);
      if TurnOf(f, turns[0]).0 {
        FeedKeeps(TurnOf(f, turns[0]).1, turns[1..]);
      }
    }
  }

  lemma ClosedOk(f: Feed)
    requires IsPattern(f.pattern)
    ensures Ok(Closed(f)) && Ok(Closed(f).(open := true))
  {
    var none: seq<int> := [];
    assert none[0..] == f.pattern[..0];
  }

  lemma StepKeeps(f: Feed, e: Event)
    requires Ok(f)
    ensures Ok(Step(f, e))
  {
    match e
    case Feeds(turns) => FeedKeeps(f, turns);
    case Push(data) =>
      var n := if |data| < RX - |f.rx| then |data| else RX - |f.rx|;
      assert f.fed + f.rx + data[..n] == f.fed + (f.rx + data[..n]);
    case Open => ClosedOk(f);
    case Close => ClosedOk(f);
    case LoadEnds =>
  }

  function Start(): Feed {
    Feed(false, [], 0, false, false, false, false, [], [], 0, FlashDone())
  }

  /** The feed over further events. */
  function RunFrom(f: Feed, events: seq<Event>): (g: Feed)
    requires Fits(f)
    ensures Fits(g) && g.pattern == f.pattern
  {
    if events == [] then f else Step(RunFrom(f, events[..|events| - 1]), events[|events| - 1])
  }

  lemma {:induction false} RunKeeps(f: Feed, events: seq<Event>)
    requires Ok(f)
    ensures Fits(f) && Ok(RunFrom(f, events))
  {
    assert Fits(f);
    hide Ok;
    if events != [] {
      RunKeeps(f, events[..|events| - 1]);
      StepKeeps(RunFrom(f, events[..|events| - 1]), events[|events| - 1]);
    }
  }

  /** Over every run: what was fed and what is queued are what was taken, in order; the count is the longest part of the
      pattern the fed stream ends with; and a load has been started once for each occurrence in it. */
  lemma FeedIsFaithful(events: seq<Event>)
    ensures var f := RunFrom(Start(), events);
            && (f.open ==> f.taken == f.fed + f.rx) && f.fed <= f.taken
            && Border(FlashDone(), f.fed, f.done) && (forall k :: f.done < k < LENGTH ==> !Border(FlashDone(), f.fed, k))
            && f.starts == Count(FlashDone(), f.fed)
            && (f.flashing && f.own ==> f.held)
  {
    ClosedOk(Start());
    RunKeeps(Start(), events);
  }

  /** Nothing is fed behind a `#` while the load it started runs, whatever the client sends and however often the feed
      is served. */
  lemma {:induction false} HeldBack(f: Feed, events: seq<Event>)
    requires Fits(f) && f.flashing && f.held && forall i :: 0 <= i < |events| ==> events[i].Push? || events[i].Feeds?
    ensures var g := RunFrom(f, events); g.fed == f.fed && g.flashing && g.held && f.rx <= g.rx
  {
    hide Step;
    if events != [] {
      HeldBack(f, events[..|events| - 1]);
      HeldStep(RunFrom(f, events[..|events| - 1]), events[|events| - 1]);
    }
  }

  lemma HeldStep(f: Feed, e: Event)
    requires Fits(f) && f.flashing && f.held && (e.Push? || e.Feeds?)
    ensures var g := Step(f, e); g.fed == f.fed && g.flashing && g.held && f.rx <= g.rx
  {
  }

  // ---- the feed goes on ----

  /** A turn feeds exactly when the session is open, something is queued, the replies are out and no load holds it back. It
      feeds the queue's first byte, which ends the session where the protocol says so; behind an occurrence of the pattern
      the rest is held, and a load runs exactly where something was collected for one and none ran before. */
  lemma TurnFeeds(f: Feed, t: Turn)
    requires Ok(f)
    ensures var (fed, g) := TurnOf(f, t);
            && (fed <==> f.open && f.rx != [] && t.out == 0 && !(f.held && f.flashing))
            && (!fed ==> g == f.(held := f.held && f.flashing))
            && (fed ==>
                  && g.fed == f.fed + [f.rx[0]] && g.taken == f.taken
                  && g.open == !t.ends && g.ended == (f.ended || t.ends) && g.rx == (if t.ends then [] else f.rx[1..])
                  && (g.held <==> Occurs(f.pattern, g.fed))
                  && g.flashing == if g.held then t.collected && !f.flashing else f.flashing)
  {
    hide Occurs, Longest, Count, Matched;
    if f.open && f.rx != [] {
      MatchedIs(f.pattern, f.fed, f.done, f.rx[0]);
    }
  }

  /** A session starts with nothing taken, fed, queued or held, whatever the one before it left; a load goes on. */
  lemma SessionStarts(f: Feed)
    requires Fits(f)
    ensures var g := Step(f, Open);
            && g.open && !g.held && !g.ended && g.done == 0 && g.rx == [] && g.taken == [] && g.fed == [] && g.starts == 0
            && g.flashing == f.flashing && Step(f, Close) == g.(open := false)
  {
  }

  /** The pattern ends at byte `i` of what is fed next. */
  predicate OccursAt(f: Feed, i: nat)
    requires i <= |f.rx|
  {
    Occurs(f.pattern, f.fed + f.rx[..i])
  }

  /** `m` turns in which the replies are out and the session goes on, and no load starts before the last. */
  predicate Plain(f: Feed, turns: seq<Turn>, m: nat) {
    && m <= |turns| && m <= |f.rx|
    && (forall i :: 0 <= i < m ==> turns[i].out == 0 && !turns[i].ends)
    && forall i :: 0 < i < m && OccursAt(f, i) ==> !turns[i - 1].collected
  }

  lemma OccursNext(f: Feed, g: Feed)
    requires f.rx != [] && g.fed == f.fed + [f.rx[0]] && g.rx == f.rx[1..] && g.pattern == f.pattern
    ensures forall i :: 0 <= i <= |g.rx| ==> (OccursAt(g, i) <==> OccursAt(f, i + 1))
    ensures OccursAt(f, 1) <==> Occurs(f.pattern, g.fed)
  {
    assert f.rx[..1] == [f.rx[0]];
    forall i | 0 <= i <= |g.rx|
      ensures OccursAt(g, i) <==> OccursAt(f, i + 1)
    {
      assert f.rx[..i + 1] == [f.rx[0]] + g.rx[..i];
      assert g.fed + g.rx[..i] == f.fed + f.rx[..i + 1];
    }
    hide Occurs;
  }

  lemma PlainNext(f: Feed, g: Feed, turns: seq<Turn>, m: nat)
    requires Plain(f, turns, m) && 0 < m && |g.rx| == |f.rx| - 1
    requires forall i :: 0 <= i <= |g.rx| ==> (OccursAt(g, i) <==> OccursAt(f, i + 1))
    ensures Plain(g, turns[1..], m - 1)
  {
    hide OccursAt;
    assert forall i :: 0 <= i < m - 1 ==> turns[1..][i] == turns[i + 1];
  }

  lemma StopsFeeding(f: Feed, turns: seq<Turn>)
    requires Fits(f) && f.held && f.flashing
    ensures FeedOn(f, turns) == f
  {
  }

  /** `g` is `f` with `m` bytes more fed, a load running exactly where the last of them started one. */
  predicate FedTo(f: Feed, g: Feed, turns: seq<Turn>, m: nat)
    requires m <= |f.rx| && m <= |turns|
  {
    && g.fed == f.fed + f.rx[..m] && g.rx == f.rx[m..] && g.open
    && (g.flashing <==> 0 < m && OccursAt(f, m) && turns[m - 1].collected)
    && (g.flashing ==> g.held)
  }

  lemma FirstTurn(f: Feed, turns: seq<Turn>)
    requires Ok(f) && f.open && !f.flashing && f.rx != [] && turns != [] && turns[0].out == 0 && !turns[0].ends
    ensures var g := TurnOf(f, turns[0]).1;
            && Fits(g) && Ok(g) && FeedOn(f, turns) == FeedOn(g, turns[1..]) && FedTo(f, g, turns, 1)
            && g.pattern == f.pattern && g.fed == f.fed + [f.rx[0]] && g.rx == f.rx[1..] && g.open
            && (g.flashing ==> g.held) && (g.flashing <==> OccursAt(f, 1) && turns[0].collected)
  {
    TurnFeeds(f, turns[0]);
    TurnKeeps(f, turns[0]);
    assert f.rx[..1] == [f.rx[0]];
    hide Ok, TurnOf, Occurs;
  }

  lemma FedOn(f: Feed, g: Feed, h: Feed, turns: seq<Turn>, m: nat)
    requires 0 < m <= |f.rx| && m <= |turns| && !g.flashing
    requires g.fed == f.fed + [f.rx[0]] && g.rx == f.rx[1..] && g.pattern == f.pattern
    requires FedTo(f, g, turns, 1) && FedTo(g, h, turns[1..], m - 1)
    ensures FedTo(f, h, turns, m)
  {
    OccursNext(f, g);
    hide OccursAt;
    assert f.fed + [f.rx[0]] + f.rx[1..][..m - 1] == f.fed + f.rx[..m];
    if m > 1 {
      assert turns[1..][m - 2] == turns[m - 1];
    }
  }

  /** The feed stops after `m` bytes: nothing is left, the turns are over, or an occurrence starts a load. */
  predicate StopsAfter(f: Feed, turns: seq<Turn>, m: nat) {
    && Plain(f, turns, m)
    && (m == |f.rx| || m == |turns| || (0 < m && OccursAt(f, m) && turns[m - 1].collected))
  }

  lemma RestStops(f: Feed, g: Feed, turns: seq<Turn>, m: nat)
    requires 0 < m && StopsAfter(f, turns, m) && !(OccursAt(f, 1) && turns[0].collected)
    requires g.pattern == f.pattern && g.fed == f.fed + [f.rx[0]] && g.rx == f.rx[1..]
    ensures StopsAfter(g, turns[1..], m - 1)
  {
    OccursNext(f, g);
    hide OccursAt;
    PlainNext(f, g, turns, m);
    assert m > 1 ==> turns[1..][m - 2] == turns[m - 1];
  }

  /** A hold is released once no load runs: then the feed goes on through the queue, byte by byte, until it is empty, the turns
      are over or an occurrence starts a load. */
  lemma {:induction false} FeedsThrough(f: Feed, turns: seq<Turn>, m: nat)
    requires Ok(f) && f.open && !f.flashing && StopsAfter(f, turns, m)
    ensures FedTo(f, FeedOn(f, turns), turns, m)
    decreases m
  {
    assert Fits(f);
    hide Ok, Occurs, Fits, OccursAt, FedTo;
    if m == 0 {
      NothingToFeed(f, turns);
    } else {
      FirstTurn(f, turns);
      var g := TurnOf(f, turns[0]).1;
      hide TurnOf, FeedOn;
      if g.flashing {
        assert m == 1;
        StopsFeeding(g, turns[1..]);
      } else {
        RestStops(f, g, turns, m);
        hide StopsAfter, Plain;
        FeedsThrough(g, turns[1..], m - 1);
        FedOn(f, g, FeedOn(g, turns[1..]), turns, m);
      }
    }
  }

  lemma NothingToFeed(f: Feed, turns: seq<Turn>)
    requires Fits(f) && f.open && !f.flashing && (f.rx == [] || turns == [])
    ensures FedTo(f, FeedOn(f, turns), turns, 0)
  {
  }

  /** So once a load is over the next service feeds what was held back behind it. */
  lemma GoesOnAfterTheLoad(f: Feed, turns: seq<Turn>, m: nat)
    requires Ok(f) && f.open && StopsAfter(f, turns, m)
    ensures FedTo(f, Step(Step(f, LoadEnds), Feeds(turns)), turns, m)
  {
    var g := f.(flashing := false);
    assert Ok(g) && forall i :: 0 <= i <= |f.rx| ==> (OccursAt(g, i) <==> OccursAt(f, i));
    hide Ok, OccursAt, FeedOn;
    FeedsThrough(g, turns, m);
  }

  class GdbServer {
    const pattern: seq<int> := FlashDone()
    var open: bool
    var rx: seq<int>
    var done: nat
    var held: bool
    var ended: bool
    var flashing: bool
    ghost var own: bool
    ghost var taken: seq<int>
    ghost var fed: seq<int>
    ghost var starts: nat

    ghost function View(): Feed
      reads this
    {
      Feed(open, rx, done, held, ended, flashing, own, taken, fed, starts, pattern)
    }

    ghost predicate Valid()
      reads this
    {
      Ok(View())
    }

    constructor ()
      ensures Valid() && View() == Start()
    {
      open, rx, done, held, ended, flashing := false, [], 0, false, false, false;
      own, taken, fed, starts := false, [], [], 0;
      new;
      ClosedOk(Start());
    }

    method Disconnect()
      requires Valid()
      modifies this
      ensures Valid() && View() == Step(old(View()), Close)
    {
      StepKeeps(View(), Close);
      open, rx, done, held, ended := false, [], 0, false, false;
      own, taken, fed, starts := false, [], [], 0;
    }

    /** From the client: what fits is taken, and without a session all of it is, to no effect. */
    method Push(data: seq<int>) returns (n: nat)
      requires Valid()
      modifies this
      ensures Valid() && View() == Step(old(View()), Event.Push(data)) && n <= |data|
      ensures old(open) ==> taken == old(taken) + data[..n] && (n < |data| ==> |rx| == RX)
    {
      StepKeeps(View(), Event.Push(data));
      if !open {
        return |data|;
      }
      n := 0;
      ghost var rx0 := rx;
      while n < |data| && |rx| < RX
        invariant n <= |data| && |rx| <= RX && rx == rx0 + data[..n]
        modifies this`rx
      {
        rx := rx + [data[n]];
        assert data[..n + 1] == data[..n] + [data[n]];
        n := n + 1;
      }
      taken := taken + data[..n];
    }

    /** One byte to the protocol, the session ending with it or not. */
    method FeedByte(t: Turn)
      requires Valid() && open && rx != [] && !held
      modifies this
      ensures View() == FedOne(old(View()), t)
    {
      assert done < LENGTH && IsPattern(pattern);
      hide Ok, Matched, FlashDone, Longest, Count;
      var b := rx[0];
      fed := fed + [b];
      open, ended := !t.ends, ended || t.ends;
      rx := if t.ends then [] else rx[1..];
      Match(b, t.collected);
    }

    /** The byte counted; behind a whole match the load starts and the rest is held. */
    method Match(b: int, collected: bool)
      requires done < LENGTH && IsPattern(pattern)
      modifies this`done, this`held, this`starts, this`flashing, this`own
      ensures var n := Matched(pattern, old(done), b);
              if n < LENGTH then
                done == n && held == old(held) && starts == old(starts) && flashing == old(flashing) && own == old(own)
              else
                done == 0 && held && starts == old(starts) + 1 && flashing == (collected && !old(flashing)) && own
    {
      done := if b == pattern[done] then done + 1 else if b == DOLLAR then 1 else 0;
      if done == LENGTH {
        done, held := 0, true;
        starts, flashing, own := starts + 1, collected && !flashing, true;
      }
    }

    method Serve(turns: seq<Turn>)
      requires Valid()
      modifies this
      ensures Valid() && View() == Step(old(View()), Feeds(turns))
    {
      var i := 0;
      hide FedOne, Longest, Count, FlashDone;
      while i < |turns|
        invariant 0 <= i <= |turns| && Valid()
        invariant FeedOn(View(), turns[i..]) == FeedOn(old(View()), turns)
      {
        TurnKeeps(View(), turns[i]);
        assert turns[i..][0] == turns[i] && turns[i..][1..] == turns[i + 1..];
        if held {
          if flashing {
            return;
          }
          held := false;
        }
        if turns[i].out != 0 || !open || rx == [] {
          return;
        }
        FeedByte(turns[i]);
        i := i + 1;
      }
    }
  }
}
