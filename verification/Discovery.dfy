/** The reply budgets of the UDP discovery responder: one global token
    bucket, one bucket per source in a 16-slot table, ticks that wrap at
    32 bits. The machine works on wrapped ticks; the theorems speak of
    true time. */
module Discovery {
  import opened CTypes

  const TICKS_PER_SEC: int := 50
  const SRC_SLOTS: int := 16
  const SRC_BURST: int := 4
  const SRC_RATE: int := 1
  const GLOBAL_BURST: int := 24
  const GLOBAL_RATE: int := 8
  const SCALE: int := 1000

  // ---- the machine's state and one step of it ----

  datatype Bucket = Bucket(tokens: int32, lastTick: uint32)

  /** A slot whose ip is 0 is free. */
  datatype Slot = Slot(ip: uint32, lastSeen: uint32, bucket: Bucket)

  datatype Table = Table(slots: seq<Slot>, global: Bucket) {
    ghost predicate Valid() {
      && |slots| == SRC_SLOTS
      && Funded(global, GLOBAL_BURST)
      && forall i :: 0 <= i < |slots| ==> Funded(slots[i].bucket, SRC_BURST)
    }
  }

  predicate Funded(b: Bucket, burst: int) {
    0 <= b.tokens <= burst * SCALE
  }

  function Full(burst: int, now: uint32): Bucket
    requires 0 < burst < 100
  {
    Bucket(burst * SCALE, now)
  }

  /** Exact refill: 20 scaled tokens per tick and unit of rate. */
  function Refill(b: Bucket, now: uint32, rate: int, burst: int): (r: Bucket)
    requires 0 < burst < 100 && 0 < rate < 100 && Funded(b, burst)
    ensures Funded(r, burst) && r.lastTick == now
  {
    Bucket(Min(burst * SCALE, b.tokens + 20 * rate * Sub32(now, b.lastTick)), now)
  }

  predicate Spendable(b: Bucket) {
    b.tokens >= SCALE
  }

  function Spend(b: Bucket): Bucket
    requires Spendable(b)
  {
    b.(tokens := b.tokens - SCALE)
  }

  predicate Matches(s: Slot, ip: uint32) {
    s.ip != 0 && s.ip == ip
  }

  predicate Known(slots: seq<Slot>, ip: uint32) {
    exists i :: 0 <= i < |slots| && Matches(slots[i], ip)
  }

  function Age(s: Slot, now: uint32): uint32 {
    Sub32(now, s.lastSeen)
  }

  /** The slot a probe uses: the source's own slot, else the first free
      one, else the first of those whose wrapped age is largest. */
  ghost predicate IsSlotFor(slots: seq<Slot>, ip: uint32, now: uint32, k: nat) {
    && k < |slots|
    && if Known(slots, ip) then
         Matches(slots[k], ip) && forall i :: 0 <= i < k ==> !Matches(slots[i], ip)
       else if exists i :: 0 <= i < |slots| && slots[i].ip == 0 then
         slots[k].ip == 0 && forall i :: 0 <= i < k ==> slots[i].ip != 0
       else
         && (forall i :: 0 <= i < |slots| ==> Age(slots[i], now) <= Age(slots[k], now))
         && (forall i :: 0 <= i < k ==> Age(slots[i], now) < Age(slots[k], now))
  }

  ghost function SlotFor(slots: seq<Slot>, ip: uint32, now: uint32): (k: nat)
    requires |slots| > 0
    ensures IsSlotFor(slots, ip, now, k)
  {
    SlotForExists(slots, ip, now);
    var k: nat :| IsSlotFor(slots, ip, now, k);
    k
  }

  lemma SlotForExists(slots: seq<Slot>, ip: uint32, now: uint32)
    requires |slots| > 0
    ensures exists k: nat :: IsSlotFor(slots, ip, now, k)
  {
    if i :| 0 <= i < |slots| && Matches(slots[i], ip) {
      var k := FirstMatch(slots, ip, i);
      assert IsSlotFor(slots, ip, now, k);
    } else if i :| 0 <= i < |slots| && slots[i].ip == 0 {
      var k := FirstFree(slots, i);
      assert IsSlotFor(slots, ip, now, k);
    } else {
      var k := FirstOldest(slots, now, |slots|);
      assert IsSlotFor(slots, ip, now, k);
    }
  }

  lemma FirstMatch(slots: seq<Slot>, ip: uint32, i: nat) returns (k: nat)
    requires i < |slots| && Matches(slots[i], ip)
    ensures k < |slots| && Matches(slots[k], ip) && forall j :: 0 <= j < k ==> !Matches(slots[j], ip)
  {
    if j: nat :| j < i && Matches(slots[j], ip) { k := FirstMatch(slots, ip, j); } else { k := i; }
  }

  lemma FirstFree(slots: seq<Slot>, i: nat) returns (k: nat)
    requires i < |slots| && slots[i].ip == 0
    ensures k < |slots| && slots[k].ip == 0 && forall j :: 0 <= j < k ==> slots[j].ip != 0
  {
    if j: nat :| j < i && slots[j].ip == 0 { k := FirstFree(slots, j); } else { k := i; }
  }

  lemma FirstOldest(slots: seq<Slot>, now: uint32, n: nat) returns (k: nat)
    requires 0 < n <= |slots|
    ensures k < n
    ensures forall i :: 0 <= i < n ==> Age(slots[i], now) <= Age(slots[k], now)
    ensures forall i :: 0 <= i < k ==> Age(slots[i], now) < Age(slots[k], now)
  {
    if n == 1 {
      k := 0;
    } else {
      k := FirstOldest(slots, now, n - 1);
      if Age(slots[n-1], now) > Age(slots[k], now) { k := n - 1; }
    }
  }

  /** The slot a probe uses, as it stands before the budgets are consulted. */
  ghost function Touched(slots: seq<Slot>, ip: uint32, now: uint32): Slot
    requires |slots| > 0
  {
    if Known(slots, ip) then slots[SlotFor(slots, ip, now)].(lastSeen := now)
    else Slot(ip, now, Full(SRC_BURST, now))
  }

  /** One probe: the verdict, and the table after it. */
  ghost function Answer(st: Table, ip: uint32, now: uint32): (r: (Table, bool))
    requires st.Valid()
    ensures r.0.Valid()
  {
    var k := SlotFor(st.slots, ip, now);
    var s := Touched(st.slots, ip, now);
    var own := Refill(s.bucket, now, SRC_RATE, SRC_BURST);
    var all := Refill(st.global, now, GLOBAL_RATE, GLOBAL_BURST);
    if Spendable(own) && Spendable(all) then
      (Table(st.slots[k := s.(bucket := Spend(own))], Spend(all)), true)
    else
      (Table(st.slots[k := s.(bucket := own)], all), false)
  }

  // ---- the imperative limiter ----

  class RateLimiter {
    const slots: array<Slot>
    var global: Bucket

    ghost predicate Valid()
      reads this, slots
    {
      slots.Length == SRC_SLOTS && View().Valid()
    }

    ghost function View(): Table
      reads this, slots
    {
      Table(slots[..], global)
    }

    constructor (now: uint32)
      ensures Valid() && fresh(slots)
      ensures View() == InitialTable(now)
    {
      slots := new Slot[SRC_SLOTS](_ => Slot(0, 0, Bucket(0, 0)));
      global := Full(GLOBAL_BURST, now);
      new;
      assert slots[..] == InitialTable(now).slots;
    }

    /** Finds or makes the slot of a source; returns its index. */
    method SourceSlot(ip: uint32, now: uint32) returns (k: nat)
      requires Valid()
      modifies slots
      ensures Valid() && k == SlotFor(old(slots[..]), ip, now)
      ensures slots[..] == old(slots[..])[k := Touched(old(slots[..]), ip, now)]
    {
      ghost var before := slots[..];
      var free := -1;
      var oldest := 0;
      var i := 0;
      while i < SRC_SLOTS
        invariant 0 <= i <= SRC_SLOTS && -1 <= free < i && 0 <= oldest < SRC_SLOTS && oldest <= i
        invariant forall j :: 0 <= j < i ==> !Matches(slots[j], ip)
        invariant free == -1 ==> forall j :: 0 <= j < i ==> slots[j].ip != 0
        invariant free >= 0 ==> slots[free].ip == 0 && forall j :: 0 <= j < free ==> slots[j].ip != 0
        invariant forall j :: 0 <= j < i ==> Age(slots[j], now) <= Age(slots[oldest], now)
        invariant forall j :: 0 <= j < oldest ==> Age(slots[j], now) < Age(slots[oldest], now)
      {
        var s := slots[i];
        if s.ip != 0 && s.ip == ip {
          assert Matches(before[i], ip) && IsSlotFor(before, ip, now, i);
          SlotIsUnique(before, ip, now, i);
          slots[i] := s.(lastSeen := now);
          return i;
        }
        if s.ip == 0 && free == -1 { free := i; }
        if Sub32(now, s.lastSeen) > Sub32(now, slots[oldest].lastSeen) { oldest := i; }
        i := i + 1;
      }
      k := if free >= 0 then free else oldest;
      assert IsSlotFor(before, ip, now, k);
      SlotIsUnique(before, ip, now, k);
      slots[k] := Slot(ip, now, Full(SRC_BURST, now));
    }

    /** Whether to answer a probe; both budgets are spent, or neither. */
    method Allow(ip: uint32, now: uint32) returns (ok: bool)
      requires Valid()
      modifies this, slots
      ensures Valid() && (View(), ok) == Answer(old(View()), ip, now)
    {
      var k := SourceSlot(ip, now);
      var own := RefillInPlace(slots[k].bucket, now, SRC_RATE, SRC_BURST);
      slots[k] := slots[k].(bucket := own);
      global := RefillInPlace(global, now, GLOBAL_RATE, GLOBAL_BURST);
      ghost var s := Touched(old(slots[..]), ip, now);
      assert slots[..] == old(slots[..])[k := s.(bucket := own)];
      if slots[k].bucket.tokens < SCALE || global.tokens < SCALE {
        return false;
      }
      slots[k] := slots[k].(bucket := Spend(slots[k].bucket));
      global := Spend(global);
      assert slots[..] == old(slots[..])[k := s.(bucket := Spend(own))];
      return true;
    }
  }

  lemma GainIsExact(elapsed: uint32, rate: int)
    requires 0 < rate < 100
    ensures 0 <= elapsed * rate * SCALE < 0x8000_0000 * 0x8_0000
    ensures elapsed * rate * SCALE / TICKS_PER_SEC == 20 * rate * elapsed
    ensures 0 <= 20 * rate * elapsed < 0x8000_0000 * 0x8_0000
  {
    assert elapsed * rate <= 0x1_0000_0000 * 99;
    assert elapsed * rate * SCALE == TICKS_PER_SEC * (20 * rate * elapsed);
  }

  /** The refill in the machine's own 64-bit arithmetic: nothing overflows
      and the division loses nothing. */
  method RefillInPlace(b: Bucket, now: uint32, rate: int, burst: int) returns (r: Bucket)
    requires 0 < burst < 100 && 0 < rate < 100 && Funded(b, burst)
    ensures r == Refill(b, now, rate, burst)
  {
    var elapsed: uint32 := Sub32(now, b.lastTick);
    if elapsed == 0 { return b; }
    GainIsExact(elapsed, rate);
    var gained: int64 := elapsed * rate * SCALE;
    var tok: int64 := b.tokens + gained / TICKS_PER_SEC;
    var cap: int64 := burst * SCALE;
    r := Bucket(if tok > cap then cap else tok, now);
  }

  lemma SlotIsUnique(slots: seq<Slot>, ip: uint32, now: uint32, k: nat)
    requires IsSlotFor(slots, ip, now, k)
    ensures k == SlotFor(slots, ip, now)
  {
  }

  function InitialTable(now: uint32): Table {
    Table(seq(SRC_SLOTS, _ => Slot(0, 0, Bucket(0, 0))), Full(GLOBAL_BURST, now))
  }

  // ---- what a budget means: windows of true time ----

  /** One probe's true time and verdict. */
  datatype Event = Event(t: nat, ok: bool)
  type History = seq<Event>

  ghost predicate Ordered(h: History) {
    forall i, j :: 0 <= i <= j < |h| ==> h[i].t <= h[j].t
  }

  function Cost(e: Event): int {
    if e.ok then SCALE else 0
  }

  /** Scaled replies in the window h[i..j]. */
  function Spent(h: History, i: nat, j: nat): int
    requires i <= j <= |h|
    decreases j
  {
    if i == j then 0 else Spent(h, i, j - 1) + Cost(h[j-1])
  }

  /** What the window h[i..j] leaves unspent of its burst and refill. */
  function Slack(h: History, i: nat, j: nat, burst: int, rate: int): int
    requires i < j <= |h|
  {
    burst * SCALE + 20 * rate * (h[j-1].t - h[i].t) - Spent(h, i, j)
  }

  /** No window ending with the last event is overspent. */
  ghost predicate EndsWithin(h: History, burst: int, rate: int) {
    forall i :: 0 <= i < |h| ==> Slack(h, i, |h|, burst, rate) >= 0
  }

  /** No window at all is overspent. */
  ghost predicate Within(h: History, burst: int, rate: int) {
    forall i, j :: 0 <= i < j <= |h| ==> Slack(h, i, j, burst, rate) >= 0
  }

  /** An ideal bucket's level after a history, and just before a verdict. */
  function Level(h: History, burst: int, rate: int): int
    requires h != []
    decreases |h|, 0
  {
    var n := |h| - 1;
    Available(h[..n], h[n].t, burst, rate) - Cost(h[n])
  }

  function Available(h: History, t: nat, burst: int, rate: int): int
    decreases |h|, 1
  {
    if h == [] then burst * SCALE
    else Min(burst * SCALE, Level(h, burst, rate) + 20 * rate * (t - h[|h|-1].t))
  }

  lemma SpentOfPrefix(h: History, e: Event, i: nat, j: nat)
    requires i <= j <= |h|
    ensures Spent(h + [e], i, j) == Spent(h, i, j)
    decreases j
  {
  }

  /** How one more event changes the slack of an older window. */
  lemma SlackStep(g: History, e: Event, i: nat, burst: int, rate: int)
    requires i < |g|
    ensures Slack(g + [e], i, |g| + 1, burst, rate)
         == Slack(g, i, |g|, burst, rate) + 20 * rate * (e.t - g[|g|-1].t) - Cost(e)
  {
    SpentOfPrefix(g, e, i, |g|);
    DistributeTime(rate, e.t, g[|g|-1].t, g[i].t);
  }

  lemma SlackOfLast(g: History, e: Event, burst: int, rate: int)
    ensures Slack(g + [e], |g|, |g| + 1, burst, rate) == burst * SCALE - Cost(e)
  {
    var h := g + [e];
    assert Spent(h, |g|, |g| + 1) == Spent(h, |g|, |g|) + Cost(e);
    assert 20 * rate * (e.t - h[|g|].t) == 0;
  }

  lemma LevelStep(g: History, e: Event, burst: int, rate: int)
    ensures Level(g + [e], burst, rate) == Available(g, e.t, burst, rate) - Cost(e)
  {
  }

  lemma {:induction false} LevelAtMostSlack(h: History, i: nat, burst: int, rate: int)
    requires i < |h|
    ensures Level(h, burst, rate) <= Slack(h, i, |h|, burst, rate)
  {
    var n := |h| - 1;
    var g, e := h[..n], h[n];
    assert h == g + [e];
    LevelStep(g, e, burst, rate);
    if i == n {
      SlackOfLast(g, e, burst, rate);
    } else {
      LevelAtMostSlack(g, i, burst, rate);
      SlackStep(g, e, i, burst, rate);
    }
  }

  lemma {:induction false} TightestWindow(h: History, burst: int, rate: int) returns (i: nat)
    requires h != []
    ensures i < |h| && Level(h, burst, rate) == Slack(h, i, |h|, burst, rate)
  {
    var n := |h| - 1;
    var g, e := h[..n], h[n];
    assert h == g + [e];
    LevelStep(g, e, burst, rate);
    SlackOfLast(g, e, burst, rate);
    i := n;
    if n > 0 && Available(g, e.t, burst, rate) < burst * SCALE {
      i := TightestWindow(g, burst, rate);
      SlackStep(g, e, i, burst, rate);
    }
  }

  /** The level of an ideal bucket is the least slack over all windows that
      end with the last event. */
  lemma LevelIsLeastSlack(h: History, burst: int, rate: int)
    requires h != []
    ensures forall i :: 0 <= i < |h| ==> Level(h, burst, rate) <= Slack(h, i, |h|, burst, rate)
    ensures exists i :: 0 <= i < |h| && Level(h, burst, rate) == Slack(h, i, |h|, burst, rate)
  {
    forall i | 0 <= i < |h| ensures Level(h, burst, rate) <= Slack(h, i, |h|, burst, rate) {
      LevelAtMostSlack(h, i, burst, rate);
    }
    var i := TightestWindow(h, burst, rate);
  }

  lemma DistributeTime(rate: int, c: int, b: int, a: int)
    ensures 20 * rate * (c - a) == 20 * rate * (c - b) + 20 * rate * (b - a)
  {
  }

  /** An ideal bucket grants exactly when answering keeps every window that
      ends now within its bound. */
  lemma GrantsExactlyWithinBound(h: History, t: nat, burst: int, rate: int)
    ensures Available(h, t, burst, rate) >= SCALE <==> EndsWithin(h + [Event(t, true)], burst, rate)
  {
    LevelStep(h, Event(t, true), burst, rate);
    LevelIsLeastSlack(h + [Event(t, true)], burst, rate);
  }

  /** How many probes from the i-th on were answered. */
  function Answered(h: History, i: nat): nat
    requires i <= |h|
    decreases |h|
  {
    if i == |h| then 0
    else Answered(h[..|h|-1], i) + if h[|h|-1].ok then 1 else 0
  }

  /** One more answer at t leaves every window that ends with it within 24
      answers and 8 a second of 50 ticks. */
  ghost predicate GlobalAffords(h: History, t: nat) {
    forall i :: 0 <= i < |h| ==> 1000 * (1 + Answered(h, i)) <= 24000 + 160 * (t - h[i].t)
  }

  /** The same for one source: 4 answers and one a second. */
  ghost predicate SourceAffords(h: History, t: nat) {
    forall i :: 0 <= i < |h| ==> 1000 * (1 + Answered(h, i)) <= 4000 + 20 * (t - h[i].t)
  }

  lemma {:induction false} SpentIsAnswered(h: History, i: nat)
    requires i <= |h|
    ensures Spent(h, i, |h|) == 1000 * Answered(h, i)
    decreases |h|
  {
    if i < |h| {
      var g, e := h[..|h|-1], h[|h|-1];
      SpentIsAnswered(g, i);
      assert h == g + [e];
      SpentOfPrefix(g, e, i, |g|);
    }
  }

  lemma SlackInNumbers(h: History, t: nat, i: nat, burst: int, rate: int)
    requires i < |h|
    ensures Slack(h + [Event(t, true)], i, |h| + 1, burst, rate)
         == 1000 * burst + 20 * rate * (t - h[i].t) - 1000 * (1 + Answered(h, i))
  {
    SlackStep(h, Event(t, true), i, burst, rate);
    SpentIsAnswered(h, i);
    DistributeTime(rate, t, h[|h|-1].t, h[i].t);
  }

  lemma GlobalAffordsIff(h: History, t: nat)
    ensures GlobalAffords(h, t) <==> EndsWithin(h + [Event(t, true)], GLOBAL_BURST, GLOBAL_RATE)
  {
    SlackOfLast(h, Event(t, true), GLOBAL_BURST, GLOBAL_RATE);
    forall i | 0 <= i < |h|
      ensures Slack(h + [Event(t, true)], i, |h| + 1, GLOBAL_BURST, GLOBAL_RATE)
           == 24000 + 160 * (t - h[i].t) - 1000 * (1 + Answered(h, i))
    {
      SlackInNumbers(h, t, i, GLOBAL_BURST, GLOBAL_RATE);
    }
  }

  lemma SourceAffordsIff(h: History, t: nat)
    ensures SourceAffords(h, t) <==> EndsWithin(h + [Event(t, true)], SRC_BURST, SRC_RATE)
  {
    SlackOfLast(h, Event(t, true), SRC_BURST, SRC_RATE);
    forall i | 0 <= i < |h|
      ensures Slack(h + [Event(t, true)], i, |h| + 1, SRC_BURST, SRC_RATE)
           == 4000 + 20 * (t - h[i].t) - 1000 * (1 + Answered(h, i))
    {
      SlackInNumbers(h, t, i, SRC_BURST, SRC_RATE);
    }
  }

  lemma WithinExtends(h: History, e: Event, burst: int, rate: int)
    requires Within(h, burst, rate) && EndsWithin(h + [e], burst, rate)
    ensures Within(h + [e], burst, rate)
  {
    var g := h + [e];
    forall i, j | 0 <= i < j <= |g| ensures Slack(g, i, j, burst, rate) >= 0 {
      if j <= |h| { SpentOfPrefix(h, e, i, j); assert Slack(h, i, j, burst, rate) >= 0; }
    }
  }

  // ---- a bucket and the history it has seen ----

  /** The wrapped bucket never holds more than the ideal one, so no window
      of its history is overspent. */
  ghost predicate Backs(b: Bucket, h: History, burst: int, rate: int) {
    && h != [] && Ordered(h) && Within(h, burst, rate)
    && Funded(b, burst)
    && b.lastTick == Tick(h[|h|-1].t)
    && b.tokens <= Level(h, burst, rate)
  }

  ghost predicate NotBefore(h: History, t: nat) {
    h != [] ==> h[|h|-1].t <= t
  }

  /** Less than one wrap of the tick counter since the last event. */
  ghost predicate Recent(h: History, t: nat) {
    h != [] ==> t - h[|h|-1].t < TWO_32
  }

  /** Refilling keeps a bucket below the ideal one, whatever the gap; with a
      gap under 2^32 ticks an exact bucket stays exact. */
  lemma RefillTracks(b: Bucket, h: History, t: nat, burst: int, rate: int)
    requires 0 < burst < 100 && 0 < rate < 100
    requires Backs(b, h, burst, rate) && NotBefore(h, t)
    ensures Refill(b, Tick(t), rate, burst).tokens <= Available(h, t, burst, rate)
    ensures Recent(h, t) && b.tokens == Level(h, burst, rate)
            ==> Refill(b, Tick(t), rate, burst).tokens == Available(h, t, burst, rate)
  {
    var last := h[|h|-1].t;
    ElapsedIsTrueElapsedModulo(last, t);
    var e := Sub32(Tick(t), Tick(last));
    assert 20 * rate * e <= 20 * rate * (t - last);
  }

  /** A verdict recorded against a refilled bucket. */
  lemma RecordKeepsBacking(r: Bucket, h: History, e: Event, burst: int, rate: int)
    requires 0 < burst < 100 && 0 < rate < 100
    requires Ordered(h) && NotBefore(h, e.t) && Within(h, burst, rate)
    requires Funded(r, burst) && r.lastTick == Tick(e.t) && r.tokens <= Available(h, e.t, burst, rate)
    requires e.ok ==> Spendable(r)
    ensures Backs(if e.ok then Spend(r) else r, h + [e], burst, rate)
    ensures Level(h + [e], burst, rate) == Available(h, e.t, burst, rate) - Cost(e)
  {
    LevelStep(h, e, burst, rate);
    LevelIsLeastSlack(h + [e], burst, rate);
    WithinExtends(h, e, burst, rate);
  }

  // ---- runs: the machine together with what it has seen ----

  datatype Probe = Probe(ip: uint32, t: nat)

  /** The table, the history of all verdicts, and per slot the history of
      its source since the slot was made. */
  datatype Traced = Traced(table: Table, log: History, own: seq<History>)

  ghost predicate Chronological(ps: seq<Probe>) {
    forall i, j :: 0 <= i <= j < |ps| ==> ps[i].t <= ps[j].t
  }

  ghost function SlotOf(x: Traced, p: Probe): (k: nat)
    requires x.table.Valid()
    ensures k < SRC_SLOTS
  {
    SlotFor(x.table.slots, p.ip, Tick(p.t))
  }

  /** The history a probe's source has accumulated in its current slot. */
  ghost function OwnHistory(x: Traced, p: Probe): History
    requires x.table.Valid() && |x.own| == SRC_SLOTS
  {
    if Known(x.table.slots, p.ip) then x.own[SlotOf(x, p)] else []
  }

  ghost function Verdict(x: Traced, p: Probe): bool
    requires x.table.Valid()
  {
    Answer(x.table, p.ip, Tick(p.t)).1
  }

  ghost function Next(x: Traced, p: Probe): (y: Traced)
    requires x.table.Valid() && |x.own| == SRC_SLOTS
    ensures y.table.Valid() && |y.own| == SRC_SLOTS
  {
    var e := Event(p.t, Verdict(x, p));
    Traced(Answer(x.table, p.ip, Tick(p.t)).0, x.log + [e],
           x.own[SlotOf(x, p) := OwnHistory(x, p) + [e]])
  }

  ghost function Start(t0: nat): (x: Traced)
    ensures x.table.Valid() && |x.own| == SRC_SLOTS
  {
    Traced(InitialTable(Tick(t0)), [], seq(SRC_SLOTS, _ => []))
  }

  ghost function Run(t0: nat, ps: seq<Probe>): (x: Traced)
    ensures x.table.Valid() && |x.own| == SRC_SLOTS
    decreases |ps|
  {
    if ps == [] then Start(t0) else Next(Run(t0, ps[..|ps|-1]), ps[|ps|-1])
  }

  /** Holds of every reachable state, however long the gaps. */
  ghost predicate Sound(x: Traced, now: nat) {
    && x.table.Valid() && |x.own| == SRC_SLOTS
    && NotBefore(x.log, now)
    && (x.log != [] ==> Backs(x.table.global, x.log, GLOBAL_BURST, GLOBAL_RATE))
    && (forall s :: 0 <= s < SRC_SLOTS && x.table.slots[s].ip != 0 ==> SoundSlot(x, s, now))
    && OneSlotPerSource(x.table.slots)
  }

  ghost predicate SoundSlot(x: Traced, s: nat, now: nat)
    requires s < |x.own| && s < |x.table.slots|
  {
    var slot := x.table.slots[s];
    Backs(slot.bucket, x.own[s], SRC_BURST, SRC_RATE)
    && NotBefore(x.own[s], now) && slot.lastSeen == slot.bucket.lastTick
  }

  ghost predicate OneSlotPerSource(slots: seq<Slot>) {
    forall i, j :: 0 <= i < j < |slots| && slots[i].ip != 0 ==> slots[i].ip != slots[j].ip
  }

  /** Every bucket is at its ideal level. */
  ghost predicate Exact(x: Traced)
    requires x.table.Valid() && |x.own| == SRC_SLOTS
  {
    && (if x.log == [] then x.table.global.tokens == GLOBAL_BURST * SCALE
        else x.table.global.tokens == Level(x.log, GLOBAL_BURST, GLOBAL_RATE))
    && forall s :: 0 <= s < SRC_SLOTS && x.table.slots[s].ip != 0 ==>
         x.own[s] != [] && x.table.slots[s].bucket.tokens == Level(x.own[s], SRC_BURST, SRC_RATE)
  }

  /** Neither the daemon nor this probe's source has been idle for a whole
      wrap of the tick counter. */
  ghost predicate Timely(x: Traced, p: Probe)
    requires x.table.Valid() && |x.own| == SRC_SLOTS
  {
    Recent(x.log, p.t) && Recent(OwnHistory(x, p), p.t)
  }

  lemma RefilledGlobal(x: Traced, p: Probe)
    requires Sound(x, p.t)
    ensures Ordered(x.log) && Within(x.log, GLOBAL_BURST, GLOBAL_RATE)
    ensures var r := Refill(x.table.global, Tick(p.t), GLOBAL_RATE, GLOBAL_BURST);
            && r.tokens <= Available(x.log, p.t, GLOBAL_BURST, GLOBAL_RATE)
            && (Exact(x) && Recent(x.log, p.t) ==>
                  r.tokens == Available(x.log, p.t, GLOBAL_BURST, GLOBAL_RATE))
  {
    if x.log != [] { RefillTracks(x.table.global, x.log, p.t, GLOBAL_BURST, GLOBAL_RATE); }
  }

  lemma RefilledOwn(x: Traced, p: Probe)
    requires Sound(x, p.t)
    ensures var h := OwnHistory(x, p);
            Ordered(h) && NotBefore(h, p.t) && Within(h, SRC_BURST, SRC_RATE)
    ensures var s := Touched(x.table.slots, p.ip, Tick(p.t));
            Funded(s.bucket, SRC_BURST)
    ensures var s := Touched(x.table.slots, p.ip, Tick(p.t));
            var r := Refill(s.bucket, Tick(p.t), SRC_RATE, SRC_BURST);
            && r.tokens <= Available(OwnHistory(x, p), p.t, SRC_BURST, SRC_RATE)
            && (Exact(x) && Recent(OwnHistory(x, p), p.t) ==>
                  r.tokens == Available(OwnHistory(x, p), p.t, SRC_BURST, SRC_RATE))
  {
    var k := SlotOf(x, p);
    if Known(x.table.slots, p.ip) {
      assert Matches(x.table.slots[k], p.ip) && SoundSlot(x, k, p.t);
      RefillTracks(x.table.slots[k].bucket, x.own[k], p.t, SRC_BURST, SRC_RATE);
    }
  }

  /** What a probe changes: its own slot and the global bucket. */
  lemma NextChanges(x: Traced, p: Probe)
    requires x.table.Valid() && |x.own| == SRC_SLOTS
    ensures var k := SlotOf(x, p);
            var y := Next(x, p);
            var e := Event(p.t, Verdict(x, p));
            var s := Touched(x.table.slots, p.ip, Tick(p.t));
            var own := Refill(s.bucket, Tick(p.t), SRC_RATE, SRC_BURST);
            var all := Refill(x.table.global, Tick(p.t), GLOBAL_RATE, GLOBAL_BURST);
            && (e.ok <==> Spendable(own) && Spendable(all))
            && y.log == x.log + [e]
            && y.own == x.own[k := OwnHistory(x, p) + [e]]
            && y.table.global == (if e.ok then Spend(all) else all)
            && y.table.slots == x.table.slots[k :=
                 Slot(p.ip, Tick(p.t), if e.ok then Spend(own) else own)]
  {
  }

  lemma StepKeepsGlobal(x: Traced, p: Probe)
    requires Sound(x, p.t)
    ensures var y := Next(x, p);
            && Backs(y.table.global, y.log, GLOBAL_BURST, GLOBAL_RATE)
            && (Exact(x) && Recent(x.log, p.t) ==>
                  y.table.global.tokens == Level(y.log, GLOBAL_BURST, GLOBAL_RATE))
  {
    NextChanges(x, p);
    RefilledGlobal(x, p);
    RecordKeepsBacking(Refill(x.table.global, Tick(p.t), GLOBAL_RATE, GLOBAL_BURST), x.log,
                       Event(p.t, Verdict(x, p)), GLOBAL_BURST, GLOBAL_RATE);
  }

  lemma StepKeepsOwn(x: Traced, p: Probe)
    requires Sound(x, p.t)
    ensures var k := SlotOf(x, p);
            var y := Next(x, p);
            && y.table.slots[k].ip == p.ip
            && y.own[k] == OwnHistory(x, p) + [Event(p.t, Verdict(x, p))]
            && SoundSlot(y, k, p.t)
            && (Exact(x) && Recent(OwnHistory(x, p), p.t) ==>
                  y.table.slots[k].bucket.tokens == Level(y.own[k], SRC_BURST, SRC_RATE))
  {
    var s := Touched(x.table.slots, p.ip, Tick(p.t));
    NextChanges(x, p);
    RefilledOwn(x, p);
    RecordKeepsBacking(Refill(s.bucket, Tick(p.t), SRC_RATE, SRC_BURST), OwnHistory(x, p),
                       Event(p.t, Verdict(x, p)), SRC_BURST, SRC_RATE);
  }

  /** One probe keeps every bucket at or below its ideal level. */
  lemma StepKeepsSound(x: Traced, p: Probe)
    requires Sound(x, p.t)
    ensures Sound(Next(x, p), p.t)
  {
    var y := Next(x, p);
    StepKeepsGlobal(x, p);
    StepKeepsOwn(x, p);
    NextChanges(x, p);
    forall i | 0 <= i < SRC_SLOTS && y.table.slots[i].ip != 0 ensures SoundSlot(y, i, p.t) {
      if i != SlotOf(x, p) { OtherSlotStays(x, p, i); }
    }
    StepKeepsOneSlot(x.table, p.ip, Tick(p.t));
  }

  lemma OtherSlotStays(x: Traced, p: Probe, i: nat)
    requires x.table.Valid() && |x.own| == SRC_SLOTS
    requires i < SRC_SLOTS && i != SlotOf(x, p)
    ensures Next(x, p).table.slots[i] == x.table.slots[i] && Next(x, p).own[i] == x.own[i]
  {
    NextChanges(x, p);
  }

  /** A timely one keeps every bucket at it. */
  lemma StepKeepsExact(x: Traced, p: Probe)
    requires Sound(x, p.t) && Exact(x) && Timely(x, p)
    ensures Exact(Next(x, p))
  {
    StepKeepsGlobal(x, p);
    StepKeepsOwn(x, p);
    NextChanges(x, p);
  }

  lemma StepKeepsOneSlot(st: Table, ip: uint32, now: uint32)
    requires st.Valid() && OneSlotPerSource(st.slots)
    ensures OneSlotPerSource(Answer(st, ip, now).0.slots)
  {
  }

  lemma SoundLater(x: Traced, a: nat, b: nat)
    requires Sound(x, a) && a <= b
    ensures Sound(x, b)
  {
  }

  /** Every run is sound; its log lists the probes' true times. */
  lemma {:induction false} RunIsSound(t0: nat, ps: seq<Probe>, now: nat)
    requires Chronological(ps) && (ps != [] ==> ps[|ps|-1].t <= now)
    ensures Sound(Run(t0, ps), now)
    ensures var log := Run(t0, ps).log;
            |log| == |ps| && forall i :: 0 <= i < |ps| ==> log[i].t == ps[i].t
    decreases |ps|
  {
    if ps != [] {
      var n := |ps| - 1;
      RunIsSound(t0, ps[..n], ps[n].t);
      StepKeepsSound(Run(t0, ps[..n]), ps[n]);
      SoundLater(Run(t0, ps), ps[n].t, now);
    }
  }

  /** Over every window of every run the daemon answers at most 24 probes
      plus 8 a second, whatever the sources claim to be, across wraps of the
      tick counter and gaps longer than a wrap. */
  lemma GlobalRateBound(t0: nat, ps: seq<Probe>, i: nat, j: nat)
    requires Chronological(ps) && i < j <= |ps|
    ensures |Run(t0, ps).log| == |ps|
    ensures Spent(Run(t0, ps).log, i, j) <= 24000 + 160 * (ps[j-1].t - ps[i].t)
  {
    RunIsSound(t0, ps, ps[|ps|-1].t);
    var log := Run(t0, ps).log;
    assert Slack(log, i, j, GLOBAL_BURST, GLOBAL_RATE) >= 0;
  }

  /** The verdicts given to one source from probe `from` on. */
  ghost function VerdictsFor(ps: seq<Probe>, log: History, ip: uint32, from: nat): History
    requires |ps| == |log|
    decreases |ps|
  {
    if |ps| <= from then []
    else
      var n := |ps| - 1;
      var rest := VerdictsFor(ps[..n], log[..n], ip, from);
      if ps[n].ip == ip then rest + [log[n]] else rest
  }

  /** Recording one more verdict extends the history of its source only. */
  lemma VerdictsForNext(ps: seq<Probe>, p: Probe, log: History, e: Event, ip: uint32, from: nat)
    requires |ps| == |log| && from <= |ps|
    ensures VerdictsFor(ps + [p], log + [e], ip, from)
         == VerdictsFor(ps, log, ip, from) + (if p.ip == ip then [e] else [])
  {
  }

  /** What a probe does to the history of any used slot. */
  lemma OwnHistoryNext(x: Traced, p: Probe, s: nat)
    requires Sound(x, p.t) && s < SRC_SLOTS && Next(x, p).table.slots[s].ip != 0
    ensures var y := Next(x, p);
            var e := Event(p.t, Verdict(x, p));
            if s == SlotOf(x, p) then
              y.table.slots[s].ip == p.ip && y.own[s] == OwnHistory(x, p) + [e]
            else
              y.table.slots[s].ip == x.table.slots[s].ip != p.ip && y.own[s] == x.own[s]
  {
  }

  ghost predicate IsHistorySince(ps: seq<Probe>, log: History, ip: uint32, h: History, from: nat) {
    from < |ps| == |log| && h == VerdictsFor(ps, log, ip, from)
  }

  /** Probe `from` made slot s for its source, which had none then, and the
      slot has been its source's since. */
  ghost predicate MadeAt(t0: nat, ps: seq<Probe>, s: nat, from: nat) {
    && from < |ps| && !Known(Run(t0, ps[..from]).table.slots, ps[from].ip)
    && SlotOf(Run(t0, ps[..from]), ps[from]) == s && KeptSince(t0, ps, s, from)
  }

  ghost predicate KeptSince(t0: nat, ps: seq<Probe>, s: nat, from: nat)
    decreases |ps|
  {
    && from < |ps| && SlotIs(t0, ps, s, ps[from].ip)
    && (from + 1 < |ps| ==> KeptSince(t0, ps[..|ps|-1], s, from))
  }

  ghost predicate SlotIs(t0: nat, ps: seq<Probe>, s: nat, ip: uint32) {
    s < SRC_SLOTS && Run(t0, ps).table.slots[s].ip == ip
  }

  lemma RunNext(t0: nat, ps: seq<Probe>, p: Probe)
    ensures Run(t0, ps + [p]) == Next(Run(t0, ps), p)
  {
    assert (ps + [p])[..|ps|] == ps;
  }

  lemma MadeAtStays(t0: nat, ps: seq<Probe>, p: Probe, s: nat, from: nat)
    requires MadeAt(t0, ps, s, from) && SlotIs(t0, ps + [p], s, ps[from].ip)
    ensures MadeAt(t0, ps + [p], s, from)
  {
    assert (ps + [p])[..from] == ps[..from] && (ps + [p])[..|ps|] == ps;
  }

  lemma MadeNow(t0: nat, ps: seq<Probe>, p: Probe, s: nat)
    requires !Known(Run(t0, ps).table.slots, p.ip) && SlotOf(Run(t0, ps), p) == s
    requires SlotIs(t0, ps + [p], s, p.ip)
    ensures MadeAt(t0, ps + [p], s, |ps|)
  {
    assert (ps + [p])[..|ps|] == ps;
  }

  /** The slot was made by a probe and holds its source's verdicts since. */
  ghost predicate HoldsSince(t0: nat, ps: seq<Probe>, s: nat, from: nat) {
    && s < SRC_SLOTS && MadeAt(t0, ps, s, from)
    && IsHistorySince(ps, Run(t0, ps).log, ps[from].ip, Run(t0, ps).own[s], from)
  }

  lemma SlotHistoryStays(t0: nat, ps: seq<Probe>, p: Probe, s: nat, from: nat)
    requires Sound(Run(t0, ps), p.t) && HoldsSince(t0, ps, s, from) && Next(Run(t0, ps), p).table.slots[s].ip != 0
    requires s != SlotOf(Run(t0, ps), p) || Known(Run(t0, ps).table.slots, p.ip)
    ensures HoldsSince(t0, ps + [p], s, from)
  {
    var x := Run(t0, ps);
    RunNext(t0, ps, p);
    assert KeptSince(t0, ps, s, from) && SlotIs(t0, ps, s, ps[from].ip);
    OwnHistoryNext(x, p, s);
    MadeAtStays(t0, ps, p, s, from);
    VerdictsForNext(ps, p, x.log, Event(p.t, Verdict(x, p)), ps[from].ip, from);
  }

  lemma SlotHistoryBegins(t0: nat, ps: seq<Probe>, p: Probe, s: nat)
    requires Sound(Run(t0, ps), p.t) && |Run(t0, ps).log| == |ps|
    requires s == SlotOf(Run(t0, ps), p) && !Known(Run(t0, ps).table.slots, p.ip)
    requires Next(Run(t0, ps), p).table.slots[s].ip != 0
    ensures HoldsSince(t0, ps + [p], s, |ps|)
  {
    var x := Run(t0, ps);
    RunNext(t0, ps, p);
    OwnHistoryNext(x, p, s);
    MadeNow(t0, ps, p, s);
    VerdictsForNext(ps, p, x.log, Event(p.t, Verdict(x, p)), p.ip, |ps|);
  }

  lemma LastProbe(t0: nat, ps: seq<Probe>, p: Probe)
    requires Chronological(ps + [p])
    ensures Chronological(ps) && Sound(Run(t0, ps), p.t) && |Run(t0, ps).log| == |ps|
    ensures Run(t0, ps + [p]) == Next(Run(t0, ps), p)
  {
    EarlierFirst(ps, p);
    RunIsSound(t0, ps, p.t);
    RunNext(t0, ps, p);
  }

  lemma SlotHistoryNext(t0: nat, ps: seq<Probe>, p: Probe, s: nat, earlier: nat) returns (from: nat)
    requires Chronological(ps + [p]) && s < SRC_SLOTS && Run(t0, ps + [p]).table.slots[s].ip != 0
    requires Run(t0, ps).table.slots[s].ip != 0 ==> HoldsSince(t0, ps, s, earlier)
    ensures HoldsSince(t0, ps + [p], s, from)
  {
    LastProbe(t0, ps, p);
    var x := Run(t0, ps);
    if s == SlotOf(x, p) && !Known(x.table.slots, p.ip) {
      SlotHistoryBegins(t0, ps, p, s);
      from := |ps|;
    } else {
      OwnHistoryNext(x, p, s);
      SlotHistoryStays(t0, ps, p, s, earlier);
      from := earlier;
    }
  }

  /** A used slot's history is what its source was told from the probe on
      that made the slot. */
  lemma {:induction false} SlotHistoryIsSourceHistory(t0: nat, ps: seq<Probe>, s: nat) returns (from: nat)
    requires Chronological(ps) && s < SRC_SLOTS && Run(t0, ps).table.slots[s].ip != 0
    ensures HoldsSince(t0, ps, s, from)
    decreases |ps|
  {
    var qs, p := ps[..|ps|-1], ps[|ps|-1];
    assert qs + [p] == ps;
    from := 0;
    if Run(t0, qs).table.slots[s].ip != 0 { from := SlotHistoryIsSourceHistory(t0, qs, s); }
    from := SlotHistoryNext(t0, qs, p, s, from);
  }

  /** A source that keeps its slot gets at most 4 answers plus one a second
      over every window of its stay. */
  lemma SourceRateBound(t0: nat, ps: seq<Probe>, s: nat, i: nat, j: nat)
    requires Chronological(ps) && s < SRC_SLOTS && Run(t0, ps).table.slots[s].ip != 0
    requires i < j <= |Run(t0, ps).own[s]|
    ensures var h := Run(t0, ps).own[s];
            Spent(h, i, j) <= 4000 + 20 * (h[j-1].t - h[i].t)
  {
    RunIsSound(t0, ps, if ps == [] then 0 else ps[|ps|-1].t);
    var x := Run(t0, ps);
    assert SoundSlot(x, s, if ps == [] then 0 else ps[|ps|-1].t);
    assert Slack(x.own[s], i, j, SRC_BURST, SRC_RATE) >= 0;
  }

  // ---- exactness ----

  /** Every probe of the run was timely. */
  ghost predicate AllTimely(t0: nat, ps: seq<Probe>)
    decreases |ps|
  {
    ps != [] ==> AllTimely(t0, ps[..|ps|-1]) && Timely(Run(t0, ps[..|ps|-1]), ps[|ps|-1])
  }

  lemma {:induction false} RunIsExact(t0: nat, ps: seq<Probe>)
    requires Chronological(ps) && AllTimely(t0, ps)
    ensures Exact(Run(t0, ps))
    decreases |ps|
  {
    if ps != [] {
      var n := |ps| - 1;
      RunIsExact(t0, ps[..n]);
      RunIsSound(t0, ps[..n], ps[n].t);
      StepKeepsExact(Run(t0, ps[..n]), ps[n]);
    }
  }

  /** The limiter refuses nothing it could afford: after any timely run, a
      timely probe is answered exactly when the answer keeps every window
      ending now within the global bound, and every window of that source's
      stay within the source bound. */
  lemma AnswersExactlyWhenAffordable(t0: nat, ps: seq<Probe>, p: Probe)
    requires Chronological(ps + [p]) && AllTimely(t0, ps) && Timely(Run(t0, ps), p)
    ensures var x := Run(t0, ps);
            Verdict(x, p) <==> GlobalAffords(x.log, p.t) && SourceAffords(OwnHistory(x, p), p.t)
  {
    var x := Run(t0, ps);
    EarlierFirst(ps, p);
    RunIsExact(t0, ps);
    RunIsSound(t0, ps, p.t);
    RefilledGlobal(x, p);
    RefilledOwn(x, p);
    GrantsExactlyWithinBound(x.log, p.t, GLOBAL_BURST, GLOBAL_RATE);
    GrantsExactlyWithinBound(OwnHistory(x, p), p.t, SRC_BURST, SRC_RATE);
    GlobalAffordsIff(x.log, p.t);
    SourceAffordsIff(OwnHistory(x, p), p.t);
  }

  function Gap(h: History, t: nat): int
    requires h != []
  {
    t - h[|h|-1].t
  }

  /** The ideal bucket has a token where this one, refilled by the wrapped
      difference, has none. */
  ghost predicate Lags(b: Bucket, h: History, t: nat, burst: int, rate: int) {
    && h != []
    && b.tokens + 20 * rate * (Gap(h, t) % TWO_32) < SCALE
    && Level(h, burst, rate) + 20 * rate * Gap(h, t) >= SCALE
  }

  lemma RefillsTo(b: Bucket, h: History, t: nat, burst: int, rate: int)
    requires 0 < burst < 100 && 0 < rate < 100 && Backs(b, h, burst, rate) && NotBefore(h, t)
    ensures Refill(b, Tick(t), rate, burst).tokens == Min(burst * SCALE, b.tokens + 20 * rate * (Gap(h, t) % TWO_32))
    ensures Available(h, t, burst, rate) == Min(burst * SCALE, Level(h, burst, rate) + 20 * rate * Gap(h, t))
  {
    ElapsedIsTrueElapsedModulo(h[|h|-1].t, t);
  }

  /** A bucket, at its ideal level or behind it, decides rightly exactly if it
      does not lag. */
  lemma DecidesRightlyIff(b: Bucket, h: History, t: nat, burst: int, rate: int)
    requires 0 < burst < 100 && 0 < rate < 100 && Backs(b, h, burst, rate) && NotBefore(h, t)
    ensures (Spendable(Refill(b, Tick(t), rate, burst)) <==> EndsWithin(h + [Event(t, true)], burst, rate))
       <==> !Lags(b, h, t, burst, rate)
  {
    RefillsTo(b, h, t, burst, rate);
    RefillTracks(b, h, t, burst, rate);
    GrantsExactlyWithinBound(h, t, burst, rate);
  }

  /** At its ideal level it lags exactly after a wrap or more whose remainder
      does not refill a token. */
  lemma ExactLagsIff(b: Bucket, h: History, t: nat, burst: int, rate: int)
    requires 0 < burst < 100 && 0 < rate < 100 && Backs(b, h, burst, rate) && NotBefore(h, t)
    requires b.tokens == Level(h, burst, rate)
    ensures Lags(b, h, t, burst, rate)
       <==> Gap(h, t) >= TWO_32 && b.tokens + 20 * rate * (Gap(h, t) % TWO_32) < SCALE
  {
    LongGapRefills(rate, Gap(h, t));
  }

  lemma LongGapRefills(rate: int, gap: int)
    requires rate > 0
    ensures gap >= TWO_32 ==> 20 * rate * gap >= SCALE
    ensures 0 <= gap < TWO_32 ==> gap % TWO_32 == gap
  {
  }

  /** A refill brings any bucket to its ideal level exactly if it was there
      and the gap was shorter than a wrap, or it becomes full. */
  lemma CatchesUpIff(b: Bucket, h: History, t: nat, burst: int, rate: int)
    requires 0 < burst < 100 && 0 < rate < 100 && Backs(b, h, burst, rate) && NotBefore(h, t)
    ensures var r := Refill(b, Tick(t), rate, burst);
            r.tokens == Available(h, t, burst, rate)
            <==> (b.tokens == Level(h, burst, rate) && Gap(h, t) < TWO_32) || r.tokens == burst * SCALE
  {
    RefillsTo(b, h, t, burst, rate);
    RefillTracks(b, h, t, burst, rate);
    var gap := Gap(h, t);
    RefilledLess(rate, gap);
  }

  lemma RefilledLess(rate: int, gap: int)
    requires rate > 0 && gap >= 0
    ensures 20 * rate * (gap % TWO_32) <= 20 * rate * gap
    ensures 20 * rate * (gap % TWO_32) == 20 * rate * gap <==> gap < TWO_32
  {
  }

  /** Both windows of a probe could afford the answer. */
  ghost predicate Affordable(x: Traced, p: Probe)
    requires x.table.Valid() && |x.own| == SRC_SLOTS
  {
    GlobalAffords(x.log, p.t) && SourceAffords(OwnHistory(x, p), p.t)
  }

  /** The global bucket or that of the probe's source lags. */
  ghost predicate SomeLags(x: Traced, p: Probe)
    requires x.table.Valid() && |x.own| == SRC_SLOTS
  {
    || Lags(x.table.global, x.log, p.t, GLOBAL_BURST, GLOBAL_RATE)
    || Lags(x.table.slots[SlotOf(x, p)].bucket, OwnHistory(x, p), p.t, SRC_BURST, SRC_RATE)
  }

  lemma GlobalDecides(x: Traced, p: Probe)
    requires Sound(x, p.t) && (x.log == [] ==> x.table.global.tokens == GLOBAL_BURST * SCALE)
    ensures var ok := EndsWithin(x.log + [Event(p.t, true)], GLOBAL_BURST, GLOBAL_RATE);
            Spendable(Refill(x.table.global, Tick(p.t), GLOBAL_RATE, GLOBAL_BURST))
            <==> ok && !Lags(x.table.global, x.log, p.t, GLOBAL_BURST, GLOBAL_RATE)
  {
    RefilledGlobal(x, p);
    GrantsExactlyWithinBound(x.log, p.t, GLOBAL_BURST, GLOBAL_RATE);
    if x.log != [] {
      DecidesRightlyIff(x.table.global, x.log, p.t, GLOBAL_BURST, GLOBAL_RATE);
      RefillsTo(x.table.global, x.log, p.t, GLOBAL_BURST, GLOBAL_RATE);
    }
  }

  lemma OwnDecides(x: Traced, p: Probe)
    requires Sound(x, p.t)
    ensures var ok := EndsWithin(OwnHistory(x, p) + [Event(p.t, true)], SRC_BURST, SRC_RATE);
            var s := Touched(x.table.slots, p.ip, Tick(p.t));
            Spendable(Refill(s.bucket, Tick(p.t), SRC_RATE, SRC_BURST))
            <==> ok && !Lags(x.table.slots[SlotOf(x, p)].bucket, OwnHistory(x, p), p.t, SRC_BURST, SRC_RATE)
  {
    var k := SlotOf(x, p);
    RefilledOwn(x, p);
    GrantsExactlyWithinBound(OwnHistory(x, p), p.t, SRC_BURST, SRC_RATE);
    if Known(x.table.slots, p.ip) {
      assert Matches(x.table.slots[k], p.ip) && SoundSlot(x, k, p.t);
      DecidesRightlyIff(x.table.slots[k].bucket, x.own[k], p.t, SRC_BURST, SRC_RATE);
      RefillsTo(x.table.slots[k].bucket, x.own[k], p.t, SRC_BURST, SRC_RATE);
    }
  }

  lemma {:induction false} FreshGlobal(t0: nat, ps: seq<Probe>)
    ensures |Run(t0, ps).log| == |ps|
    ensures ps == [] ==> Run(t0, ps).table.global.tokens == GLOBAL_BURST * SCALE
    decreases |ps|
  {
    if ps != [] { FreshGlobal(t0, ps[..|ps|-1]); }
  }

  /** After any run, whatever its gaps, a probe is answered exactly if both
      windows can afford it and neither bucket lags. */
  lemma VerdictIff(t0: nat, ps: seq<Probe>, p: Probe)
    requires Chronological(ps + [p])
    ensures var x := Run(t0, ps);
            Verdict(x, p) <==> Affordable(x, p) && !SomeLags(x, p)
  {
    EarlierFirst(ps, p);
    RunIsSound(t0, ps, p.t);
    FreshGlobal(t0, ps);
    var x := Run(t0, ps);
    NextChanges(x, p);
    GlobalDecides(x, p);
    OwnDecides(x, p);
    GlobalAffordsIff(x.log, p.t);
    SourceAffordsIff(OwnHistory(x, p), p.t);
  }

  lemma EarlierFirst(ps: seq<Probe>, p: Probe)
    requires Chronological(ps + [p])
    ensures Chronological(ps) && (ps != [] ==> ps[|ps|-1].t <= p.t)
  {
    forall i, j | 0 <= i <= j < |ps| ensures ps[i].t <= ps[j].t {
      assert (ps + [p])[i].t <= (ps + [p])[j].t;
    }
    if ps != [] { assert (ps + [p])[|ps|-1].t <= (ps + [p])[|ps|].t; }
  }

  /** Such a gap is reachable: four answers at time 0, then a probe exactly
      one wrap later, is refused although every window could afford it. */
  lemma WrapRefusesAffordableProbe()
    ensures var ps := Burst(4);
            var late := Probe(1, TWO_32);
            var x := Run(0, ps);
            Chronological(ps + [late]) && AllTimely(0, ps) && Affordable(x, late) && !Verdict(x, late)
  {
    AfterBurst(4);
    RunIsSound(0, Burst(4), TWO_32);
    RunIsExact(0, Burst(4));
    RefusedAfterWrap(Run(0, Burst(4)));
    GlobalAffordsIff(Run(0, Burst(4)).log, TWO_32);
    SourceAffordsIff(OwnHistory(Run(0, Burst(4)), Probe(1, TWO_32)), TWO_32);
  }

  /** The state after n answers to source 1 at time 0. */
  ghost predicate Drained(x: Traced, n: nat) {
    && x.table.Valid() && |x.own| == SRC_SLOTS && n <= 4
    && x.table.global == Bucket(24000 - 1000 * n, 0)
    && |x.log| == n && (forall i :: 0 <= i < n ==> x.log[i] == Event(0, true))
    && if n > 0 then x.table.slots[0] == Slot(1, 0, Bucket(4000 - 1000 * n, 0)) && x.own[0] == x.log
       else forall i :: 0 <= i < SRC_SLOTS ==> x.table.slots[i].ip == 0
  }

  lemma RefusedAfterWrap(x: Traced)
    requires Drained(x, 4) && Sound(x, TWO_32) && Exact(x)
    ensures var late := Probe(1, TWO_32);
            && !Verdict(x, late)
            && EndsWithin(x.log + [Event(late.t, true)], GLOBAL_BURST, GLOBAL_RATE)
            && EndsWithin(OwnHistory(x, late) + [Event(late.t, true)], SRC_BURST, SRC_RATE)
  {
    KnownSlot(x, Probe(1, TWO_32));
    NextChanges(x, Probe(1, TWO_32));
    GrantsExactlyWithinBound(x.log, TWO_32, GLOBAL_BURST, GLOBAL_RATE);
    GrantsExactlyWithinBound(x.own[0], TWO_32, SRC_BURST, SRC_RATE);
    assert Level(x.log, GLOBAL_BURST, GLOBAL_RATE) == 20000 && Level(x.own[0], SRC_BURST, SRC_RATE) == 0;
  }

  lemma DrainOne(x: Traced, n: nat)
    requires Drained(x, n) && n < 4
    ensures Drained(Next(x, Probe(1, 0)), n + 1) && Timely(x, Probe(1, 0))
  {
  }

  ghost function Burst(n: nat): (ps: seq<Probe>)
    ensures |ps| == n && forall i :: 0 <= i < n ==> ps[i] == Probe(1, 0)
  {
    seq(n, _ => Probe(1, 0))
  }

  lemma KnownSlot(x: Traced, p: Probe)
    requires x.table.Valid() && |x.own| == SRC_SLOTS && Matches(x.table.slots[0], p.ip)
    ensures Known(x.table.slots, p.ip) && SlotOf(x, p) == 0
  {
  }

  lemma {:induction false} AfterBurst(n: nat)
    requires n <= 4
    ensures AllTimely(0, Burst(n)) && Drained(Run(0, Burst(n)), n)
  {
    if n > 0 {
      AfterBurst(n - 1);
      assert Burst(n)[..n-1] == Burst(n - 1);
      DrainOne(Run(0, Burst(n - 1)), n - 1);
    }
  }

  // ---- the table is a least-recently-seen cache ----

  /** A probe from a new source takes over a used slot only if none is free,
      and then (ages under 2^32 ticks) no other slot was seen earlier. */
  lemma EvictsLeastRecentlySeen(t0: nat, ps: seq<Probe>, p: Probe)
    requires Chronological(ps + [p])
    requires !Known(Run(t0, ps).table.slots, p.ip)
    requires Run(t0, ps).table.slots[SlotOf(Run(t0, ps), p)].ip != 0
    requires forall s :: 0 <= s < SRC_SLOTS && Run(t0, ps).table.slots[s].ip != 0
                ==> Recent(Run(t0, ps).own[s], p.t)
    ensures var x := Run(t0, ps);
            var k := SlotOf(x, p);
            forall s :: 0 <= s < SRC_SLOTS ==>
              && x.table.slots[s].ip != 0 && x.own[s] != [] && x.own[k] != []
              && x.own[k][|x.own[k]|-1].t <= x.own[s][|x.own[s]|-1].t
  {
    var x := Run(t0, ps);
    var k := SlotOf(x, p);
    EarlierFirst(ps, p);
    RunIsSound(t0, ps, p.t);
    forall s | 0 <= s < SRC_SLOTS
      ensures x.table.slots[s].ip != 0 && x.own[s] != [] && x.own[k] != []
      ensures x.own[k][|x.own[k]|-1].t <= x.own[s][|x.own[s]|-1].t
    {
      assert SoundSlot(x, s, p.t) && SoundSlot(x, k, p.t);
      ElapsedIsTrueElapsedModulo(x.own[s][|x.own[s]|-1].t, p.t);
      ElapsedIsTrueElapsedModulo(x.own[k][|x.own[k]|-1].t, p.t);
      assert Age(x.table.slots[s], Tick(p.t)) <= Age(x.table.slots[k], Tick(p.t));
    }
  }

  ghost function Sources(ps: seq<Probe>): set<uint32> {
    set p | p in ps :: p.ip
  }

  /** Every source of the run holds the slot its first probe made. */
  ghost predicate RemembersAll(ps: seq<Probe>, x: Traced)
    requires x.table.Valid() && |x.own| == SRC_SLOTS && |x.log| == |ps|
  {
    && (forall ip :: ip in Sources(ps) ==> Known(x.table.slots, ip))
    && forall s :: 0 <= s < SRC_SLOTS && x.table.slots[s].ip != 0 ==>
         && x.table.slots[s].ip in Sources(ps)
         && x.own[s] == VerdictsFor(ps, x.log, x.table.slots[s].ip, 0)
  }

  ghost function UsedBy(slots: seq<Slot>): set<uint32> {
    set i | 0 <= i < |slots| :: slots[i].ip
  }

  lemma {:induction false} DistinctSlotsCount(slots: seq<Slot>)
    requires OneSlotPerSource(slots) && forall i :: 0 <= i < |slots| ==> slots[i].ip != 0
    ensures |UsedBy(slots)| == |slots|
  {
    if slots != [] {
      var n := |slots| - 1;
      DistinctSlotsCount(slots[..n]);
      assert UsedBy(slots) == UsedBy(slots[..n]) + {slots[n].ip};
    }
  }

  /** A source the table does not know finds a free slot as long as the run
      has at most 16 sources. */
  lemma NewSourceFindsFreeSlot(ps: seq<Probe>, p: Probe, x: Traced)
    requires Sound(x, p.t) && |x.log| == |ps| && RemembersAll(ps, x)
    requires |Sources(ps + [p])| <= 16 && p.ip != 0
    requires !Known(x.table.slots, p.ip)
    ensures x.table.slots[SlotOf(x, p)].ip == 0
  {
    var slots := x.table.slots;
    if forall i :: 0 <= i < SRC_SLOTS ==> slots[i].ip != 0 {
      DistinctSlotsCount(slots);
      var used := UsedBy(slots);
      SourcesOfMore(ps, p);
      assert p.ip !in used by {
        assert forall i :: 0 <= i < SRC_SLOTS ==> !Matches(slots[i], p.ip);
      }
      SubsetIsNoLarger(used + {p.ip}, Sources(ps + [p]));
    }
  }

  lemma {:induction false} SubsetIsNoLarger(a: set<uint32>, b: set<uint32>)
    requires a <= b
    ensures |a| <= |b|
  {
    if a != {} {
      var x :| x in a;
      SubsetIsNoLarger(a - {x}, b - {x});
    }
  }

  lemma RemembersOne(ps: seq<Probe>, x: Traced, p: Probe, s: nat)
    requires Sound(x, p.t) && |x.log| == |ps| && RemembersAll(ps, x) && p.ip != 0
    requires Known(x.table.slots, p.ip) || x.table.slots[SlotOf(x, p)].ip == 0
    requires s < SRC_SLOTS && Next(x, p).table.slots[s].ip != 0
    ensures var y := Next(x, p);
            && y.table.slots[s].ip in Sources(ps) + {p.ip}
            && y.own[s] == VerdictsFor(ps + [p], y.log, y.table.slots[s].ip, 0)
  {
    OwnHistoryNext(x, p, s);
    VerdictsForNext(ps, p, x.log, Event(p.t, Verdict(x, p)), Next(x, p).table.slots[s].ip, 0);
    if s == SlotOf(x, p) && !Known(x.table.slots, p.ip) {
      assert p.ip !in Sources(ps);
      NeverSeen(ps, x.log, p.ip);
    }
    if s == SlotOf(x, p) && Known(x.table.slots, p.ip) { assert Matches(x.table.slots[s], p.ip); }
  }

  lemma RemembersStep(ps: seq<Probe>, x: Traced, p: Probe)
    requires Sound(x, p.t) && |x.log| == |ps| && RemembersAll(ps, x) && p.ip != 0
    requires |Sources(ps + [p])| <= 16
    ensures |Next(x, p).log| == |ps + [p]| && RemembersAll(ps + [p], Next(x, p))
  {
    if !Known(x.table.slots, p.ip) { NewSourceFindsFreeSlot(ps, p, x); }
    KnownSurvives(x, p);
    SourcesOfMore(ps, p);
    forall s | 0 <= s < SRC_SLOTS && Next(x, p).table.slots[s].ip != 0
      ensures Next(x, p).table.slots[s].ip in Sources(ps + [p])
      ensures Next(x, p).own[s] == VerdictsFor(ps + [p], Next(x, p).log, Next(x, p).table.slots[s].ip, 0)
    {
      RemembersOne(ps, x, p, s);
    }
  }

  lemma SourcesOfMore(ps: seq<Probe>, p: Probe)
    ensures Sources(ps + [p]) == Sources(ps) + {p.ip}
  {
  }

  /** With at most 16 distinct (non-zero) sources no slot is ever taken over:
      every source keeps its slot, so no bucket is ever reset. */
  lemma {:induction false} FewSourcesAreNeverEvicted(t0: nat, ps: seq<Probe>)
    requires Chronological(ps) && 0 !in Sources(ps) && |Sources(ps)| <= 16
    ensures |Run(t0, ps).log| == |ps| && RemembersAll(ps, Run(t0, ps))
    decreases |ps|
  {
    if ps != [] {
      var n := |ps| - 1;
      var qs, p := ps[..n], ps[n];
      assert ps == qs + [p];
      SourcesOfMore(qs, p);
      SubsetIsNoLarger(Sources(qs), Sources(ps));
      FewSourcesAreNeverEvicted(t0, qs);
      RunIsSound(t0, qs, p.t);
      RemembersStep(qs, Run(t0, qs), p);
    }
  }

  /** A seventeenth source takes over a used slot. */
  lemma SeventeenthEvicts(t0: nat, ps: seq<Probe>, p: Probe)
    requires Chronological(ps + [p]) && 0 !in Sources(ps) && |Sources(ps)| == 16
    requires p.ip !in Sources(ps)
    ensures Run(t0, ps).table.slots[SlotOf(Run(t0, ps), p)].ip in Sources(ps)
  {
    EarlierFirst(ps, p);
    RunIsSound(t0, ps, p.t);
    FewSourcesAreNeverEvicted(t0, ps);
    NoneIsFree(Run(t0, ps).table.slots, Sources(ps), SlotOf(Run(t0, ps), p));
  }

  /** Sixteen sources with slots leave none of the sixteen free. */
  lemma NoneIsFree(slots: seq<Slot>, sources: set<uint32>, k: nat)
    requires |slots| == SRC_SLOTS && k < |slots| && |sources| == 16
    requires forall ip :: ip in sources ==> Known(slots, ip)
    ensures slots[k].ip != 0
  {
    var others := slots[..k] + slots[k+1..];
    DistinctSlotsAtMost(others);
    if slots[k].ip == 0 {
      forall ip | ip in sources ensures ip in UsedBy(others) {
        var i :| 0 <= i < |slots| && Matches(slots[i], ip);
        assert slots[i] == if i < k then others[i] else others[i-1];
      }
      SubsetIsNoLarger(sources, UsedBy(others));
    }
  }

  lemma {:induction false} DistinctSlotsAtMost(slots: seq<Slot>)
    ensures |UsedBy(slots)| <= |slots|
  {
    if slots != [] {
      var n := |slots| - 1;
      DistinctSlotsAtMost(slots[..n]);
      assert UsedBy(slots) == UsedBy(slots[..n]) + {slots[n].ip};
    }
  }

  /** A probe that finds its slot, or a free one, drops no other source. */
  lemma KnownSurvives(x: Traced, p: Probe)
    requires x.table.Valid() && |x.own| == SRC_SLOTS && p.ip != 0
    requires Known(x.table.slots, p.ip) || x.table.slots[SlotOf(x, p)].ip == 0
    ensures Known(Next(x, p).table.slots, p.ip)
    ensures forall ip :: Known(x.table.slots, ip) ==> Known(Next(x, p).table.slots, ip)
  {
    NextChanges(x, p);
    var k := SlotOf(x, p);
    var y := Next(x, p);
    assert Matches(y.table.slots[k], p.ip);
    forall ip | Known(x.table.slots, ip) ensures Known(y.table.slots, ip) {
      var i :| 0 <= i < SRC_SLOTS && Matches(x.table.slots[i], ip);
      if i != k { assert Matches(y.table.slots[i], ip); }
    }
  }

  lemma {:induction false} NeverSeen(ps: seq<Probe>, log: History, ip: uint32)
    requires |ps| == |log| && ip !in Sources(ps)
    ensures VerdictsFor(ps, log, ip, 0) == []
  {
    if ps != [] {
      var n := |ps| - 1;
      assert ps[n].ip in Sources(ps);
      assert Sources(ps[..n]) <= Sources(ps);
      NeverSeen(ps[..n], log[..n], ip);
    }
  }

  // ---- the limiter without a table ----

  /** The ideal limiter: no buckets, no table, no wrapped ticks. A probe is
      answered exactly when no window ending with it would overspend, over
      all verdicts and over the verdicts given to the same source. */
  ghost function IdealLog(ps: seq<Probe>): (log: History)
    ensures |log| == |ps|
    decreases |ps|
  {
    if ps == [] then []
    else
      var n := |ps| - 1;
      var log := IdealLog(ps[..n]);
      log + [Event(ps[n].t,
        GlobalAffords(log, ps[n].t) && SourceAffords(VerdictsFor(ps[..n], log, ps[n].ip, 0), ps[n].t))]
  }

  /** No probe comes a whole wrap of the ticks after the previous probe, nor
      after the previous probe of its own source. */
  ghost predicate NoLongSilence(ps: seq<Probe>)
    decreases |ps|
  {
    ps != [] ==>
      var n := |ps| - 1;
      var log := IdealLog(ps[..n]);
      NoLongSilence(ps[..n]) && Recent(log, ps[n].t) && Recent(VerdictsFor(ps[..n], log, ps[n].ip, 0), ps[n].t)
  }

  /** With at most 16 sources and no silence of a whole wrap, the 16-slot
      table of wrapped token buckets gives exactly the ideal verdicts. */
  lemma {:induction false} RefinesIdealLimiter(t0: nat, ps: seq<Probe>)
    requires Chronological(ps) && 0 !in Sources(ps) && |Sources(ps)| <= 16
    requires NoLongSilence(ps)
    ensures AllTimely(t0, ps) && Run(t0, ps).log == IdealLog(ps)
    decreases |ps|
  {
    if ps != [] {
      var n := |ps| - 1;
      var qs, p := ps[..n], ps[n];
      var x := Run(t0, qs);
      assert ps == qs + [p];
      assert Sources(qs) <= Sources(ps);
      SubsetIsNoLarger(Sources(qs), Sources(ps));
      RefinesIdealLimiter(t0, qs);
      FewSourcesAreNeverEvicted(t0, qs);
      assert OwnHistory(x, p) == VerdictsFor(qs, x.log, p.ip, 0) by {
        if Known(x.table.slots, p.ip) {
          assert Matches(x.table.slots[SlotOf(x, p)], p.ip);
        } else {
          NeverSeen(qs, x.log, p.ip);
        }
      }
      AnswersExactlyWhenAffordable(t0, qs, p);
    }
  }

  /** A datagram from address 0 never keeps a slot: only the global budget
      can refuse it. */
  lemma AddressZeroHasNoBudgetOfItsOwn(x: Traced, p: Probe)
    requires x.table.Valid() && |x.own| == SRC_SLOTS && p.ip == 0
    ensures Verdict(x, p) <==> Spendable(Refill(x.table.global, Tick(p.t), GLOBAL_RATE, GLOBAL_BURST))
    ensures Next(x, p).table.slots[SlotOf(x, p)].ip == 0
  {
  }
}
