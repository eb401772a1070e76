/** input.type: every character becomes one to three strokes of the keymap or
    is reported; the event cap and the time budget stop the typing at a known
    stroke. */
module Typing {
  import opened CTypes
  import opened Input
  import opened Sequences
  import opened Wrappers
  import Utf8

  const MAX_TEXT: int := 512

  datatype Stroke = Stroke(code: KeyCode, quals: set<nat>)

  /** What the keymap makes of a character: one to three strokes, or no way
      to type it. */
  type Keymap = nat -> seq<Stroke>

  predicate Typeable(map_: Keymap, cp: nat) {
    cp <= 0xFF && 1 <= |map_(cp)| <= 3
  }

  function StrokeEvents(ss: seq<Stroke>): (es: seq<Event>)
    ensures |es| == 2 * |ss|
  {
    if ss == [] then []
    else
      var s := ss[|ss|-1];
      StrokeEvents(ss[..|ss|-1]) + [Key(s.code, false, s.quals), Key(s.code, true, s.quals)]
  }

  /** The strokes of the characters that can be typed. */
  function StrokeCount(map_: Keymap, cps: seq<nat>): nat {
    if cps == [] then 0
    else
      var cp := cps[|cps|-1];
      StrokeCount(map_, cps[..|cps|-1]) + if Typeable(map_, cp) then |map_(cp)| else 0
  }

  /** Their events, in order. */
  function Typed(map_: Keymap, cps: seq<nat>): (es: seq<Event>)
    ensures |es| == 2 * StrokeCount(map_, cps)
  {
    if cps == [] then []
    else
      var cp := cps[|cps|-1];
      Typed(map_, cps[..|cps|-1]) + (if Typeable(map_, cp) then StrokeEvents(map_(cp)) else [])
  }

  function Untypeable(map_: Keymap, cps: seq<nat>): seq<nat> {
    if cps == [] then []
    else
      var cp := cps[|cps|-1];
      Untypeable(map_, cps[..|cps|-1]) + (if Typeable(map_, cp) then [] else [cp])
  }

  predicate NoKeyDown(log: seq<Event>) {
    forall k :: k !in KeysDown(log)
  }

  // ---- the budgets, stroke by stroke ----

  /** The pause between a key's down and its up. */
  function Half(delay: Delay): Delay {
    if delay > 2 then delay / 2 else delay
  }

  /** The pauses of m strokes. */
  function StrokePauses(m: nat, delay: Delay): nat {
    if m == 0 then 0 else StrokePauses(m - 1, delay) + Half(delay) + delay
  }

  function SpentBefore(m: nat, delay: Delay, timer: bool): nat {
    if timer then StrokePauses(m, delay) else 0
  }

  function HalfSpent(delay: Delay, timer: bool): nat {
    if timer then Half(delay) else 0
  }

  /** Stroke m may send its down, and also its up. */
  predicate DownFits(m: nat, delay: Delay, timer: bool) {
    2 * m < MAX_EVENTS && SpentBefore(m, delay, timer) < MAX_BUDGET_MS
  }

  predicate UpFits(m: nat, delay: Delay, timer: bool) {
    2 * m + 1 < MAX_EVENTS && SpentBefore(m, delay, timer) + HalfSpent(delay, timer) < MAX_BUDGET_MS
  }

  /** All of n strokes can be typed: the last one can, and so all before it
      (EarlierStrokesFit). */
  predicate AllFit(n: nat, delay: Delay, timer: bool) {
    n == 0 || UpFits(n - 1, delay, timer)
  }

  lemma {:induction false} EarlierStrokesFit(j: nat, k: nat, delay: Delay, timer: bool)
    requires j <= k && UpFits(k, delay, timer)
    ensures UpFits(j, delay, timer)
    decreases k
  {
    if j < k { EarlierStrokesFit(j, k - 1, delay, timer); }
  }

  /** Stroke k is the first that does not fit: its key is left down exactly
      if its down still fitted; else every key is up. */
  ghost predicate IsStop(log: seq<Event>, spent: nat, k: nat, delay: Delay, timer: bool) {
    && !UpFits(k, delay, timer) && AllFit(k, delay, timer)
    && if DownFits(k, delay, timer) then
         |KeysDown(log)| == 1 && spent == SpentBefore(k, delay, timer) + HalfSpent(delay, timer)
       else
         NoKeyDown(log) && spent == SpentBefore(k, delay, timer)
  }

  /** The first k strokes of all that was to be typed were sent, and perhaps
      the next one's down. */
  predicate LeftOff(log: seq<Event>, all: seq<Event>, k: nat, down: bool) {
    2 * k + 2 <= |all| && log == all[..if down then 2 * k + 1 else 2 * k]
  }

  /** More to type makes no difference to where typing stopped. */
  lemma LeftOffSooner(log: seq<Event>, all: seq<Event>, longer: seq<Event>, k: nat, down: bool)
    requires LeftOff(log, all, k, down) && all <= longer
    ensures LeftOff(log, longer, k, down)
  {
  }

  /** Where typing stopped, and what it had sent. */
  ghost predicate StoppedAt(log: seq<Event>, spent: nat, all: seq<Event>, k: nat, delay: Delay, timer: bool) {
    IsStop(log, spent, k, delay, timer) && LeftOff(log, all, k, DownFits(k, delay, timer))
  }

  // ---- the code ----

  ghost predicate Tidy(c: Inject)
    reads c
  {
    c.Valid() && c.nHeld == 0 && c.quals == {} && c.button == None && c.events == |c.log|
  }

  /** An open context that has typed m strokes completely. */
  ghost predicate HasTyped(c: Inject, m: nat, delay: Delay)
    reads c
  {
    && Tidy(c) && !c.truncated && c.events == 2 * m && NoKeyDown(c.log)
    && c.spent == SpentBefore(m, delay, c.timer) && AllFit(m, delay, c.timer)
  }

  /** An open context in the middle of stroke m. */
  ghost predicate HalfTyped(c: Inject, s: Stroke, m: nat, delay: Delay)
    reads c
  {
    && Tidy(c) && !c.truncated && c.events == 2 * m + 1 && KeysDown(c.log) == {s.code}
    && c.spent == SpentBefore(m, delay, c.timer) + HalfSpent(delay, c.timer)
  }

  method TypeDown(c: Inject, s: Stroke, delay: Delay, ghost m: nat) returns (ok: bool)
    requires HasTyped(c, m, delay)
    modifies c`log, c`events, c`truncated, c`spent
    ensures ok == DownFits(m, delay, c.timer)
    ensures ok ==> HalfTyped(c, s, m, delay) && c.log == old(c.log) + [Key(s.code, false, s.quals)]
    ensures !ok ==> Tidy(c) && c.truncated && c.log == old(c.log) && c.spent == old(c.spent)
  {
    AfterEvent(c.log, Key(s.code, false, s.quals));
    ok := c.WriteEvent(Key(s.code, false, s.quals));
    if ok { c.DelayMs(if delay > 2 then delay / 2 else delay); }
  }

  method TypeUp(c: Inject, s: Stroke, delay: Delay, ghost m: nat) returns (ok: bool)
    requires HalfTyped(c, s, m, delay)
    modifies c`log, c`events, c`truncated, c`spent
    ensures ok == UpFits(m, delay, c.timer)
    ensures ok ==> HasTyped(c, m + 1, delay) && c.log == old(c.log) + [Key(s.code, true, s.quals)]
    ensures !ok ==> Tidy(c) && c.truncated && c.log == old(c.log) && c.spent == old(c.spent)
  {
    AfterEvent(c.log, Key(s.code, true, s.quals));
    ok := c.WriteEvent(Key(s.code, true, s.quals));
    if ok { c.DelayMs(delay); }
  }

  /** One key down and up: completed exactly if the up fits the budgets. */
  method TypeStroke(c: Inject, s: Stroke, delay: Delay, ghost m: nat) returns (ok: bool)
    requires HasTyped(c, m, delay)
    modifies c`log, c`events, c`truncated, c`spent
    ensures ok == UpFits(m, delay, c.timer)
    ensures ok ==> HasTyped(c, m + 1, delay) && c.log == old(c.log) + StrokeEvents([s])
    ensures !ok ==> Tidy(c) && c.truncated
                    && StoppedAt(c.log, c.spent, old(c.log) + StrokeEvents([s]), m, delay, c.timer)
  {
    OneStroke(c.log, s);
    ok := TypeDown(c, s, delay, m);
    if ok { ok := TypeUp(c, s, delay, m); }
  }

  lemma OneStroke(log: seq<Event>, s: Stroke)
    ensures var all := log + StrokeEvents([s]);
            var down, up := Key(s.code, false, s.quals), Key(s.code, true, s.quals);
            |all| == |log| + 2 && all[..|log|] == log && all[..|log|+1] == log + [down] && all == log + [down] + [up]
  {
    assert [s][..0] == [];
  }

  lemma OneMoreStroke(before: seq<Event>, ss: seq<Stroke>, p: nat)
    requires p < |ss|
    ensures before + StrokeEvents(ss[..p]) + StrokeEvents([ss[p]]) == before + StrokeEvents(ss[..p+1])
  {
    assert ss[..p+1][..p] == ss[..p] && [ss[p]][..0] == [];
    Associate(before, StrokeEvents(ss[..p]), StrokeEvents([ss[p]]));
  }

  lemma {:induction false} StrokesGrow(ss: seq<Stroke>, p: nat)
    requires p <= |ss|
    ensures StrokeEvents(ss[..p]) <= StrokeEvents(ss)
  {
    if p < |ss| {
      var front := ss[..|ss|-1];
      StrokesGrow(front, p);
      assert front[..p] == ss[..p];
    } else {
      assert ss[..p] == ss;
    }
  }

  lemma LeftOffInside(before: seq<Event>, ss: seq<Stroke>, p: nat, log: seq<Event>, k: nat, down: bool)
    requires p < |ss| && LeftOff(log, before + StrokeEvents(ss[..p]) + StrokeEvents([ss[p]]), k, down)
    ensures LeftOff(log, before + StrokeEvents(ss), k, down)
  {
    var now, all := StrokeEvents(ss[..p+1]), StrokeEvents(ss);
    OneMoreStroke(before, ss, p);
    StrokesGrow(ss, p + 1);
    PrefixBehind(before, now, all);
    LeftOffSooner(log, before + now, before + all, k, down);
  }

  /** One more stroke of a character. */
  method TypeNext(c: Inject, ss: seq<Stroke>, p: nat, delay: Delay, ghost m: nat, ghost before: seq<Event>)
    returns (ok: bool)
    requires p < |ss| && HasTyped(c, m + p, delay) && c.log == before + StrokeEvents(ss[..p])
    modifies c`log, c`events, c`truncated, c`spent
    ensures ok ==> HasTyped(c, m + p + 1, delay) && c.log == before + StrokeEvents(ss[..p+1])
    ensures !ok ==> Tidy(c) && c.truncated
                    && StoppedAt(c.log, c.spent, before + StrokeEvents(ss), m + p, delay, c.timer)
  {
    OneMoreStroke(before, ss, p);
    ok := TypeStroke(c, ss[p], delay, m + p);
    if !ok { LeftOffInside(before, ss, p, c.log, m + p, DownFits(m + p, delay, c.timer)); }
  }

  /** All strokes of a character, or a stop at the first that does not fit. */
  method TypeStrokes(c: Inject, ss: seq<Stroke>, delay: Delay, ghost m: nat) returns (ok: bool, ghost stop: nat)
    requires HasTyped(c, m, delay)
    modifies c`log, c`events, c`truncated, c`spent
    ensures ok ==> HasTyped(c, m + |ss|, delay) && c.log == old(c.log) + StrokeEvents(ss)
    ensures !ok ==> Tidy(c) && c.truncated && m <= stop < m + |ss|
                    && StoppedAt(c.log, c.spent, old(c.log) + StrokeEvents(ss), stop, delay, c.timer)
  {
    ghost var before := c.log;
    stop := m;
    assert before + StrokeEvents(ss[..0]) == before;
    for p := 0 to |ss|
      invariant HasTyped(c, m + p, delay) && c.log == before + StrokeEvents(ss[..p])
    {
      stop := m + p;
      ok := TypeNext(c, ss, p, delay, m, before);
      if !ok { return; }
    }
    assert ss[..|ss|] == ss;
    ok := true;
  }

  /** Stopped within a character: all before it are typed or reported, and
      of its own events a first part. */
  ghost predicate TypedPart(map_: Keymap, cps: seq<nat>, mapped: nat, unmapped: seq<nat>, log: seq<Event>) {
    var i := mapped + |unmapped|;
    && i < |cps| && unmapped == Untypeable(map_, cps[..i])
    && Typed(map_, cps[..i]) <= log <= Typed(map_, cps[..i+1])
  }

  lemma {:induction false} TypedGrows(map_: Keymap, cps: seq<nat>, k: nat)
    requires k <= |cps|
    ensures Typed(map_, cps[..k]) <= Typed(map_, cps)
  {
    if k < |cps| {
      var front := cps[..|cps|-1];
      TypedGrows(map_, front, k);
      assert front[..k] == cps[..k];
    } else {
      assert cps[..k] == cps;
    }
  }

  /** An open context that has typed the given characters completely. */
  ghost predicate TypedTo(c: Inject, map_: Keymap, cps: seq<nat>, delay: Delay)
    reads c
  {
    HasTyped(c, StrokeCount(map_, cps), delay) && c.log == Typed(map_, cps)
  }

  /** One more character of the text. */
  method TypeCharacter(c: Inject, cp: nat, map_: Keymap, delay: Delay, ghost cps: seq<nat>, ghost i: nat)
    returns (ok: bool, ghost stop: nat)
    requires i < |cps| && cps[i] == cp && Typeable(map_, cp) && TypedTo(c, map_, cps[..i], delay)
    modifies c`log, c`events, c`truncated, c`spent
    ensures ok ==> TypedTo(c, map_, cps[..i+1], delay)
    ensures !ok ==> Tidy(c) && c.truncated && StoppedAt(c.log, c.spent, Typed(map_, cps), stop, delay, c.timer)
                    && Typed(map_, cps[..i]) <= c.log <= Typed(map_, cps[..i+1])
  {
    assert cps[..i+1][..i] == cps[..i];
    ok, stop := TypeStrokes(c, map_(cp), delay, StrokeCount(map_, cps[..i]));
    if !ok {
      TypedGrows(map_, cps, i + 1);
      LeftOffSooner(c.log, Typed(map_, cps[..i+1]), Typed(map_, cps), stop, DownFits(stop, delay, c.timer));
    }
  }

  /** The next character, typed unless the keymap has no way to. */
  method TypeOrPass(c: Inject, cps: seq<nat>, i: nat, map_: Keymap, delay: Delay)
    returns (ok: bool, typed: bool, ghost stop: nat)
    requires i < |cps| && TypedTo(c, map_, cps[..i], delay)
    modifies c`log, c`events, c`truncated, c`spent
    ensures typed == Typeable(map_, cps[i])
    ensures ok ==> TypedTo(c, map_, cps[..i+1], delay)
    ensures !ok ==> typed && Tidy(c) && c.truncated
                    && StoppedAt(c.log, c.spent, Typed(map_, cps), stop, delay, c.timer)
                    && Typed(map_, cps[..i]) <= c.log <= Typed(map_, cps[..i+1])
  {
    typed, stop := Typeable(map_, cps[i]), 0;
    if typed {
      ok, stop := TypeCharacter(c, cps[i], map_, delay, cps, i);
    } else {
      assert cps[..i+1][..i] == cps[..i];
      NothingAdded(c.log);
      ok := true;
    }
  }

  method TypeAll(c: Inject, cps: seq<nat>, map_: Keymap, delay: Delay)
    returns (done: bool, mapped: nat, unmapped: seq<nat>, ghost stop: nat)
    requires TypedTo(c, map_, [], delay)
    modifies c`log, c`events, c`truncated, c`spent
    ensures Tidy(c) && done == !c.truncated
    ensures done ==> TypedTo(c, map_, cps, delay) && unmapped == Untypeable(map_, cps) && mapped + |unmapped| == |cps|
    ensures !done ==> StoppedAt(c.log, c.spent, Typed(map_, cps), stop, delay, c.timer)
                      && TypedPart(map_, cps, mapped, unmapped, c.log)
  {
    mapped, unmapped, stop := 0, [], 0;
    for i := 0 to |cps|
      invariant TypedTo(c, map_, cps[..i], delay)
      invariant unmapped == Untypeable(map_, cps[..i]) && mapped + |unmapped| == i
    {
      var ok, typed;
      ok, typed, stop := TypeOrPass(c, cps, i, map_, delay);
      if !ok { return false, mapped, unmapped, stop; }
      assert cps[..i+1][..i] == cps[..i];
      if typed { mapped := mapped + 1; } else { unmapped := unmapped + [cps[i]]; }
    }
    assert cps[..|cps|] == cps;
    done := true;
  }

  datatype TypeResult = TypeResult(log: seq<Event>, chars: nat, mapped: nat, unmapped: seq<nat>,
                                   truncated: bool, spent: nat)

  /** What typing the characters comes to: cut short exactly if the last
      stroke's up does not fit the budgets; then a key is left down exactly if
      the first stroke that does not fit could still send its down. */
  ghost predicate IsTyping(r: TypeResult, map_: Keymap, cps: seq<nat>, stop: nat, delay: Delay, timer: bool) {
    var settle := if timer then 20 else 0;
    && r.chars == |cps| && ButtonsDown(r.log) == {} && r.spent >= settle
    && (r.truncated <==> !AllFit(StrokeCount(map_, cps), delay, timer))
    && if r.truncated then
         && StoppedAt(r.log, r.spent - settle, Typed(map_, cps), stop, delay, timer)
         && TypedPart(map_, cps, r.mapped, r.unmapped, r.log)
       else
         && r.log == Typed(map_, cps) && NoKeyDown(r.log)
         && r.spent == settle + SpentBefore(StrokeCount(map_, cps), delay, timer)
         && r.unmapped == Untypeable(map_, cps) && r.mapped + |r.unmapped| == |cps|
  }

  lemma StopIsTruncation(n: nat, k: nat, delay: Delay, timer: bool)
    requires k < n && !UpFits(k, delay, timer)
    ensures !AllFit(n, delay, timer)
  {
    if AllFit(n, delay, timer) { EarlierStrokesFit(k, n - 1, delay, timer); }
  }

  /** Opens the device, types, closes it. */
  method TypeFresh(cps: seq<nat>, map_: Keymap, delay: Delay, timer: bool) returns (r: TypeResult, ghost stop: nat)
    ensures IsTyping(r, map_, cps, stop, delay, timer)
  {
    var c := new Inject(timer);
    var done, mapped, unmapped;
    done, mapped, unmapped, stop := TypeAll(c, cps, map_, delay);
    if !done { StopIsTruncation(StrokeCount(map_, cps), stop, delay, timer); }
    CloseIdle(c);
    r := TypeResult(c.log, |cps|, mapped, unmapped, c.truncated, c.spent);
  }

  /** Stroke m fits the budgets exactly if it is one of the first 128 and the
      pauses before its up, or its down, take less than 20000 ms. */
  lemma StrokeFitsInNumbers(m: nat, delay: Delay, timer: bool)
    ensures DownFits(m, delay, timer) <==> m < 128 && (timer ==> TimeFor(m, delay) < 20000)
    ensures UpFits(m, delay, timer) <==>
              m < 128 && (timer ==> TimeFor(m, delay) + (if delay > 2 then delay / 2 else delay) < 20000)
  {
    StrokePausesIs(m, delay);
  }

  /** The milliseconds that m strokes take: each half the delay, if that is
      over 2, else all of it, and the delay again. */
  function TimeFor(m: nat, delay: Delay): nat {
    m * ((if delay > 2 then delay / 2 else delay) + delay)
  }

  lemma {:induction false} StrokePausesIs(m: nat, delay: Delay)
    ensures StrokePauses(m, delay) == m * (Half(delay) + delay) == TimeFor(m, delay)
  {
    if m > 0 {
      StrokePausesIs(m - 1, delay);
      assert m * (Half(delay) + delay) == (m - 1) * (Half(delay) + delay) + (Half(delay) + delay);
    }
  }

  /** Only time ever comes between a key's down and its up: the event cap
      does not. */
  lemma OnlyTimeSplitsPair(r: TypeResult, map_: Keymap, cps: seq<nat>, stop: nat, delay: Delay, timer: bool)
    requires IsTyping(r, map_, cps, stop, delay, timer)
    ensures KeysDown(r.log) != {} ==> timer && r.spent >= 20000
  {
    if KeysDown(r.log) != {} {
      var k :| k in KeysDown(r.log);
      StrokeFitsInNumbers(stop, delay, timer);
      assert r.truncated && DownFits(stop, delay, timer);
    }
  }

  /** Cut short exactly beyond 128 strokes, after 256 events, and then no key
      is down. */
  ghost predicate CappedAt256(r: TypeResult, map_: Keymap, cps: seq<nat>) {
    && (r.truncated <==> StrokeCount(map_, cps) > 128)
    && r.log == (if r.truncated then Typed(map_, cps)[..256] else Typed(map_, cps))
    && KeysDown(r.log) == {}
  }

  lemma CapInNumbers(r: TypeResult, map_: Keymap, cps: seq<nat>, stop: nat, delay: Delay, timer: bool)
    requires IsTyping(r, map_, cps, stop, delay, timer) && (!timer || delay == 0)
    ensures CappedAt256(r, map_, cps)
  {
    var n := StrokeCount(map_, cps);
    if n > 0 { FreeStrokeFits(n - 1, delay, timer); }
    FreeStrokeFits(stop, delay, timer);
    if stop > 0 { FreeStrokeFits(stop - 1, delay, timer); }
  }

  /** When pauses cost nothing only the event cap counts. */
  lemma FreeStrokeFits(m: nat, delay: Delay, timer: bool)
    requires !timer || delay == 0
    ensures DownFits(m, delay, timer) <==> m < 128
    ensures UpFits(m, delay, timer) <==> m < 128
  {
    StrokeFitsInNumbers(m, delay, timer);
    assert delay == 0 ==> TimeFor(m, delay) == m * 0 == 0;
  }

  method InputType(text: seq<uint8>, map_: Keymap, delay: Delay, timer: bool)
    returns (r: Option<TypeResult>, ghost stop: nat)
    ensures r == None <==> text == [] || |Utf8.Decode(text)| > 512
    ensures r.Some? ==> IsTyping(r.value, map_, Utf8.Decode(text), stop, delay, timer)
    ensures r.Some? && KeysDown(r.value.log) != {} ==> timer && r.value.spent >= 20000
    ensures r.Some? && (!timer || delay == 0) ==> CappedAt256(r.value, map_, Utf8.Decode(text))
    ensures r.Some? && !r.value.truncated ==>
              r.value.spent == if timer then 20 + TimeFor(StrokeCount(map_, Utf8.Decode(text)), delay) else 0
  {
    stop := 0;
    if |text| == 0 { return None, stop; }
    var chars := Utf8.Strlen(text);
    if chars > MAX_TEXT { return None, stop; }
    var cps := Utf8.CodePoints(text);
    var t;
    t, stop := TypeFresh(cps, map_, delay, timer);
    OnlyTimeSplitsPair(t, map_, cps, stop, delay, timer);
    StrokePausesIs(StrokeCount(map_, cps), delay);
    if !timer || delay == 0 { CapInNumbers(t, map_, cps, stop, delay, timer); }
    r := Some(t.(chars := chars));
  }

  // ---- a key left down ----

  lemma {:induction false} StrokesOfRepeated(map_: Keymap, cp: nat, n: nat)
    requires cp <= 0xFF && |map_(cp)| == 1
    ensures StrokeCount(map_, seq(n, _ => cp)) == n
  {
    if n > 0 {
      StrokesOfRepeated(map_, cp, n - 1);
      assert seq(n, _ => cp)[..n-1] == seq(n - 1, _ => cp);
    }
  }

  lemma {:induction false} SlowPauses(k: nat)
    ensures StrokePauses(k, 1000) == 1500 * k
  {
    if k > 0 { SlowPauses(k - 1); }
  }

  /** Fourteen letters at the longest delay: the fourteenth goes down at
      19500 ms, its up falls on 20000 ms and is refused, and closing does not
      let the key go. */
  method SlowTyping(map_: Keymap) returns (r: Option<TypeResult>)
    requires |map_(0x61)| == 1
    ensures r.Some? && r.value.truncated && |KeysDown(r.value.log)| == 1
  {
    var cps: seq<Utf8.CodePoint> := seq(14, _ => 0x61);
    Utf8.DecodeEncode(cps);
    StrokesOfRepeated(map_, 0x61, 14);
    FourteenthStops();
    ghost var stop;
    r, stop := InputType(Utf8.Encode(cps), map_, 1000, true);
    OneStop(stop, 13, 1000, true);
  }

  lemma FourteenthStops()
    ensures DownFits(13, 1000, true) && !UpFits(13, 1000, true) && AllFit(13, 1000, true)
  {
    SlowPauses(13);
    SlowPauses(12);
  }

  /** There is one stroke to stop at. */
  lemma OneStop(j: nat, k: nat, delay: Delay, timer: bool)
    requires !UpFits(j, delay, timer) && AllFit(j, delay, timer)
    requires !UpFits(k, delay, timer) && AllFit(k, delay, timer)
    ensures j == k
  {
    if j < k { EarlierStrokesFit(j, k - 1, delay, timer); } else if k < j { EarlierStrokesFit(k, j - 1, delay, timer); }
  }
}
