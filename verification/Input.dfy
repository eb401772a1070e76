/** Event injection: key chords, typed text, pointer motion, clicks and
    drags under an event cap and a time budget, with every modifier and
    button let go on the way out. The device is the log of its events. */
module Input {
  import opened CTypes
  import opened Wrappers
  import opened Motion
  import opened Sequences

  const MAX_CHORD_KEYS: int := 8
  const MAX_EVENTS: int := 256
  const MAX_BUDGET_MS: int := 20000
  const DEF_BUTTON_MS: int := 50
  const SETTLE_MS: int := 20

  type KeyCode = x: int | 0 <= x < 128
  type ButtonCode = x: int | 0x68 <= x <= 0x6A witness 0x68
  type Word = x: int | -0x8000 <= x < 0x8000
  type Delay = x: int | 0 <= x <= 1000

  const RAW_LSHIFT: KeyCode := 0x60
  const QUAL_LSHIFT: nat := 1

  datatype Event =
    | Key(code: KeyCode, up: bool, quals: set<nat>)
    | Button(button: ButtonCode, up: bool)
    | Pointer(dx: int, dy: int)

  // ---- the state of the keyboard and mouse ----

  function KeysDown(log: seq<Event>): set<KeyCode> {
    if log == [] then {}
    else
      var k := KeysDown(log[..|log|-1]);
      match log[|log|-1]
      case Key(code, up, _) => if up then k - {code} else k + {code}
      case _ => k
  }

  function ButtonsDown(log: seq<Event>): set<ButtonCode> {
    if log == [] then {}
    else
      var b := ButtonsDown(log[..|log|-1]);
      match log[|log|-1]
      case Button(code, up) => if up then b - {code} else b + {code}
      case _ => b
  }

  lemma AfterEvent(log: seq<Event>, e: Event)
    ensures KeysDown(log + [e]) == (if !e.Key? then KeysDown(log)
              else if e.up then KeysDown(log) - {e.code} else KeysDown(log) + {e.code})
    ensures ButtonsDown(log + [e]) == (if !e.Button? then ButtonsDown(log)
              else if e.up then ButtonsDown(log) - {e.button} else ButtonsDown(log) + {e.button})
  {
  }

  /** The button that is down, if one is. */
  ghost predicate OnlyDown(log: seq<Event>, button: Option<ButtonCode>) {
    forall b :: b in ButtonsDown(log) <==> button == Some(b)
  }

  function KeySet(ks: seq<KeyCode>): set<KeyCode> {
    set k | k in ks
  }

  /** The events that let go of held keys, last pressed first. */
  function Releases(held: seq<KeyCode>, quals: set<nat>): (es: seq<Event>)
    ensures |es| == |held|
  {
    if held == [] then []
    else [Key(held[|held|-1], true, quals)] + Releases(held[..|held|-1], quals)
  }

  /** Releases undo presses in last-in first-out order. */
  lemma {:induction false} ReleasesAreLifo(held: seq<KeyCode>, quals: set<nat>, i: nat)
    requires i < |held|
    ensures Releases(held, quals)[i] == Key(held[|held| - 1 - i], true, quals)
  {
    if i > 0 { ReleasesAreLifo(held[..|held|-1], quals, i - 1); }
  }

  lemma {:induction false} ReleasesLetGo(log: seq<Event>, held: seq<KeyCode>, quals: set<nat>)
    ensures KeysDown(log + Releases(held, quals)) == KeysDown(log) - KeySet(held)
    ensures ButtonsDown(log + Releases(held, quals)) == ButtonsDown(log)
    decreases |held|
  {
    if held == [] {
      assert log + [] == log;
    } else {
      var n := |held| - 1;
      var e, rest := Key(held[n], true, quals), Releases(held[..n], quals);
      AfterEvent(log, e);
      ReleasesLetGo(log + [e], held[..n], quals);
      Associate(log, [e], rest);
      KeySetAppend(held[..n], held[n]);
      assert held[..n] + [held[n]] == held;
      MinusTwice(KeysDown(log), held[n], KeySet(held[..n]));
    }
  }

  lemma MinusTwice(k: set<KeyCode>, x: KeyCode, front: set<KeyCode>)
    ensures k - {x} - front == k - (front + {x})
  {
  }

  lemma KeySetAppend(ks: seq<KeyCode>, k: KeyCode)
    ensures KeySet(ks + [k]) == KeySet(ks) + {k}
  {
  }

  lemma NothingAdded(log: seq<Event>)
    ensures log + [] == log && [] + log == log
  {
  }

  // ---- the injection context ----

  class Inject {
    const timer: bool
    const held: array<KeyCode>
    var nHeld: nat
    var quals: set<nat>
    var button: Option<ButtonCode>
    var events: nat
    var spent: nat
    var truncated: bool
    var log: seq<Event>

    /** The context remembers the button that is down. */
    ghost predicate Valid()
      reads this
    {
      && held.Length == MAX_CHORD_KEYS && nHeld <= MAX_CHORD_KEYS
      && OnlyDown(log, button)
      && (!timer ==> spent == 0)
    }

    ghost function Held(): seq<KeyCode>
      requires Valid()
      reads this, held
    {
      held[..nHeld]
    }

    ghost predicate WithinBudget()
      reads this
    {
      events < MAX_EVENTS && spent < MAX_BUDGET_MS
    }

    constructor (timer: bool)
      ensures Valid() && fresh(held) && this.timer == timer
      ensures nHeld == 0 && quals == {} && button == None && events == 0 && spent == 0 && !truncated && log == []
    {
      this.timer := timer;
      held := new KeyCode[MAX_CHORD_KEYS](_ => 0);
      nHeld, quals, button := 0, {}, None;
      events, spent, truncated, log := 0, 0, false, [];
    }

    method DelayMs(ms: nat)
      requires Valid()
      modifies this`spent
      ensures Valid() && spent == old(spent) + if timer then ms else 0
    {
      if ms == 0 || !timer { return; }
      spent := spent + ms;
    }

    /** Emits an event unless a budget is used up. */
    method WriteEvent(e: Event) returns (ok: bool)
      requires Valid() && !e.Button?
      modifies this`log, this`events, this`truncated
      ensures Valid() && ok == old(WithinBudget())
      ensures ok ==> log == old(log) + [e] && events == old(events) + 1 && truncated == old(truncated)
      ensures !ok ==> log == old(log) && events == old(events) && truncated
    {
      if events >= MAX_EVENTS || spent >= MAX_BUDGET_MS {
        truncated := true;
        return false;
      }
      AfterEvent(log, e);
      log := log + [e];
      events := events + 1;
      return true;
    }

    /** A button event together with the record of it. */
    method WriteButton(code: ButtonCode, up: bool) returns (ok: bool)
      requires Valid() && button == if up then Some(code) else None
      modifies this`log, this`events, this`truncated, this`button
      ensures Valid() && ok == old(WithinBudget())
      ensures ok ==> log == old(log) + [Button(code, up)] && events == old(events) + 1
                     && truncated == old(truncated) && button == if up then None else Some(code)
      ensures !ok ==> log == old(log) && events == old(events) && truncated && button == old(button)
    {
      if events >= MAX_EVENTS || spent >= MAX_BUDGET_MS {
        truncated := true;
        return false;
      }
      AfterEvent(log, Button(code, up));
      log := log + [Button(code, up)];
      events := events + 1;
      button := if up then None else Some(code);
      return true;
    }

    method PushModifier(code: KeyCode, qual: nat) returns (ok: bool)
      requires Valid()
      modifies this`log, this`events, this`truncated, this`nHeld, this`quals, held
      ensures Valid() && (ok <==> old(nHeld) < 8 && old(WithinBudget()))
      ensures ok ==> log == old(log) + [Key(code, false, old(quals))] && events == old(events) + 1
                     && truncated == old(truncated) && quals == old(quals) + {qual}
                     && Held() == old(Held()) + [code]
      ensures !ok ==> log == old(log) && Held() == old(Held()) && quals == old(quals)
    {
      if nHeld >= MAX_CHORD_KEYS { return false; }
      ok := WriteEvent(Key(code, false, quals));
      if !ok { return false; }
      quals := quals + {qual};
      Hold(code);
    }

    method Hold(code: KeyCode)
      requires Valid() && nHeld < MAX_CHORD_KEYS
      modifies this`nHeld, held
      ensures Valid() && Held() == old(Held()) + [code]
    {
      held[nHeld] := code;
      nHeld := nHeld + 1;
      assert held[..nHeld] == old(held[..nHeld]) + [code];
    }

    /** Lets go of the held modifiers, bypassing the budgets. */
    method ReleaseModifiers()
      requires Valid()
      modifies this`log, this`nHeld, this`quals
      ensures Valid() && nHeld == 0 && quals == {}
      ensures log == old(log) + Releases(old(Held()), old(quals))
    {
      while nHeld > 0
        invariant Valid() && quals == old(quals)
        invariant log + Releases(held[..nHeld], quals) == old(log) + Releases(old(Held()), old(quals))
      {
        nHeld := nHeld - 1;
        var e := Key(held[nHeld], true, quals);
        assert held[..nHeld+1][..nHeld] == held[..nHeld];
        Associate(log, [e], Releases(held[..nHeld], quals));
        AfterEvent(log, e);
        log := log + [e];
      }
      NothingAdded(log);
      quals := {};
    }

    method ReleaseButtons()
      requires Valid()
      modifies this`log, this`button
      ensures Valid() && button == None
      ensures log == old(log) + ButtonRelease(old(button))
    {
      if button == None {
        assert log + [] == log;
        return;
      }
      AfterEvent(log, Button(button.value, true));
      log := log + [Button(button.value, true)];
      button := None;
    }

    /** Closing: whatever stopped the call, no button and no pushed modifier
        stays down; the statistics survive. */
    method Close()
      requires Valid()
      modifies this`log, this`nHeld, this`quals, this`button, this`spent
      ensures Valid() && nHeld == 0 && button == None
      ensures log == old(log) + ButtonRelease(old(button)) + Releases(old(Held()), old(quals))
      ensures ButtonsDown(log) == {} && KeysDown(log) == KeysDown(old(log)) - KeySet(old(Held()))
      ensures spent == old(spent) + if timer then 20 else 0
    {
      ReleaseButtons();
      if old(button).Some? { AfterEvent(old(log), Button(old(button).value, true)); }
      assert old(log) + [] == old(log);
      assert KeysDown(log) == KeysDown(old(log));
      ReleasesLetGo(log, Held(), quals);
      ReleaseModifiers();
      DelayMs(SETTLE_MS);
    }
  }

  function ButtonRelease(b: Option<ButtonCode>): seq<Event> {
    match b case None => [] case Some(c) => [Button(c, true)]
  }

  // ---- input.key ----

  datatype Modifier = Modifier(code: KeyCode, qual: nat)

  function Codes(ms: seq<Modifier>): (ks: seq<KeyCode>)
    ensures |ks| == |ms| && forall i :: 0 <= i < |ms| ==> ks[i] == ms[i].code
  {
    seq(|ms|, i requires 0 <= i < |ms| => ms[i].code)
  }

  function Quals(ms: seq<Modifier>): set<nat> {
    set m | m in ms :: m.qual
  }

  /** Modifiers pressed in order, each under the qualifiers of those before. */
  function Presses(ms: seq<Modifier>): (es: seq<Event>)
    ensures |es| == |ms|
  {
    if ms == [] then []
    else Presses(ms[..|ms|-1]) + [Key(ms[|ms|-1].code, false, Quals(ms[..|ms|-1]))]
  }

  function WithShift(ms: seq<Modifier>, shift: bool): seq<Modifier> {
    if shift then ms + [Modifier(RAW_LSHIFT, QUAL_LSHIFT)] else ms
  }

  /** A whole chord. */
  function Chord(ms: seq<Modifier>, final: KeyCode): seq<Event> {
    Presses(ms) + [Key(final, false, Quals(ms)), Key(final, true, Quals(ms))] + Releases(Codes(ms), Quals(ms))
  }

  lemma {:induction false} PressesHold(ms: seq<Modifier>)
    ensures KeysDown(Presses(ms)) == KeySet(Codes(ms)) && ButtonsDown(Presses(ms)) == {}
  {
    if ms != [] {
      var n := |ms| - 1;
      PressesHold(ms[..n]);
      AfterEvent(Presses(ms[..n]), Key(ms[n].code, false, Quals(ms[..n])));
      assert Codes(ms) == Codes(ms[..n]) + [ms[n].code];
    }
  }

  /** Nothing is down after a chord, whatever its keys (repeated ones too). */
  lemma ChordLetsGo(ms: seq<Modifier>, final: KeyCode)
    ensures KeysDown(Chord(ms, final)) == {} && ButtonsDown(Chord(ms, final)) == {}
  {
    var q := Quals(ms);
    var down, up := Key(final, false, q), Key(final, true, q);
    PressesHold(ms);
    AfterEvent(Presses(ms), down);
    AfterEvent(Presses(ms) + [down], up);
    assert Presses(ms) + [down] + [up] == Presses(ms) + [down, up];
    ReleasesLetGo(Presses(ms) + [down, up], Codes(ms), q);
  }

  /** A shifted chord presses the left shift key, of raw code 0x60 and
      qualifier 1, last before its final key and lets go of it first. */
  lemma ShiftedChord(ms: seq<Modifier>, final: KeyCode)
    ensures var q := Quals(ms) + {1};
            Chord(WithShift(ms, true), final)
            == Presses(ms)
               + [Key(0x60, false, Quals(ms)), Key(final, false, q), Key(final, true, q), Key(0x60, true, q)]
               + Releases(Codes(ms), q)
  {
    var all := ms + [Modifier(RAW_LSHIFT, QUAL_LSHIFT)];
    var q := Quals(ms) + {1};
    assert all[..|ms|] == ms && Quals(all) == q;
    ReleasesOfMore(Codes(ms), 0x60, q);
    assert Codes(all) == Codes(ms) + [0x60];
    FourInside(Presses(ms), Key(0x60, false, Quals(ms)), Key(final, false, q), Key(final, true, q), Key(0x60, true, q),
               Releases(Codes(ms), q));
  }

  lemma ReleasesOfMore(held: seq<KeyCode>, code: KeyCode, quals: set<nat>)
    ensures Releases(held + [code], quals) == [Key(code, true, quals)] + Releases(held, quals)
  {
    assert (held + [code])[..|held|] == held;
  }

  lemma FourInside(p: seq<Event>, a: Event, b: Event, c: Event, d: Event, r: seq<Event>)
    ensures p + [a] + [b, c] + ([d] + r) == p + [a, b, c, d] + r
  {
  }

  /** A fresh context that has pressed the given modifiers. */
  ghost predicate Pressed(c: Inject, ms: seq<Modifier>)
    reads c, c.held
  {
    && c.Valid() && !c.truncated && c.button == None && c.events == |ms|
    && c.log == Presses(ms) && c.Held() == Codes(ms) && c.quals == Quals(ms)
  }

  method PushNext(c: Inject, ghost ms: seq<Modifier>, m: Modifier)
    requires Pressed(c, ms) && |ms| < MAX_CHORD_KEYS && c.spent < MAX_BUDGET_MS
    modifies c`log, c`events, c`truncated, c`nHeld, c`quals, c.held
    ensures Pressed(c, ms + [m])
  {
    assert c.nHeld == |c.Held()| == |ms|;
    PressOne(ms, m, ms + [m]);
    var pushed := c.PushModifier(m.code, m.qual);
  }

  method PressFinal(c: Inject, ghost ms: seq<Modifier>, final: KeyCode, delay: Delay)
    requires Pressed(c, ms) && |ms| <= MAX_CHORD_KEYS && c.spent + delay < MAX_BUDGET_MS
    modifies c`log, c`events, c`truncated, c`spent
    ensures c.Valid() && !c.truncated && c.button == None && c.Held() == Codes(ms) && c.quals == Quals(ms)
    ensures c.log == Presses(ms) + [Key(final, false, Quals(ms)), Key(final, true, Quals(ms))]
  {
    var q := c.quals;
    var ok := c.WriteEvent(Key(final, false, q));
    c.DelayMs(delay);
    ok := c.WriteEvent(Key(final, true, q));
  }

  method PushAndRest(c: Inject, mods: seq<Modifier>, i: nat, delay: Delay)
    requires i < |mods| < MAX_CHORD_KEYS && Pressed(c, mods[..i]) && c.spent <= 1000 * i
    modifies c`log, c`events, c`truncated, c`nHeld, c`quals, c`spent, c.held
    ensures Pressed(c, mods[..i+1]) && c.spent <= 1000 * (i + 1)
  {
    PushNext(c, mods[..i], mods[i]);
    assert mods[..i] + [mods[i]] == mods[..i+1];
    c.DelayMs(delay);
  }

  method PushAll(c: Inject, mods: seq<Modifier>, delay: Delay)
    requires Pressed(c, []) && |mods| < MAX_CHORD_KEYS && c.spent == 0
    modifies c`log, c`events, c`truncated, c`nHeld, c`quals, c`spent, c.held
    ensures Pressed(c, mods) && c.spent <= 1000 * |mods|
  {
    for i := 0 to |mods|
      invariant Pressed(c, mods[..i]) && c.spent <= 1000 * i
    {
      PushAndRest(c, mods, i, delay);
    }
    assert mods[..|mods|] == mods;
  }

  /** Resolved keys of a chord: at most seven modifiers and the final key. No
      budget is ever reached, so the device sees exactly the chord. */
  method InputKey(mods: seq<Modifier>, final: KeyCode, shift: bool, delay: Delay, timer: bool)
    returns (log: seq<Event>, truncated: bool)
    requires |mods| < 8
    ensures !truncated && log == Chord(WithShift(mods, shift), final)
  {
    var c := new Inject(timer);
    PushAll(c, mods, delay);
    ghost var ms := WithShift(mods, shift);
    PushShift(c, mods, shift);
    PressFinal(c, ms, final, delay);
    log, truncated := LetGo(c, ms, final);
  }

  method PushShift(c: Inject, ghost mods: seq<Modifier>, shift: bool)
    requires Pressed(c, mods) && |mods| < MAX_CHORD_KEYS && c.spent <= 1000 * |mods|
    modifies c`log, c`events, c`truncated, c`nHeld, c`quals, c.held
    ensures Pressed(c, WithShift(mods, shift))
  {
    if shift { PushNext(c, mods, Modifier(RAW_LSHIFT, QUAL_LSHIFT)); }
  }

  method LetGo(c: Inject, ghost ms: seq<Modifier>, final: KeyCode) returns (log: seq<Event>, truncated: bool)
    requires c.Valid() && !c.truncated && c.button == None && c.Held() == Codes(ms) && c.quals == Quals(ms)
    requires c.log == Presses(ms) + [Key(final, false, Quals(ms)), Key(final, true, Quals(ms))]
    modifies c
    ensures log == Chord(ms, final) && !truncated
  {
    ghost var pressed := c.log;
    c.Close();
    NothingAdded(pressed);
    log, truncated := c.log, c.truncated;
  }

  lemma PressOne(ms: seq<Modifier>, m: Modifier, all: seq<Modifier>)
    requires all == ms + [m]
    ensures Presses(all) == Presses(ms) + [Key(m.code, false, Quals(ms))]
    ensures Codes(all) == Codes(ms) + [m.code] && Quals(all) == Quals(ms) + {m.qual}
  {
  }

  // ---- pointer motion ----

  function MoveEvents(ms: seq<Move>): (es: seq<Event>)
    ensures |es| == |ms|
  {
    seq(|ms|, i requires 0 <= i < |ms| => Pointer(ms[i].dx, ms[i].dy))
  }

  /** The (WORD) cast: the low 16 bits, read as a signed number. */
  function ToWord(x: int): Word {
    var low := x % 0x1_0000;
    if low < 0x8000 then low else low - 0x1_0000
  }

  /** A distance between two points of a screen. */
  type Distance = x: int | -0x8000 < x < 0x8000
  type Steps = x: int | 1 <= x <= MAX_STEPS witness 1

  /** The casts to 16 bits lose nothing, nor do the 32-bit products. */
  lemma StepFits(d: Distance, i: nat, n: Steps)
    requires 1 <= i <= n
    ensures ToWord(StepOf(d, i, n)) == StepOf(d, i, n)
    ensures -0x8000_0000 <= d * i < 0x8000_0000 && -0x8000_0000 <= d * (i - 1) < 0x8000_0000
  {
    MotionIsMonotone(d, i - 1, i, n);
    var m := if d >= 0 then d else -d;
    Scale(m, 0, i - 1);
    Scale(m, i - 1, i);
    Scale(m, i, MAX_STEPS);
    Negate(d, i);
    Negate(d, i - 1);
  }

  /** Move i of the path is step i+1 of the motion. */
  ghost predicate IsPath(path: seq<Move>, dx: Distance, dy: Distance, n: Steps) {
    |path| == n && forall i {:trigger StepOf(dx, i, n)} :: 1 <= i <= n ==>
      path[i-1] == Move(StepOf(dx, i, n), StepOf(dy, i, n))
  }

  lemma {:induction false} KeptGrows(ms: seq<Move>, k: nat, keepZero: bool)
    requires k <= |ms|
    ensures Kept(ms[..k], keepZero) <= Kept(ms, keepZero)
  {
    if k < |ms| {
      var front := ms[..|ms|-1];
      KeptGrows(front, k, keepZero);
      assert front[..k] == ms[..k];
    } else {
      assert ms[..k] == ms;
    }
  }

  lemma AppendMove(before: seq<Event>, ms: seq<Move>, m: Move)
    ensures before + MoveEvents(ms + [m]) == before + MoveEvents(ms) + [Pointer(m.dx, m.dy)]
  {
  }

  /** One step in the machine's 32- and 16-bit arithmetic. */
  method ComputeMove(dx: Distance, dy: Distance, i: nat, n: Steps, ghost path: seq<Move>) returns (m: Move)
    requires 1 <= i <= n && IsPath(path, dx, dy, n)
    ensures m == path[i-1]
  {
    StepFits(dx, i, n);
    StepFits(dy, i, n);
    var p: int32, q: int32 := dx * i, dx * (i - 1);
    var sx := TruncDiv(p, n) - TruncDiv(q, n);
    p, q := dy * i, dy * (i - 1);
    var sy := TruncDiv(p, n) - TruncDiv(q, n);
    assert sx == StepOf(dx, i, n) && sy == StepOf(dy, i, n);
    m := Move(ToWord(sx), ToWord(sy));
  }

  /** Only some of the moves were made, the first ones. */
  ghost predicate StoppedWithin(before: seq<Event>, log: seq<Event>, ms: seq<Move>)
  {
    exists k :: 0 <= k < |ms| && log == before + MoveEvents(ms[..k])
  }

  /** The context has made exactly the moves ms since `before`, resting
      `rests` times. */
  ghost predicate Moved(c: Inject, before: seq<Event>, events: nat, spent: nat, ms: seq<Move>, rests: nat, delay: Delay)
    reads c
  {
    && c.Valid() && !c.truncated
    && c.log == before + MoveEvents(ms) && c.events == events + |ms|
    && c.spent == spent + (if c.timer then Pauses(rests, delay) else 0)
  }

  /** Makes one more move, unless out of time. */
  method MakeMove(c: Inject, m: Move, rest: bool, delay: Delay, ghost before: seq<Event>,
                  ghost events: nat, ghost spent: nat, ghost ms: seq<Move>)
    returns (ok: bool)
    requires Moved(c, before, events, spent, ms, |ms|, delay) && c.events < MAX_EVENTS
    modifies c`log, c`events, c`truncated, c`spent
    ensures ok == (old(c.spent) < MAX_BUDGET_MS)
    ensures ok ==> Moved(c, before, events, spent, ms + [m], |ms| + if rest then 1 else 0, delay)
    ensures !ok ==> c.Valid() && c.truncated && c.log == old(c.log) && c.spent == old(c.spent)
  {
    AppendMove(before, ms, m);
    ok := c.WriteEvent(Pointer(m.dx, m.dy));
    if ok && rest { c.DelayMs(delay); }
  }

  /** Makes one more of all the moves, or stops short of it. */
  method MoveOrStop(c: Inject, m: Move, rest: bool, delay: Delay, ghost before: seq<Event>, ghost events: nat,
                    ghost spent: nat, ghost ms: seq<Move>, ghost all: seq<Move>)
    returns (ok: bool)
    requires Moved(c, before, events, spent, ms, |ms|, delay) && c.events < MAX_EVENTS && spent < MAX_BUDGET_MS
    requires ms + [m] <= all
    modifies c`log, c`events, c`truncated, c`spent
    ensures ok ==> Moved(c, before, events, spent, ms + [m], |ms| + if rest then 1 else 0, delay)
                   && Finishes(spent, |ms + [m]|, delay, c.timer)
    ensures !ok ==> c.Valid() && c.truncated && StoppedWithin(before, c.log, all)
                    && !Finishes(spent, |all|, delay, c.timer)
  {
    ok := MakeMove(c, m, rest, delay, before, events, spent, ms);
    if !ok { StopsShort(before, c.log, spent, ms, all, delay, c.timer); }
  }

  lemma KeptNext(path: seq<Move>, i: nat, keepZero: bool)
    requires 1 <= i <= |path|
    ensures Kept(path[..i], keepZero)
         == if path[i-1] == Move(0, 0) && !keepZero then Kept(path[..i-1], keepZero)
            else Kept(path[..i-1], keepZero) + [path[i-1]]
  {
    assert path[..i][..i-1] == path[..i-1];
    assert Kept(path[..i-1], keepZero) + [] == Kept(path[..i-1], keepZero);
  }

  /** One round of the interpolation loop: computes the move, then skips a
      zero one or makes it and rests. */
  method InterpolateOnce(c: Inject, dx: Distance, dy: Distance, i: nat, n: Steps, ghost path: seq<Move>,
                         keepZero: bool, restAfterLast: bool, delay: Delay,
                         ghost before: seq<Event>, ghost events: nat, ghost spent: nat)
    returns (ok: bool, ghost rests: nat)
    requires 1 <= i <= n && IsPath(path, dx, dy, n) && events + n <= MAX_EVENTS && spent < MAX_BUDGET_MS
    requires var ms := Kept(path[..i-1], keepZero);
             Moved(c, before, events, spent, ms, |ms|, delay) && Finishes(spent, |ms|, delay, c.timer)
    modifies c`log, c`events, c`truncated, c`spent
    ensures ok ==> var ms := Kept(path[..i], keepZero);
                   && Moved(c, before, events, spent, ms, rests, delay)
                   && (i < n ==> rests == |ms|) && Finishes(spent, |ms|, delay, c.timer)
    ensures !ok ==> c.Valid() && c.truncated && StoppedWithin(before, c.log, Kept(path, keepZero))
                    && !Finishes(spent, |Kept(path, keepZero)|, delay, c.timer)
  {
    ghost var ms := Kept(path[..i-1], keepZero);
    var m := ComputeMove(dx, dy, i, n, path);
    KeptNext(path, i, keepZero);
    if m.dx == 0 && m.dy == 0 && !keepZero { return true, |ms|; }
    KeptGrows(path, i, keepZero);
    var rest := i < n || restAfterLast;
    ok := MoveOrStop(c, m, rest, delay, before, events, spent, ms, Kept(path, keepZero));
    rests := if rest then |ms| + 1 else |ms|;
  }

  /** The interpolation loop of mouse_move and drag. With the time already
      spent it runs to its end exactly when the last move still falls within
      the budgets; else it stops after a prefix of the moves. */
  method Interpolate(c: Inject, dx: Distance, dy: Distance, n: Steps, ghost path: seq<Move>,
                     keepZero: bool, restAfterLast: bool, delay: Delay)
    returns (done: bool)
    requires c.Valid() && !c.truncated && c.events + n <= MAX_EVENTS && c.spent < MAX_BUDGET_MS
    requires IsPath(path, dx, dy, n)
    modifies c`log, c`events, c`truncated, c`spent
    ensures c.Valid() && done == !c.truncated
    ensures done ==> c.log == old(c.log) + MoveEvents(Kept(path, keepZero))
    ensures !done ==> StoppedWithin(old(c.log), c.log, Kept(path, keepZero))
    ensures done <==> Finishes(old(c.spent), |Kept(path, keepZero)|, delay, c.timer)
  {
    ghost var before, events, spent, rests := c.log, c.events, c.spent, 0;
    assert c.log + [] == c.log;
    for i := 1 to n + 1
      invariant Moved(c, before, events, spent, Kept(path[..i-1], keepZero), rests, delay)
      invariant i <= n ==> rests == |Kept(path[..i-1], keepZero)|
      invariant Finishes(spent, |Kept(path[..i-1], keepZero)|, delay, c.timer)
    {
      var ok;
      ok, rests := InterpolateOnce(c, dx, dy, i, n, path, keepZero, restAfterLast, delay, before, events, spent);
      if !ok { return false; }
    }
    assert path[..n] == path;
    return true;
  }

  /** Running out of time before a move is what Finishes denies. */
  lemma StopsShort(before: seq<Event>, log: seq<Event>, spent: nat, ms: seq<Move>, all: seq<Move>,
                   delay: Delay, timer: bool)
    requires ms < all && log == before + MoveEvents(ms)
    requires spent < MAX_BUDGET_MS && spent + (if timer then Pauses(|ms|, delay) else 0) >= MAX_BUDGET_MS
    ensures StoppedWithin(before, log, all) && !Finishes(spent, |all|, delay, timer)
  {
    assert all[..|ms|] == ms;
    OutOfTime(spent, |ms|, |all|, delay, timer);
  }

  lemma OutOfTime(spent: nat, made: nat, all: nat, delay: Delay, timer: bool)
    requires made < all && spent < MAX_BUDGET_MS
    requires spent + (if timer then Pauses(made, delay) else 0) >= MAX_BUDGET_MS
    ensures !Finishes(spent, all, delay, timer)
  {
    PausesGrow(made, all - 1, delay);
  }

  /** The time k pauses take: k times the delay. */
  function Pauses(k: nat, delay: Delay): nat {
    if k == 0 then 0 else Pauses(k - 1, delay) + delay
  }

  /** m moves with pauses between them: the last one starts within the time
      budget. */
  predicate Finishes(spent: nat, m: nat, delay: Delay, timer: bool) {
    m == 0 || !timer || spent + Pauses(m - 1, delay) < MAX_BUDGET_MS
  }

  lemma {:induction false} PausesIs(k: nat, delay: Delay)
    ensures Pauses(k, delay) == k * delay
  {
    if k > 0 {
      PausesIs(k - 1, delay);
      assert k * delay == (k - 1) * delay + delay;
    }
  }

  /** With at most 20000 ms spent before, the moves all start in time exactly
      if the pauses between them leave the last one under 20000 ms. */
  lemma FinishesInNumbers(spent: nat, m: nat, delay: Delay, timer: bool)
    requires spent < 20000
    ensures Finishes(spent, m, delay, timer) <==> m <= 1 || !timer || spent + (m - 1) * delay < 20000
  {
    if m >= 1 { PausesIs(m - 1, delay); }
  }

  lemma {:induction false} PausesGrow(j: nat, k: nat, delay: Delay)
    requires j <= k
    ensures Pauses(j, delay) <= Pauses(k, delay)
    decreases k
  {
    if j < k { PausesGrow(j, k - 1, delay); }
  }

  /** Relative motion. The pointer is moved by exactly the distance unless
      the time budget cuts the motion, which it does exactly when the pauses
      before the last move use it up. */
  method MouseMove(dx: Distance, dy: Distance, n: Steps, delay: Delay, timer: bool)
    returns (log: seq<Event>, truncated: bool)
    ensures !truncated ==> log == MoveEvents(Moves(dx, dy, n, n == 1))
    ensures truncated ==> StoppedWithin([], log, Moves(dx, dy, n, n == 1))
    ensures !truncated <==> Finishes(0, |Moves(dx, dy, n, n == 1)|, delay, timer)
    ensures ButtonsDown(log) == {}
  {
    var c := new Inject(timer);
    assert IsPath(Path(dx, dy, n), dx, dy, n);
    var done := Interpolate(c, dx, dy, n, Path(dx, dy, n), n == 1, false, delay);
    NothingAdded(MoveEvents(Moves(dx, dy, n, n == 1)));
    CloseIdle(c);
    log, truncated := c.log, c.truncated;
  }

  /** With nothing held, closing sends nothing. */
  method CloseIdle(c: Inject)
    requires c.Valid() && c.nHeld == 0 && c.button == None
    modifies c
    ensures c.log == old(c.log) && c.truncated == old(c.truncated) && ButtonsDown(c.log) == {}
    ensures c.spent == old(c.spent) + if c.timer then 20 else 0
  {
    NothingAdded(c.log);
    c.Close();
  }

  // ---- input.click ----

  function Clicks(code: ButtonCode, count: nat): (es: seq<Event>)
    ensures |es| == 2 * count
  {
    if count == 0 then [] else Clicks(code, count - 1) + [Button(code, false), Button(code, true)]
  }

  /** A click is never cut short: every press is followed by its release. */
  method Click(code: ButtonCode, count: nat, move: Option<(Word, Word)>, delay: Delay, timer: bool)
    returns (log: seq<Event>, truncated: bool)
    requires 1 <= count <= 8
    ensures !truncated
    ensures log == (match move case None => [] case Some(m) => [Pointer(m.0, m.1)]) + Clicks(code, count)
    ensures ButtonsDown(log) == {}
  {
    var c := new Inject(timer);
    ghost var start: seq<Event> := [];
    if move.Some? {
      var ok := c.WriteEvent(Pointer(move.value.0, move.value.1));
      c.DelayMs(delay);
      start := [Pointer(move.value.0, move.value.1)];
    }
    ClickTimes(c, code, count, delay, start);
    CloseIdle(c);
    log, truncated := c.log, c.truncated;
  }

  lemma MoreClicks(start: seq<Event>, code: ButtonCode, i: nat)
    ensures start + Clicks(code, i) + [Button(code, false), Button(code, true)] == start + Clicks(code, i + 1)
  {
    Associate(start, Clicks(code, i), [Button(code, false), Button(code, true)]);
  }

  method ClickTimes(c: Inject, code: ButtonCode, count: nat, delay: Delay, ghost start: seq<Event>)
    requires c.Valid() && c.nHeld == 0 && c.button == None && !c.truncated
    requires c.events <= 1 && c.spent <= 1000 && c.log == start && count <= 8
    modifies c`log, c`events, c`truncated, c`button, c`spent
    ensures c.Valid() && c.nHeld == 0 && c.button == None && !c.truncated
    ensures c.log == start + Clicks(code, count)
  {
    NothingAdded(start);
    for i := 0 to count
      invariant c.Valid() && c.button == None && !c.truncated
      invariant c.events <= 1 + 2 * i && c.spent <= 1000 + 2000 * i
      invariant c.log == start + Clicks(code, i)
    {
      MoreClicks(start, code, i);
      ClickOnce(c, code, delay, i + 1 < count);
    }
  }

  method ClickOnce(c: Inject, code: ButtonCode, delay: Delay, more: bool)
    requires c.Valid() && c.button == None && c.events + 2 <= MAX_EVENTS && c.spent + 1000 < MAX_BUDGET_MS
    modifies c`log, c`events, c`truncated, c`button, c`spent
    ensures c.Valid() && c.button == None && c.truncated == old(c.truncated)
    ensures c.events == old(c.events) + 2 && c.spent <= old(c.spent) + 2000
    ensures c.log == old(c.log) + [Button(code, false), Button(code, true)]
  {
    TwoEvents(c.log, Button(code, false), Button(code, true));
    PressButton(c, code, delay);
    LiftButton(c, code, delay, more);
  }

  lemma TwoEvents(log: seq<Event>, d: Event, e: Event)
    ensures log + [d] + [e] == log + [d, e]
  {
    Associate(log, [d], [e]);
  }

  method PressButton(c: Inject, code: ButtonCode, delay: Delay)
    requires c.Valid() && c.button == None && c.WithinBudget()
    modifies c`log, c`events, c`truncated, c`button, c`spent
    ensures c.Valid() && c.button == Some(code) && c.truncated == old(c.truncated)
    ensures c.events == old(c.events) + 1 && c.spent <= old(c.spent) + 1000
    ensures c.log == old(c.log) + [Button(code, false)]
  {
    var ok := c.WriteButton(code, false);
    c.DelayMs(delay);
  }

  method LiftButton(c: Inject, code: ButtonCode, delay: Delay, more: bool)
    requires c.Valid() && c.button == Some(code) && c.WithinBudget()
    modifies c`log, c`events, c`truncated, c`button, c`spent
    ensures c.Valid() && c.button == None && c.truncated == old(c.truncated)
    ensures c.events == old(c.events) + 1 && c.spent <= old(c.spent) + 1000
    ensures c.log == old(c.log) + [Button(code, true)]
  {
    var ok := c.WriteButton(code, true);
    if more { c.DelayMs(delay); }
  }

  // ---- input.drag ----

  /** A drag from one point to another. However far it gets, the button is up
      afterwards; it is cut short exactly when the pauses before its last
      move use up the time budget. */
  method Drag(fromX: Distance, fromY: Distance, dx: Distance, dy: Distance, code: ButtonCode, n: Steps,
              delay: Delay, timer: bool)
    returns (log: seq<Event>, truncated: bool)
    ensures !truncated ==> log == DragEvents(fromX, fromY, code, Moves(dx, dy, n, false))
    ensures truncated ==> DraggedPart(fromX, fromY, code, Moves(dx, dy, n, false), log)
    ensures ButtonsDown(log) == {}
    ensures !truncated <==> Finishes(if timer then 100 else 0, |Moves(dx, dy, n, false)|, delay, timer)
  {
    var c := new Inject(timer);
    StartDrag(c, fromX, fromY, code);
    ghost var start := c.log;
    assert IsPath(Path(dx, dy, n), dx, dy, n);
    var done := Interpolate(c, dx, dy, n, Path(dx, dy, n), false, true, delay);
    if done { c.DelayMs(DEF_BUTTON_MS); }
    ghost var moved := c.log;
    c.Close();
    assert c.log == moved + [Button(code, true)];
    EndsDrag(fromX, fromY, code, start, moved, Moves(dx, dy, n, false), done);
    log, truncated := c.log, c.truncated;
  }

  /** To the start point, and the button down. */
  method StartDrag(c: Inject, x: Distance, y: Distance, code: ButtonCode)
    requires c.Valid() && !c.truncated && c.events == 0 && c.spent == 0 && c.log == [] && c.button == None
    modifies c`log, c`events, c`truncated, c`button, c`spent
    ensures c.Valid() && !c.truncated && c.events == 2 && c.button == Some(code)
    ensures c.spent == if c.timer then 100 else 0
    ensures c.log == [Pointer(x, y), Button(code, false)]
  {
    var ok := c.WriteEvent(Pointer(x, y));
    c.DelayMs(DEF_BUTTON_MS);
    ok := c.WriteButton(code, false);
    c.DelayMs(DEF_BUTTON_MS);
  }

  lemma EndsDrag(x: Distance, y: Distance, code: ButtonCode, start: seq<Event>, moved: seq<Event>,
                 ms: seq<Move>, done: bool)
    requires start == [Pointer(x, y), Button(code, false)]
    requires if done then moved == start + MoveEvents(ms) else StoppedWithin(start, moved, ms)
    ensures var log := moved + [Button(code, true)];
            if done then log == DragEvents(x, y, code, ms) else DraggedPart(x, y, code, ms, log)
  {
  }

  ghost predicate DraggedPart(x: Distance, y: Distance, code: ButtonCode, ms: seq<Move>, log: seq<Event>)
  {
    exists k :: 0 <= k < |ms| && log == DragEvents(x, y, code, ms[..k])
  }

  function DragEvents(fromX: Word, fromY: Word, code: ButtonCode, ms: seq<Move>): seq<Event>
  {
    [Pointer(fromX, fromY), Button(code, false)] + MoveEvents(ms) + [Button(code, true)]
  }

  /** A drag goes to its start point, presses, makes the moves and releases. */
  lemma DragShape(fromX: Word, fromY: Word, code: ButtonCode, ms: seq<Move>)
    ensures var es := DragEvents(fromX, fromY, code, ms);
            && |es| == |ms| + 3 && es[0] == Pointer(fromX, fromY)
            && es[1] == Button(code, false) && es[|ms|+2] == Button(code, true)
            && forall i :: 0 <= i < |ms| ==> es[i+2] == Pointer(ms[i].dx, ms[i].dy)
  {
    var es := DragEvents(fromX, fromY, code, ms);
    forall i | 0 <= i < |ms| ensures es[i+2] == Pointer(ms[i].dx, ms[i].dy) {
      assert es[i+2] == MoveEvents(ms)[i];
    }
  }

  lemma {:induction false} PausesAtMost(k: nat, delay: Delay, most: nat)
    requires delay <= most
    ensures Pauses(k, delay) <= k * most
  {
    if k > 0 { PausesAtMost(k - 1, delay, most); }
  }

  /** With pauses of at most 300 ms no drag is cut short; the whole motion
      then adds up to the distance. */
  lemma QuickDragsFinish(dx: Distance, dy: Distance, n: Steps, delay: Delay, timer: bool)
    requires delay <= 300
    ensures var ms := Moves(dx, dy, n, false);
            && Finishes(if timer then 100 else 0, |ms|, delay, timer)
            && SumX(ms) == dx && SumY(ms) == dy
  {
    var m := |Moves(dx, dy, n, false)|;
    WholeMotionIsExact(dx, dy, n, false);
    if m > 0 {
      PausesGrow(m - 1, 63, delay);
      PausesAtMost(63, delay, 300);
    }
  }
}
