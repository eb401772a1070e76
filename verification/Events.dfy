/** Server-push events of one connection: the subscription state, the poll
    that turns samples of the last alert code into notifications, and the
    slot for one synthetic notification. */
module Events {
  import opened CTypes
  import opened Wrappers

  type Body = seq<uint8>

  datatype Note =
    | LastAlert(code: uint32, previous: uint32)
    | DebugException(code: uint32)
    | Synthetic(body: Body)

  /** Which topics are subscribed. */
  datatype Mask = Mask(alerts: bool, exceptions: bool) {
    predicate Empty() { !alerts && !exceptions }
  }

  datatype EvState = EvState(mask: Mask, baselined: bool, baseline: uint32, pending: Option<Body>)

  const RESET: EvState := EvState(Mask(false, false), false, 0, None)

  /** A dead-end alert has its top bit set. */
  predicate DeadEnd(code: uint32) {
    code >= 0x8000_0000
  }

  function Drained(st: EvState): seq<Note> {
    match st.pending case None => [] case Some(b) => [Synthetic(b)]
  }

  function ChangeNotes(st: EvState, alert: uint32): seq<Note> {
    (if st.mask.alerts then [LastAlert(alert, st.baseline)] else []) +
    (if st.mask.exceptions && DeadEnd(alert) then [DebugException(alert)] else [])
  }

  /** One poll against a sample of the alert code. */
  function Poll(st: EvState, alert: uint32): (EvState, seq<Note>) {
    var idle := st.(pending := None);
    if st.mask.Empty() then (idle, Drained(st))
    else if !st.baselined then (idle.(baselined := true, baseline := alert), Drained(st))
    else if alert == st.baseline then (idle, Drained(st))
    else (idle.(baseline := alert), Drained(st) + ChangeNotes(st, alert))
  }

  /** The requests that touch the state. */
  datatype Action = Subscribe(mask: Mask) | Unsubscribe | TestEmit(body: Body) | Other

  function Act(st: EvState, a: Action): EvState {
    match a
    case Subscribe(m) => st.(mask := m, baselined := false)
    case Unsubscribe => st.(mask := Mask(false, false), baselined := false)
    case TestEmit(b) => st.(pending := Some(b))
    case Other => st
  }

  class Subscription {
    var mask: Mask
    var baselined: bool
    var baseline: uint32
    var pending: Option<Body>

    function View(): EvState
      reads this
    {
      EvState(mask, baselined, baseline, pending)
    }

    constructor ()
      ensures View() == RESET
    {
      mask, baselined, baseline, pending := Mask(false, false), false, 0, None;
    }

    method DrainSynthetic() returns (notes: seq<Note>)
      modifies this`pending
      ensures notes == Drained(old(View())) && pending == None
    {
      if pending == None { return []; }
      notes := [Synthetic(pending.value)];
      pending := None;
    }

    method EmitPending(alert: uint32) returns (notes: seq<Note>)
      modifies this
      ensures (View(), notes) == Poll(old(View()), alert)
    {
      notes := DrainSynthetic();
      if mask.Empty() { return; }
      if !baselined {
        baseline := alert;
        baselined := true;
        return;
      }
      if alert == baseline { return; }
      var changes: seq<Note> := [];
      if mask.alerts { changes := changes + [LastAlert(alert, baseline)]; }
      if mask.exceptions && DeadEnd(alert) { changes := changes + [DebugException(alert)]; }
      assert changes == ChangeNotes(old(View()), alert);
      notes := notes + changes;
      baseline := alert;
    }

    method Perform(a: Action)
      modifies this
      ensures View() == Act(old(View()), a)
    {
      match a
      case Subscribe(m) => mask := m; baselined := false;
      case Unsubscribe => mask := Mask(false, false); baselined := false;
      case TestEmit(b) => pending := Some(b);
      case Other =>
    }

    /** A closing connection leaves nothing behind. */
    method ClientReset()
      modifies this
      ensures View() == RESET
    {
      mask, baselined, baseline, pending := Mask(false, false), false, 0, None;
    }
  }

  // ---- one connection's history ----

  datatype Step = Sample(alert: uint32) | Request(action: Action)

  function StateAfter(st: EvState, steps: seq<Step>): EvState {
    if steps == [] then st
    else
      var s := StateAfter(st, steps[..|steps|-1]);
      match steps[|steps|-1]
      case Sample(alert) => Poll(s, alert).0
      case Request(a) => Act(s, a)
  }

  function NotesAfter(st: EvState, steps: seq<Step>): seq<Note> {
    if steps == [] then []
    else
      var front := steps[..|steps|-1];
      NotesAfter(st, front) +
      match steps[|steps|-1]
      case Sample(alert) => Poll(StateAfter(st, front), alert).1
      case Request(_) => []
  }

  /** The samples among the steps. */
  function Samples(steps: seq<Step>): seq<uint32> {
    if steps == [] then []
    else
      var last := steps[|steps|-1];
      Samples(steps[..|steps|-1]) + (if last.Sample? then [last.alert] else [])
  }

  /** Steps that leave the subscription alone. */
  predicate KeepsSubscription(steps: seq<Step>) {
    forall i :: 0 <= i < |steps| && steps[i].Request? ==> steps[i].action.TestEmit? || steps[i].action.Other?
  }

  datatype Change = Change(code: uint32, previous: uint32)

  /** The changes in a sequence of samples: every sample that differs from
      the one before it, with that one. The first sample is the baseline. */
  function Changes(samples: seq<uint32>): seq<Change> {
    var n := |samples| - 1;
    if n <= 0 then []
    else Changes(samples[..n]) +
         (if samples[n] == samples[n-1] then [] else [Change(samples[n], samples[n-1])])
  }

  function AlertsOf(notes: seq<Note>): seq<Change> {
    if notes == [] then []
    else
      var last := notes[|notes|-1];
      AlertsOf(notes[..|notes|-1]) + (if last.LastAlert? then [Change(last.code, last.previous)] else [])
  }

  function ExceptionsOf(notes: seq<Note>): seq<uint32> {
    if notes == [] then []
    else
      var last := notes[|notes|-1];
      ExceptionsOf(notes[..|notes|-1]) + (if last.DebugException? then [last.code] else [])
  }

  function DeadEnds(cs: seq<Change>): seq<uint32> {
    if cs == [] then []
    else
      var last := cs[|cs|-1];
      DeadEnds(cs[..|cs|-1]) + (if DeadEnd(last.code) then [last.code] else [])
  }

  lemma {:induction false} AlertsConcat(a: seq<Note>, b: seq<Note>)
    ensures AlertsOf(a + b) == AlertsOf(a) + AlertsOf(b)
    ensures ExceptionsOf(a + b) == ExceptionsOf(a) + ExceptionsOf(b)
  {
    if b == [] {
      assert a + b == a;
    } else {
      assert (a + b)[..|a + b| - 1] == a + b[..|b| - 1];
      AlertsConcat(a, b[..|b| - 1]);
    }
  }

  /** What one poll notifies, read off as changes. */
  lemma PollNotes(st: EvState, alert: uint32)
    ensures var notes := Poll(st, alert).1;
            var changed := !st.mask.Empty() && st.baselined && alert != st.baseline;
            && AlertsOf(notes) == (if changed && st.mask.alerts then [Change(alert, st.baseline)] else [])
            && ExceptionsOf(notes) == (if changed && st.mask.exceptions && DeadEnd(alert) then [alert] else [])
  {
    var d, c := Drained(st), ChangeNotes(st, alert);
    assert AlertsOf(d) == [] && ExceptionsOf(d) == [] by {
      if d != [] { assert d[..0] == []; }
    }
    AlertsConcat(d, c);
    var a := if st.mask.alerts then [LastAlert(alert, st.baseline)] else [];
    var e := if st.mask.exceptions && DeadEnd(alert) then [DebugException(alert)] else [];
    assert a != [] ==> a[..0] == [];
    assert e != [] ==> e[..0] == [];
    AlertsConcat(a, e);
  }

  /** The state and the notifications so far agree with the samples taken
      since the subscription. */
  ghost predicate Tracks(st: EvState, mask: Mask, samples: seq<uint32>, notes: seq<Note>) {
    && st.mask == mask
    && (st.baselined <==> samples != [])
    && (samples != [] ==> st.baseline == samples[|samples|-1])
    && AlertsOf(notes) == (if mask.alerts then Changes(samples) else [])
    && ExceptionsOf(notes) == (if mask.exceptions then DeadEnds(Changes(samples)) else [])
  }

  lemma SampleTracks(st: EvState, mask: Mask, samples: seq<uint32>, notes: seq<Note>, alert: uint32)
    requires Tracks(st, mask, samples, notes) && !mask.Empty()
    ensures Tracks(Poll(st, alert).0, mask, samples + [alert], notes + Poll(st, alert).1)
  {
    PollNotes(st, alert);
    AlertsConcat(notes, Poll(st, alert).1);
    ChangesAppend(samples, alert);
    if NewChange(samples, alert) == [] {
      assert Changes(samples) + [] == Changes(samples);
    } else {
      DeadEndsAppend(Changes(samples), Change(alert, samples[|samples|-1]));
    }
  }

  /** Whatever happened before, after a subscription the notifications are
      exactly the changes in the samples taken since: every change once, in
      order, and nothing else, however many other requests come between. */
  lemma {:induction false} NotifiesExactlyChanges(before: EvState, mask: Mask, steps: seq<Step>)
    requires !mask.Empty() && KeepsSubscription(steps)
    ensures var st := Act(before, Subscribe(mask));
            Tracks(StateAfter(st, steps), mask, Samples(steps), NotesAfter(st, steps))
  {
    var st := Act(before, Subscribe(mask));
    if steps != [] {
      var front, last := steps[..|steps|-1], steps[|steps|-1];
      NotifiesExactlyChanges(before, mask, front);
      StepTracks(StateAfter(st, front), mask, Samples(front), NotesAfter(st, front), last);
      assert Samples(steps) == Samples(front) + (if last.Sample? then [last.alert] else []);
    }
  }

  /** A sample, or a request that leaves the subscription alone. */
  lemma StepTracks(st: EvState, mask: Mask, samples: seq<uint32>, notes: seq<Note>, step: Step)
    requires Tracks(st, mask, samples, notes) && !mask.Empty() && KeepsSubscription([step])
    ensures match step
            case Sample(x) => Tracks(Poll(st, x).0, mask, samples + [x], notes + Poll(st, x).1)
            case Request(a) => Tracks(Act(st, a), mask, samples + [], notes + [])
  {
    if step.Sample? {
      SampleTracks(st, mask, samples, notes, step.alert);
    } else {
      assert [step][0] == step;
      assert notes + [] == notes && samples + [] == samples;
    }
  }

  predicate NeverSubscribes(steps: seq<Step>) {
    forall i :: 0 <= i < |steps| && steps[i].Request? ==> !steps[i].action.Subscribe?
  }

  /** From an unsubscribe on, in whatever state, until the next subscribe no
      change is notified. */
  lemma {:induction false} SilentUnsubscribed(before: EvState, steps: seq<Step>)
    requires NeverSubscribes(steps)
    ensures var st := Act(before, Unsubscribe);
            && StateAfter(st, steps).mask.Empty()
            && AlertsOf(NotesAfter(st, steps)) == [] && ExceptionsOf(NotesAfter(st, steps)) == []
  {
    if steps != [] {
      var n := |steps| - 1;
      var st := Act(before, Unsubscribe);
      var s := StateAfter(st, steps[..n]);
      SilentUnsubscribed(before, steps[..n]);
      if steps[n].Sample? {
        PollNotes(s, steps[n].alert);
        AlertsConcat(NotesAfter(st, steps[..n]), Poll(s, steps[n].alert).1);
      } else {
        assert NotesAfter(st, steps) == NotesAfter(st, steps[..n]);
      }
    }
  }

  /** So it is from the start of a connection, until the first subscribe. */
  lemma SilentAtFirst(steps: seq<Step>)
    requires NeverSubscribes(steps)
    ensures AlertsOf(NotesAfter(RESET, steps)) == [] && ExceptionsOf(NotesAfter(RESET, steps)) == []
  {
    SilentUnsubscribed(RESET, steps);
    assert Act(RESET, Unsubscribe) == RESET;
  }

  /** The dead-end flag is bit 31. */
  lemma DeadEndIsTopBit(code: uint32)
    ensures DeadEnd(code) <==> code / 2147483648 % 2 == 1
  {
  }

  /** The change a further sample makes, if it makes one. */
  function NewChange(samples: seq<uint32>, x: uint32): seq<Change> {
    if samples == [] || x == samples[|samples|-1] then [] else [Change(x, samples[|samples|-1])]
  }

  lemma ChangesAppend(samples: seq<uint32>, x: uint32)
    ensures Changes(samples + [x]) == Changes(samples) + NewChange(samples, x)
  {
  }

  lemma DeadEndsAppend(cs: seq<Change>, c: Change)
    ensures DeadEnds(cs + [c]) == DeadEnds(cs) + (if DeadEnd(c.code) then [c.code] else [])
  {
  }

  /** The changes form a chain from the baseline to the current code: each
      one's previous is the code of the one before, and no change repeats
      its predecessor. */
  lemma {:induction false} ChangesChain(samples: seq<uint32>)
    requires samples != []
    ensures var cs := Changes(samples);
            && (cs != [] ==> cs[0].previous == samples[0])
            && (forall k :: 0 < k < |cs| ==> cs[k].previous == cs[k-1].code)
            && (forall k :: 0 <= k < |cs| ==> cs[k].code != cs[k].previous)
            && samples[|samples|-1] == (if cs == [] then samples[0] else cs[|cs|-1].code)
  {
    var n := |samples| - 1;
    if n > 0 {
      ChangesChain(samples[..n]);
    }
  }

  predicate DiffersAt(samples: seq<uint32>, i: nat) {
    0 < i < |samples| && samples[i] != samples[i-1]
  }

  /** Every sample that differs from its predecessor is reported, no other. */
  lemma {:induction false} OneChangePerDifference(samples: seq<uint32>)
    ensures |Changes(samples)| == |set i: nat | i < |samples| && DiffersAt(samples, i)|
  {
    var n := |samples| - 1;
    var now := set i: nat | i < |samples| && DiffersAt(samples, i);
    if n <= 0 {
      assert now == {};
    } else {
      OneChangePerDifference(samples[..n]);
      var was := set i: nat | i < |samples[..n]| && DiffersAt(samples[..n], i);
      assert now == was + (if samples[n] == samples[n-1] then {} else {n});
    }
  }

  // ---- the synthetic slot ----

  function SyntheticsOf(notes: seq<Note>): seq<Body> {
    if notes == [] then []
    else
      var last := notes[|notes|-1];
      SyntheticsOf(notes[..|notes|-1]) + (if last.Synthetic? then [last.body] else [])
  }

  /** The body the slot holds after the steps: the last one emitted since the
      last sample. */
  function Waiting(steps: seq<Step>): Option<Body> {
    if steps == [] then None
    else
      match steps[|steps|-1]
      case Sample(_) => None
      case Request(TestEmit(b)) => Some(b)
      case Request(_) => Waiting(steps[..|steps|-1])
  }

  /** Per sample, the body waiting just before it. */
  function Delivered(steps: seq<Step>): seq<Body> {
    if steps == [] then []
    else
      var front := steps[..|steps|-1];
      Delivered(front) +
      (if steps[|steps|-1].Sample? && Waiting(front).Some? then [Waiting(front).value] else [])
  }

  lemma {:induction false} SyntheticsConcat(a: seq<Note>, b: seq<Note>)
    ensures SyntheticsOf(a + b) == SyntheticsOf(a) + SyntheticsOf(b)
  {
    if b == [] {
      assert a + b == a;
    } else {
      assert (a + b)[..|a + b| - 1] == a + b[..|b| - 1];
      SyntheticsConcat(a, b[..|b| - 1]);
    }
  }

  lemma PollSynthetics(st: EvState, alert: uint32)
    ensures SyntheticsOf(Poll(st, alert).1) == (if st.pending.Some? then [st.pending.value] else [])
  {
    DrainedSynthetics(st);
    ChangeSynthetics(st, alert);
    SyntheticsConcat(Drained(st), ChangeNotes(st, alert));
  }

  lemma DrainedSynthetics(st: EvState)
    ensures SyntheticsOf(Drained(st)) == if st.pending.Some? then [st.pending.value] else []
  {
    if st.pending.Some? { assert Drained(st)[..0] == []; }
  }

  lemma ChangeSynthetics(st: EvState, alert: uint32)
    ensures SyntheticsOf(ChangeNotes(st, alert)) == []
  {
    var c := ChangeNotes(st, alert);
    if c != [] { SyntheticsEnd(c); }
    if |c| == 2 { SyntheticsEnd(c[..1]); }
  }

  lemma SyntheticsEnd(c: seq<Note>)
    requires c != [] && !c[|c|-1].Synthetic?
    ensures SyntheticsOf(c) == SyntheticsOf(c[..|c|-1])
  {
  }

  /** Subscribed or not, each synthetic notification goes out once, with the
      next sample, unless a later one replaced it first. */
  lemma {:induction false} DeliversSynthetics(steps: seq<Step>)
    ensures StateAfter(RESET, steps).pending == Waiting(steps)
    ensures SyntheticsOf(NotesAfter(RESET, steps)) == Delivered(steps)
  {
    if steps != [] {
      var n := |steps| - 1;
      DeliversSynthetics(steps[..n]);
      if steps[n].Sample? {
        var s := StateAfter(RESET, steps[..n]);
        PollSynthetics(s, steps[n].alert);
        SyntheticsConcat(NotesAfter(RESET, steps[..n]), Poll(s, steps[n].alert).1);
      } else {
        assert NotesAfter(RESET, steps) == NotesAfter(RESET, steps[..n]);
      }
    }
  }
}
