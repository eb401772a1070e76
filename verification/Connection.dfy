/** One client's connection: wait, read a request, dispatch it, let pending
    notifications lead, answer. Selection, dispatch, crash reports and the
    alert code are the world's doing. */
module Connection {
  import opened CTypes
  import opened Events
  import opened Frame
  import opened Sequences
  import opened Wrappers

  /** What round k meets. `select` < 0 is a socket error, 0 a timeout, else
      data is waiting; `dispatch` is None when the dispatcher gives up. */
  datatype World = World(
    select: nat -> int,
    alert: nat -> uint32,
    crash: nat -> seq<Payload>,
    dispatch: (nat, Payload) -> Option<(Action, Payload)>,
    encode: Note -> Payload)

  /** Notifications are non-empty and fit a frame; responses may not fit. */
  ghost predicate Sane(w: World) {
    && (forall n :: Legal(w.encode(n)))
    && (forall k: nat, i: nat :: i < |w.crash(k)| ==> Legal(w.crash(k)[i]))
    && (forall k: nat, p :: w.dispatch(k, p).Some? ==> |w.dispatch(k, p).value.1| > 0)
  }

  datatype Entry = Crash(body: Payload) | Notice(note: Note) | Response(body: Payload)

  /** A completed round. */
  datatype Round =
    | Idle(crash: seq<Payload>, alert: uint32)
    | Served(request: Payload, action: Action, crash: seq<Payload>, alert: uint32, response: Payload)

  /** The round is what the world had in store for it. */
  ghost predicate Happened(w: World, k: nat, r: Round) {
    && r.crash == w.crash(k) && r.alert == w.alert(k)
    && match r
       case Idle(_, _) => w.select(k) == 0
       case Served(req, action, _, _, resp) => w.select(k) > 0 && w.dispatch(k, req) == Some((action, resp))
  }

  ghost predicate AllHappened(w: World, rs: seq<Round>) {
    forall k :: 0 <= k < |rs| ==> Happened(w, k, rs[k])
  }

  function Steps(rs: seq<Round>): seq<Step> {
    if rs == [] then []
    else
      var r := rs[|rs|-1];
      Steps(rs[..|rs|-1]) + RoundSteps(r)
  }

  function RoundSteps(r: Round): seq<Step> {
    match r
    case Idle(_, alert) => [Sample(alert)]
    case Served(_, a, _, alert, _) => [Request(a), Sample(alert)]
  }

  function CrashEntries(ps: seq<Payload>): (es: seq<Entry>)
    ensures |es| == |ps| && forall i :: 0 <= i < |ps| ==> es[i] == Crash(ps[i])
  {
    seq(|ps|, i requires 0 <= i < |ps| => Crash(ps[i]))
  }

  function NoticeEntries(ns: seq<Note>): (es: seq<Entry>)
    ensures |es| == |ns| && forall i :: 0 <= i < |ns| ==> es[i] == Notice(ns[i])
  {
    seq(|ns|, i requires 0 <= i < |ns| => Notice(ns[i]))
  }

  function RoundNotes(st: EvState, r: Round): seq<Note> {
    match r
    case Idle(_, alert) => Poll(st, alert).1
    case Served(_, a, _, alert, _) => Poll(Act(st, a), alert).1
  }

  function RoundState(st: EvState, r: Round): EvState {
    match r
    case Idle(_, alert) => Poll(st, alert).0
    case Served(_, a, _, alert, _) => Poll(Act(st, a), alert).0
  }

  function RoundNotices(st: EvState, r: Round): seq<Entry> {
    CrashEntries(r.crash) + NoticeEntries(RoundNotes(st, r))
  }

  /** What a round puts on the wire: its notifications, then its response. */
  function RoundLog(st: EvState, r: Round): seq<Entry> {
    RoundNotices(st, r) + (if r.Served? then [Response(r.response)] else [])
  }

  function Log(rs: seq<Round>): seq<Entry> {
    if rs == [] then []
    else Log(rs[..|rs|-1]) + RoundLog(StateAfter(RESET, Steps(rs[..|rs|-1])), rs[|rs|-1])
  }

  function Body(w: World, e: Entry): Payload {
    match e
    case Crash(b) => b
    case Notice(n) => w.encode(n)
    case Response(b) => b
  }

  function Bodies(w: World, es: seq<Entry>): (ps: seq<Payload>)
    ensures |ps| == |es| && forall i :: 0 <= i < |es| ==> ps[i] == Body(w, es[i])
  {
    seq(|es|, i requires 0 <= i < |es| => Body(w, es[i]))
  }

  lemma BodiesConcat(w: World, a: seq<Entry>, b: seq<Entry>)
    ensures Bodies(w, a + b) == Bodies(w, a) + Bodies(w, b)
  {
  }

  function RequestOf(r: Round): seq<Payload> {
    if r.Served? then [r.request] else []
  }

  function Requests(rs: seq<Round>): seq<Payload> {
    if rs == [] then []
    else
      var r := rs[|rs|-1];
      Requests(rs[..|rs|-1]) + RequestOf(r)
  }

  // ---- the connection loop ----

  function Encoded(w: World, ns: seq<Note>): (ps: seq<Payload>)
    ensures |ps| == |ns| && forall i :: 0 <= i < |ns| ==> ps[i] == w.encode(ns[i])
  {
    seq(|ns|, i requires 0 <= i < |ns| => w.encode(ns[i]))
  }

  /** The bytes sent so far are the given frames, or, once the socket has
      failed, a prefix of them. */
  ghost predicate Sent(outgoing: seq<uint8>, broken: bool, ps: seq<Payload>) {
    if broken then outgoing <= WireAll(ps) else outgoing == WireAll(ps)
  }

  lemma WireAllAppend(ps: seq<Payload>, p: Payload)
    ensures WireAll(ps + [p]) == WireAll(ps) + Wire(p)
  {
  }

  /** One frame; when it cannot be sent whole the socket is broken, unless it
      was too long to send at all. */
  method SendOne(sock: Socket, p: Payload, ghost sent: seq<Payload>) returns (ok: bool)
    requires Sent(sock.outgoing, sock.broken, sent)
    modifies sock
    ensures ok || |p| <= MAX_PAYLOAD ==> Sent(sock.outgoing, sock.broken, sent + [p])
    ensures !ok && !sock.broken ==> Sent(sock.outgoing, false, sent)
    ensures !ok && sock.broken ==> Sent(sock.outgoing, true, sent + [p])
    ensures ok ==> |p| <= MAX_PAYLOAD && !sock.broken
    ensures sock.incoming == old(sock.incoming)
  {
    WireAllAppend(sent, p);
    ok := sock.FrameWrite(p);
  }

  /** Sends notifications, ignoring failures as the daemon does. */
  method SendIgnoring(sock: Socket, ps: seq<Payload>, ghost sent: seq<Payload>)
    requires forall i :: 0 <= i < |ps| ==> Legal(ps[i])
    requires Sent(sock.outgoing, sock.broken, sent)
    modifies sock
    ensures Sent(sock.outgoing, sock.broken, sent + ps)
    ensures sock.incoming == old(sock.incoming)
  {
    assert sent + ps[..0] == sent;
    for i := 0 to |ps|
      invariant Sent(sock.outgoing, sock.broken, sent + ps[..i])
      invariant sock.incoming == old(sock.incoming)
    {
      var _ := SendOne(sock, ps[i], sent + ps[..i]);
      assert sent + ps[..i] + [ps[i]] == sent + ps[..i+1];
    }
    assert sent + ps[..|ps|] == sent + ps;
  }

  /** Sends a round's notifications: crash reports, then events. */
  method SendNotices(sock: Socket, ev: Subscription, w: World, crash: seq<Payload>, alert: uint32,
                     ghost sent: seq<Payload>)
    requires Sane(w) && Sent(sock.outgoing, sock.broken, sent)
    requires forall i :: 0 <= i < |crash| ==> Legal(crash[i])
    modifies sock, ev
    ensures ev.View() == Poll(old(ev.View()), alert).0
    ensures Sent(sock.outgoing, sock.broken, sent + crash + Encoded(w, Poll(old(ev.View()), alert).1))
    ensures sock.incoming == old(sock.incoming)
  {
    SendIgnoring(sock, crash, sent);
    var notes := ev.EmitPending(alert);
    SendIgnoring(sock, Encoded(w, notes), sent + crash);
  }

  /** A parsed frame is what its sender wrote. */
  lemma ParsedIsWire(s: seq<uint8>)
    requires ParseFrame(s).Some?
    ensures s == Wire(ParseFrame(s).value.0) + ParseFrame(s).value.1
    ensures Legal(ParseFrame(s).value.0)
  {
    HeaderOfLength(s[0], s[1], s[2], s[3]);
    assert s == s[..4] + s[4..4 + Length(s)] + s[4 + Length(s)..];
    assert s[..4] == Header(Length(s));
  }

  lemma HeaderOfLength(a: uint8, b: uint8, c: uint8, d: uint8)
    ensures Header(BigEndian(a, b, c, d)) == [a, b, c, d]
  {
    var n := BigEndian(a, b, c, d);
    assert n / 0x100 == a * 0x1_0000 + b * 0x100 + c;
    assert n / 0x1_0000 == n / 0x100 / 0x100 == a * 0x100 + b;
    assert n / 0x100_0000 == n / 0x1_0000 / 0x100 == a;
  }

  lemma ReadsOne(read: seq<Payload>, p: Payload, input: seq<uint8>, before: seq<uint8>, after: seq<uint8>)
    requires input == WireAll(read) + before && ParseFrame(before) == Some((p, after))
    ensures input == WireAll(read + [p]) + after && Legal(p)
  {
    ParsedIsWire(before);
    WireAllAppend(read, p);
    Associate(WireAll(read), Wire(p), after);
  }

  /** What a round puts on the wire, as payloads. */
  function RoundBodies(w: World, st: EvState, r: Round): seq<Payload> {
    r.crash + Encoded(w, RoundNotes(st, r)) + (if r.Served? then [r.response] else [])
  }

  lemma RoundBodiesAre(w: World, st: EvState, r: Round)
    ensures RoundBodies(w, st, r) == Bodies(w, RoundLog(st, r))
    ensures r.crash + Encoded(w, RoundNotes(st, r)) == Bodies(w, RoundNotices(st, r))
  {
  }

  ghost predicate AllLegal(ps: seq<Payload>) {
    forall i :: 0 <= i < |ps| ==> Legal(ps[i])
  }

  /** What the loop has done so far, as values. */
  datatype Book = Book(trace: seq<Round>, sent: seq<Payload>, st: EvState, read: seq<Payload>)

  ghost predicate Balanced(w: World, b: Book) {
    && b.sent == Bodies(w, Log(b.trace)) && AllLegal(b.sent)
    && b.st == StateAfter(RESET, Steps(b.trace))
    && b.read == Requests(b.trace) && AllLegal(b.read)
  }

  ghost function Booked(w: World, b: Book, r: Round): Book {
    Book(b.trace + [r], b.sent + RoundBodies(w, b.st, r), RoundState(b.st, r),
         b.read + RequestOf(r))
  }

  lemma SentBalances(w: World, rs: seq<Round>, r: Round)
    ensures Bodies(w, Log(rs + [r]))
         == Bodies(w, Log(rs)) + RoundBodies(w, StateAfter(RESET, Steps(rs)), r)
  {
    var st := StateAfter(RESET, Steps(rs));
    LogAppend(rs, r);
    RoundBodiesAre(w, st, r);
    BodiesConcat(w, Log(rs), RoundLog(st, r));
  }

  lemma AllLegalBoth(a: seq<Payload>, b: seq<Payload>)
    requires AllLegal(a) && AllLegal(b)
    ensures AllLegal(a + b)
  {
  }

  lemma BookedBalances(w: World, b: Book, r: Round)
    requires Balanced(w, b) && AllLegal(RoundBodies(w, b.st, r)) && (r.Served? ==> Legal(r.request))
    ensures Balanced(w, Booked(w, b, r))
  {
    LogAppend(b.trace, r);
    SentBalances(w, b.trace, r);
    AllLegalBoth(b.sent, RoundBodies(w, b.st, r));
    AllLegalBoth(b.read, RequestOf(r));
  }

  /** The socket and the subscription are where the book says. */
  ghost predicate Matches(sock: Socket, ev: Subscription, b: Book)
    reads sock, ev
  {
    Sent(sock.outgoing, sock.broken, b.sent) && ev.View() == b.st
  }

  /** A timeout: notifications only. */
  method IdleRound(sock: Socket, ev: Subscription, w: World, k: nat, ghost b: Book) returns (ghost r: Round)
    requires Sane(w) && Matches(sock, ev, b)
    modifies sock, ev
    ensures r == Idle(w.crash(k), w.alert(k)) && AllLegal(RoundBodies(w, b.st, r)) && Matches(sock, ev, Booked(w, b, r))
    ensures sock.incoming == old(sock.incoming)
  {
    var crash, alert := w.crash(k), w.alert(k);
    r := Idle(crash, alert);
    SendNotices(sock, ev, w, crash, alert, b.sent);
    ghost var notes := Poll(b.st, alert).1;
    assert b.sent + RoundBodies(w, b.st, r) == b.sent + crash + Encoded(w, notes);
  }

  /** A dispatched request: its action, the notifications, the response. */
  method AnswerRound(sock: Socket, ev: Subscription, w: World, k: nat, req: Payload,
                     action: Action, resp: Payload, ghost b: Book)
    returns (wrote: bool, ghost r: Round)
    requires Sane(w) && Matches(sock, ev, b) && |resp| > 0
    modifies sock, ev
    ensures r == Served(req, action, w.crash(k), w.alert(k), resp)
    ensures wrote ==> AllLegal(RoundBodies(w, b.st, r)) && Matches(sock, ev, Booked(w, b, r))
    ensures !wrote ==> Sent(sock.outgoing, sock.broken, b.sent + Partial(w, b.st, Some(r), sock.broken))
    ensures sock.incoming == old(sock.incoming)
  {
    ev.Perform(action);
    var crash, alert := w.crash(k), w.alert(k);
    r := Served(req, action, crash, alert, resp);
    ghost var notices := b.sent + crash + Encoded(w, RoundNotes(b.st, r));
    SendNotices(sock, ev, w, crash, alert, b.sent);
    wrote := SendOne(sock, resp, notices);
    assert notices == b.sent + (crash + Encoded(w, RoundNotes(b.st, r)));
    assert notices + [resp] == b.sent + RoundBodies(w, b.st, r);
  }

  /** What was attempted in the last round, if it did not complete: with a
      working socket the response was too long and only the notifications
      went out. */
  ghost function Partial(w: World, st: EvState, last: Option<Round>, broken: bool): seq<Payload> {
    match last
    case None => []
    case Some(r) => if broken then RoundBodies(w, st, r) else r.crash + Encoded(w, RoundNotes(st, r))
  }

  lemma OneMoreHappened(w: World, rs: seq<Round>, r: Round)
    requires AllHappened(w, rs) && Happened(w, |rs|, r)
    ensures AllHappened(w, rs + [r])
  {
  }

  /** The round can be booked: it happened, its frames were legal, and socket
      and subscription are where the book will say. */
  ghost predicate Completed(sock: Socket, ev: Subscription, w: World, k: nat, b: Book, r: Round)
    reads sock, ev
  {
    && Happened(w, k, r) && AllLegal(RoundBodies(w, b.st, r)) && (r.Served? ==> Legal(r.request))
    && Matches(sock, ev, Booked(w, b, r))
  }

  /** A request that was read: it is answered, or the connection ends with
      it. */
  method Answer(sock: Socket, ev: Subscription, w: World, k: nat, req: Payload, ghost b: Book)
    returns (more: bool, ghost r: Option<Round>)
    requires Sane(w) && Matches(sock, ev, b) && Legal(req) && w.select(k) > 0
    modifies sock, ev
    ensures sock.incoming == old(sock.incoming)
    ensures r.Some? ==> r.value.Served? && r.value.request == req && Happened(w, k, r.value)
    ensures more ==> r.Some? && Completed(sock, ev, w, k, b, r.value)
    ensures !more ==> Sent(sock.outgoing, sock.broken, b.sent + Partial(w, b.st, r, sock.broken))
  {
    var d := w.dispatch(k, req);
    if d == None {
      assert b.sent + [] == b.sent;
      return false, None;
    }
    ghost var s;
    more, s := AnswerRound(sock, ev, w, k, req, d.value.0, d.value.1, b);
    r := Some(s);
  }

  /** Round k of a connection. If it completes, `done` is what happened; else
      the connection ends: `last` is a round whose response could not be
      sent, `dropped` a request that is not answered. */
  method ServeRound(sock: Socket, ev: Subscription, w: World, k: nat, ghost b: Book, ghost input: seq<uint8>)
    returns (more: bool, ghost done: Option<Round>, ghost last: Option<Round>, ghost dropped: seq<Payload>)
    requires Sane(w) && Matches(sock, ev, b) && input == WireAll(b.read) + sock.incoming
    modifies sock, ev
    ensures more == done.Some?
    ensures more ==> last == None && dropped == [] && Completed(sock, ev, w, k, b, done.value)
                     && input == WireAll(b.read + RequestOf(done.value)) + sock.incoming
    ensures !more ==> Sent(sock.outgoing, sock.broken, b.sent + Partial(w, b.st, last, sock.broken))
    ensures !more && dropped != [] ==> input == WireAll(b.read + dropped) + sock.incoming
    ensures |dropped| <= 1 && AllLegal(dropped) && (!more ==> w.select(k) != 0)
    ensures last.Some? ==> Happened(w, k, last.value) && last.value.Served? && dropped == [last.value.request]
  {
    more, done, last, dropped := false, None, None, [];
    assert b.sent + [] == b.sent && b.read + [] == b.read;
    var sel := w.select(k);
    if sel < 0 { return; }
    if sel == 0 {
      ghost var r := IdleRound(sock, ev, w, k, b);
      return true, Some(r), None, [];
    }
    var req := ReadRequest(sock, b.read, input);
    if req == None { return; }
    ghost var r;
    more, r := Answer(sock, ev, w, k, req.value, b);
    if more { done := r; } else { last, dropped := r, [req.value]; }
  }

  /** Serves a connection for up to `limit` rounds. The book tells the
      rounds that completed; the unread rest may begin with part of a frame. */
  method ServeRounds(sock: Socket, ev: Subscription, w: World, limit: nat)
    returns (ghost b: Book, ghost last: Option<Round>, ghost dropped: seq<Payload>, ghost rest: seq<uint8>)
    requires Sane(w) && sock.outgoing == [] && !sock.broken && ev.View() == RESET
    modifies sock, ev
    ensures Balanced(w, b) && AllHappened(w, b.trace)
    ensures Sent(sock.outgoing, sock.broken, b.sent + Partial(w, b.st, last, sock.broken))
    ensures old(sock.incoming) == WireAll(b.read + dropped) + rest && AllLegal(dropped) && |dropped| <= 1
    ensures last.Some? ==> Happened(w, |b.trace|, last.value) && last.value.Served? && dropped == [last.value.request]
    ensures |b.trace| <= limit && (|b.trace| < limit ==> w.select(|b.trace|) != 0)
  {
    b, last, dropped, rest := Book([], [], RESET, []), None, [], sock.incoming;
    ghost var input := sock.incoming;
    assert [] + input == input;
    var k := 0;
    while k < limit
      invariant k == |b.trace| <= limit && AllHappened(w, b.trace) && Balanced(w, b)
      invariant Matches(sock, ev, b) && last == None && dropped == []
      invariant rest == sock.incoming && input == WireAll(b.read) + rest
    {
      var more;
      ghost var done;
      more, done, last, dropped := ServeRound(sock, ev, w, k, b, input);
      if !more {
        assert b.read + [] == b.read;
        if dropped != [] { rest := sock.incoming; }
        return;
      }
      BookedBalances(w, b, done.value);
      OneMoreHappened(w, b.trace, done.value);
      b, rest, k := Booked(w, b, done.value), sock.incoming, k + 1;
    }
    assert b.sent + [] == b.sent && b.read + [] == b.read;
  }

  /** What goes over a whole connection. Every frame read but at most the
      last is answered; unless the socket failed or a response was too long,
      the client parses exactly the log of the completed rounds. */
  method HandleConnection(sock: Socket, ev: Subscription, w: World, limit: nat)
    returns (ghost trace: seq<Round>, ghost last: Option<Round>, ghost dropped: seq<Payload>, ghost rest: seq<uint8>)
    requires Sane(w) && sock.outgoing == [] && !sock.broken && ev.View() == RESET
    modifies sock, ev
    ensures Sent(sock.outgoing, sock.broken,
                 Bodies(w, Log(trace)) + Partial(w, StateAfter(RESET, Steps(trace)), last, sock.broken))
    ensures !sock.broken && last == None ==> ParseAll(sock.outgoing) == Some(Bodies(w, Log(trace)))
    ensures old(sock.incoming) == WireAll(Requests(trace) + dropped) + rest
    ensures AllLegal(Requests(trace)) && AllLegal(dropped) && |dropped| <= 1
    ensures AllHappened(w, trace) && |trace| <= limit && (|trace| < limit ==> w.select(|trace|) != 0)
    ensures last.Some? ==> Happened(w, |trace|, last.value) && last.value.Served? && dropped == [last.value.request]
  {
    ghost var b;
    b, last, dropped, rest := ServeRounds(sock, ev, w, limit);
    trace := b.trace;
    assert b.sent + [] == b.sent;
    ClientParses(sock.outgoing, b.sent);
  }

  lemma ClientParses(outgoing: seq<uint8>, sent: seq<Payload>)
    requires AllLegal(sent)
    ensures outgoing == WireAll(sent) ==> ParseAll(outgoing) == Some(sent)
  {
    ParseAllWritten(sent);
  }

  method ReadRequest(sock: Socket, ghost read: seq<Payload>, ghost input: seq<uint8>) returns (req: Option<Payload>)
    requires input == WireAll(read) + sock.incoming
    modifies sock`incoming, sock`calls
    ensures req.Some? ==> Legal(req.value) && input == WireAll(read + [req.value]) + sock.incoming
  {
    ghost var before := sock.incoming;
    req := sock.FrameRead();
    if req.Some? { ReadsOne(read, req.value, input, before, sock.incoming); }
  }

  lemma LogAppend(rs: seq<Round>, r: Round)
    ensures Log(rs + [r]) == Log(rs) + RoundLog(StateAfter(RESET, Steps(rs)), r)
    ensures Requests(rs + [r]) == Requests(rs) + RequestOf(r)
    ensures StateAfter(RESET, Steps(rs + [r])) == RoundState(StateAfter(RESET, Steps(rs)), r)
    ensures NotesAfter(RESET, Steps(rs + [r]))
         == NotesAfter(RESET, Steps(rs)) + RoundNotes(StateAfter(RESET, Steps(rs)), r)
  {
    assert (rs + [r])[..|rs|] == rs;
    StateOfMore(RESET, Steps(rs), r);
  }

  lemma StateOfMore(st: EvState, steps: seq<Step>, r: Round)
    ensures StateAfter(st, steps + RoundSteps(r)) == RoundState(StateAfter(st, steps), r)
    ensures NotesAfter(st, steps + RoundSteps(r)) == NotesAfter(st, steps) + RoundNotes(StateAfter(st, steps), r)
  {
    if r.Idle? {
      assert (steps + [Sample(r.alert)])[..|steps|] == steps;
    } else {
      var mid := steps + [Request(r.action)];
      assert mid[..|steps|] == steps;
      assert steps + RoundSteps(r) == mid + [Sample(r.alert)];
      assert (mid + [Sample(r.alert)])[..|mid|] == mid;
      assert NotesAfter(st, mid) == NotesAfter(st, steps) + [] == NotesAfter(st, steps);
    }
  }

  // ---- what the client can rely on ----

  function ResponsesOf(es: seq<Entry>): seq<Payload> {
    if es == [] then []
    else
      var e := es[|es|-1];
      ResponsesOf(es[..|es|-1]) + (if e.Response? then [e.body] else [])
  }

  function NoticesOf(es: seq<Entry>): seq<Note> {
    if es == [] then []
    else
      var e := es[|es|-1];
      NoticesOf(es[..|es|-1]) + (if e.Notice? then [e.note] else [])
  }

  function CrashesOf(es: seq<Entry>): seq<Payload> {
    if es == [] then []
    else
      var e := es[|es|-1];
      CrashesOf(es[..|es|-1]) + (if e.Crash? then [e.body] else [])
  }

  /** The crash reports the rounds found pending, in order. */
  function CrashReports(rs: seq<Round>): seq<Payload> {
    if rs == [] then [] else CrashReports(rs[..|rs|-1]) + rs[|rs|-1].crash
  }

  /** The responses the rounds owe: one per request, in order. */
  function Answers(rs: seq<Round>): seq<Payload> {
    if rs == [] then []
    else
      var r := rs[|rs|-1];
      Answers(rs[..|rs|-1]) + (if r.Served? then [r.response] else [])
  }

  lemma {:induction false} EntriesConcat(a: seq<Entry>, b: seq<Entry>)
    ensures ResponsesOf(a + b) == ResponsesOf(a) + ResponsesOf(b)
    ensures NoticesOf(a + b) == NoticesOf(a) + NoticesOf(b)
  {
    if b == [] {
      assert a + b == a;
    } else {
      var n := |b| - 1;
      assert (a + b)[..|a| + n] == a + b[..n];
      EntriesConcat(a, b[..n]);
    }
  }

  lemma {:induction false} CrashesConcat(a: seq<Entry>, b: seq<Entry>)
    ensures CrashesOf(a + b) == CrashesOf(a) + CrashesOf(b)
  {
    if b == [] {
      assert a + b == a;
    } else {
      var n := |b| - 1;
      assert (a + b)[..|a| + n] == a + b[..n];
      CrashesConcat(a, b[..n]);
    }
  }

  lemma {:induction false} CrashesOnly(ps: seq<Payload>)
    ensures ResponsesOf(CrashEntries(ps)) == [] && NoticesOf(CrashEntries(ps)) == [] && CrashesOf(CrashEntries(ps)) == ps
  {
    if ps != [] {
      CrashesOnly(ps[..|ps|-1]);
      assert CrashEntries(ps)[..|ps|-1] == CrashEntries(ps[..|ps|-1]);
    }
  }

  lemma {:induction false} NoticesOnly(ns: seq<Note>)
    ensures ResponsesOf(NoticeEntries(ns)) == [] && NoticesOf(NoticeEntries(ns)) == ns
    ensures CrashesOf(NoticeEntries(ns)) == []
  {
    if ns != [] {
      NoticesOnly(ns[..|ns|-1]);
      assert NoticeEntries(ns)[..|ns|-1] == NoticeEntries(ns[..|ns|-1]);
    }
  }

  lemma NoticesContents(st: EvState, r: Round)
    ensures ResponsesOf(RoundNotices(st, r)) == [] && NoticesOf(RoundNotices(st, r)) == RoundNotes(st, r)
    ensures CrashesOf(RoundNotices(st, r)) == r.crash
  {
    CrashesOnly(r.crash);
    NoticesOnly(RoundNotes(st, r));
    EntriesConcat(CrashEntries(r.crash), NoticeEntries(RoundNotes(st, r)));
    CrashesConcat(CrashEntries(r.crash), NoticeEntries(RoundNotes(st, r)));
  }

  lemma AnswerContents(p: Payload)
    ensures ResponsesOf([Response(p)]) == [p] && NoticesOf([Response(p)]) == [] && CrashesOf([Response(p)]) == []
  {
  }

  lemma RoundContents(st: EvState, r: Round)
    ensures ResponsesOf(RoundLog(st, r)) == (if r.Served? then [r.response] else [])
    ensures NoticesOf(RoundLog(st, r)) == RoundNotes(st, r) && CrashesOf(RoundLog(st, r)) == r.crash
  {
    NoticesContents(st, r);
    if r.Served? {
      AnswerContents(r.response);
      EntriesConcat(RoundNotices(st, r), [Response(r.response)]);
      CrashesConcat(RoundNotices(st, r), [Response(r.response)]);
    } else {
      assert RoundNotices(st, r) + [] == RoundNotices(st, r);
    }
  }

  /** A connection's output holds exactly one response per served request, in
      request order, exactly the notifications its events produce, and every
      crash report once. */
  lemma {:induction false} OneResponsePerRequest(rs: seq<Round>)
    ensures ResponsesOf(Log(rs)) == Answers(rs) && |Answers(rs)| == |Requests(rs)|
    ensures NoticesOf(Log(rs)) == NotesAfter(RESET, Steps(rs)) && CrashesOf(Log(rs)) == CrashReports(rs)
  {
    if rs != [] {
      var front, r := rs[..|rs|-1], rs[|rs|-1];
      assert rs == front + [r];
      OneResponsePerRequest(front);
      LogAppend(front, r);
      var st := StateAfter(RESET, Steps(front));
      RoundContents(st, r);
      EntriesConcat(Log(front), RoundLog(st, r));
      CrashesConcat(Log(front), RoundLog(st, r));
    }
  }

  ghost predicate Leads(pre: seq<Entry>, rs: seq<Round>, j: nat)
    requires j < |rs|
  {
    ResponsesOf(pre) == Answers(rs[..j]) && NoticesOf(pre) == NotesAfter(RESET, Steps(rs[..j+1]))
  }

  /** The log just before the response of the last round. */
  function Lead(front: seq<Round>, r: Round): seq<Entry> {
    Log(front) + RoundNotices(StateAfter(RESET, Steps(front)), r)
  }

  lemma LogEndsWithResponse(front: seq<Round>, r: Round)
    requires r.Served?
    ensures Lead(front, r) + [Response(r.response)] == Log(front + [r])
  {
  }

  lemma LeadContents(front: seq<Round>, r: Round)
    ensures ResponsesOf(Lead(front, r)) == Answers(front)
    ensures NoticesOf(Lead(front, r)) == NotesAfter(RESET, Steps(front + [r]))
  {
    var st := StateAfter(RESET, Steps(front));
    LogAppend(front, r);
    OneResponsePerRequest(front);
    NoticesContents(st, r);
    EntriesConcat(Log(front), RoundNotices(st, r));
  }

  lemma {:induction false} LogGrows(rs: seq<Round>, n: nat)
    requires n <= |rs|
    ensures Log(rs[..n]) <= Log(rs)
  {
    if n < |rs| {
      var front := rs[..|rs|-1];
      LogGrows(front, n);
      assert front[..n] == rs[..n];
    } else {
      assert rs[..n] == rs;
    }
  }

  /** The notifications of a round lead its response: when the response of
      round j arrives, the client has every earlier response and every
      notification up to that round, and none of a later one. */
  lemma NoticesLeadResponse(rs: seq<Round>, j: nat) returns (pre: seq<Entry>)
    requires j < |rs| && rs[j].Served?
    ensures pre + [Response(rs[j].response)] <= Log(rs) && Leads(pre, rs, j)
  {
    var front, r := rs[..j], rs[j];
    assert front + [r] == rs[..j+1];
    pre := Lead(front, r);
    LogEndsWithResponse(front, r);
    LeadContents(front, r);
    LogGrows(rs, j + 1);
  }
}
