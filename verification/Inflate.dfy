/** Inflating a payload of untold size into a buffer that is regrown as it
    fills. The inflater is an oracle that makes progress whenever it says
    Ok. */
module Inflate {
  import opened CTypes
  import opened Wrappers
  import Base64
  import Frame

  const CAP: int := 128 * 1024 * 1024
  const ROOM: int := 4096
  /** Three quarters of the largest frame. */
  const MOST_COMPRESSED: int := 24 * 1024 * 1024

  datatype Status = Ok | StreamEnd | Failure

  /** One call: the input used and the bytes put out. */
  datatype Reply = Reply(status: Status, consumed: nat, data: seq<uint8>)

  /** The k-th call, with so much input used, so much output made and so
      much room. */
  type Inflater = (nat, nat, nat, nat) -> Reply

  /** What zlib promises for n bytes of input that decompress to `output`. */
  ghost predicate Inflates(z: Inflater, n: nat, output: seq<uint8>) {
    forall k: nat, used: nat, total: nat, room: nat :: Inflated(z, n, output, k, used, total, room)
  }

  ghost predicate Inflated(z: Inflater, n: nat, output: seq<uint8>, k: nat, used: nat, total: nat, room: nat) {
    used <= n && total <= |output| ==>
      var r := z(k, used, total, room);
      && used + r.consumed <= n && |r.data| <= room && total + |r.data| <= |output|
      && r.data == output[total..total + |r.data|]
      && (r.status == Ok ==> r.consumed + |r.data| > 0)
      && (r.status == StreamEnd ==> total + |r.data| == |output|)
  }

  datatype Result =
    | Data(bytes: seq<uint8>, ended: bool)
    | Empty
    | OutOfMemory
    | ExceedsCap
    | Corrupt

  /** The capacity after a look at the room left; None if it cannot grow. */
  function Grow(cap: nat, total: nat): Option<nat> {
    if cap - total >= ROOM then Some(cap)
    else
      var doubled := if cap * 2 > CAP then CAP else cap * 2;
      if doubled == cap then None else Some(doubled)
  }

  /** Growing leaves room and keeps to the cap; it is refused only when all
      but the last few bytes of the largest buffer are used. */
  lemma GrowLeavesRoom(cap: nat, total: nat)
    requires ROOM <= cap <= CAP && total <= cap
    ensures Grow(cap, total).Some? ==> cap <= Grow(cap, total).value <= CAP && Grow(cap, total).value > total
    ensures Grow(cap, total) == None <==> cap == CAP && total > CAP - ROOM
  {
  }

  /** The first buffer is four times the input, at least 4096 bytes; with
      fewer than 4096 left it is doubled, up to 134217728. */
  lemma BuffersInNumbers(n: nat, cap: nat, total: nat)
    ensures FirstCap(n) == if n < 1024 then 4096 else 4 * n
    ensures Grow(cap, total) ==
              if total + 4096 <= cap then Some(cap)
              else if cap == 134217728 then None
              else if cap == 0 then None
              else if cap <= 67108864 then Some(2 * cap) else Some(134217728)
  {
  }

  /** A new buffer with the bytes written so far. */
  method Regrow(buf: array<uint8>, total: nat, cap: uint32) returns (grown: array<uint8>)
    requires total <= buf.Length <= cap
    ensures fresh(grown) && grown.Length == cap && grown[..total] == buf[..total]
  {
    grown := new uint8[cap](_ => 0);
    for i := 0 to total
      invariant grown[..i] == buf[..i]
    {
      grown[i] := buf[i];
    }
  }

  /** Stores the inflater's output behind what is there. */
  method Store(buf: array<uint8>, total: nat, data: seq<uint8>)
    requires total + |data| <= buf.Length
    modifies buf
    ensures buf[..total + |data|] == old(buf[..total]) + data
  {
    for i := 0 to |data|
      invariant buf[..total] == old(buf[..total]) && buf[total..total + i] == data[..i]
    {
      buf[total + i] := data[i];
    }
    assert buf[..total + |data|] == buf[..total] + buf[total..total + |data|];
  }

  lemma Extends(output: seq<uint8>, total: nat, data: seq<uint8>)
    requires total + |data| <= |output| && data == output[total..total + |data|]
    ensures output[..total] + data == output[..total + |data|]
  {
  }

  /** The largest payload a frame can carry inflates without wrapping a size:
      base64 keeps it under three quarters of the frame. */
  lemma PayloadFits(text: seq<uint8>)
    requires |text| <= 33554432 && Base64.DecodeText(text).Some?
    ensures |Base64.DecodeText(text).value| <= 25165824
  {
  }

  datatype Growth = Grown | NoMemory | NoRoom

  /** The buffer for the next call: a larger one if little room is left. */
  method MakeRoom(buf: array<uint8>, total: nat, alloc: nat -> bool, k: nat) returns (g: Growth, b: array<uint8>)
    requires ROOM <= buf.Length <= CAP && total <= buf.Length
    ensures g.Grown? ==> total < b.Length <= CAP && ROOM <= b.Length && b[..total] == buf[..total]
    ensures g.Grown? ==> Grow(buf.Length, total) == Some(b.Length)
    ensures (b == buf || fresh(b)) && (buf.Length - total >= ROOM ==> b == buf)
    ensures g.NoRoom? <==> Grow(buf.Length, total) == None
    ensures g.NoRoom? ==> buf.Length == CAP && total > CAP - ROOM
    ensures g.NoMemory? ==> buf.Length - total < ROOM && !alloc(k + 1)
  {
    GrowLeavesRoom(buf.Length, total);
    var cap: uint32 := buf.Length;
    if cap - total >= ROOM { return Grown, buf; }
    var newCap: uint32 := cap * 2;
    if newCap > CAP { newCap := CAP; }
    if newCap == cap { return NoRoom, buf; }
    if !alloc(k + 1) { return NoMemory, buf; }
    b := Regrow(buf, total, newCap);
    return Grown, b;
  }

  /** One call of the inflater and its output stored. */
  method InflateOnce(z: Inflater, n: nat, k: nat, used: nat, total: nat, buf: array<uint8>, ghost output: seq<uint8>)
    returns (status: Status, used': nat, total': nat)
    requires Inflates(z, n, output)
    requires used <= n && total < buf.Length && total <= |output| && buf[..total] == output[..total]
    modifies buf
    ensures used' <= n && total <= total' <= buf.Length && total' <= |output| && buf[..total'] == output[..total']
    ensures status == z(k, used, total, buf.Length - total).status
    ensures used' == used + z(k, used, total, buf.Length - total).consumed
    ensures total' == total + |z(k, used, total, buf.Length - total).data|
    ensures buf[total..total'] == z(k, used, total, buf.Length - total).data
    ensures status == Ok ==> used' + total' > used + total
    ensures status == StreamEnd ==> total' == |output|
  {
    assert Inflated(z, n, output, k, used, total, buf.Length - total);
    var step := z(k, used, total, buf.Length - total);
    Store(buf, total, step.data);
    Extends(output, total, step.data);
    status, used', total' := step.status, used + step.consumed, total + |step.data|;
    assert buf[total..total'] == buf[..total'][total..] == step.data;
  }

  /** The stream is all there: once its last byte is used and there is room
      left, the inflater has said so. */
  ghost predicate Completes(z: Inflater, n: nat) {
    forall k: nat, used: nat, total: nat, room: nat :: EndsInTime(z, n, k, used, total, room)
  }

  ghost predicate EndsInTime(z: Inflater, n: nat, k: nat, used: nat, total: nat, room: nat) {
    var r := z(k, used, total, room);
    used + r.consumed == n && |r.data| < room ==> r.status != Ok
  }

  /** Input left over or output space left over is used up: as much goes in
      and out as can, up to the cap. */
  ghost predicate Greedy(z: Inflater, n: nat) {
    forall k: nat, used: nat, total: nat, room: nat :: UsesUp(z, n, k, used, total, room)
  }

  ghost predicate UsesUp(z: Inflater, n: nat, k: nat, used: nat, total: nat, room: nat) {
    var r := z(k, used, total, room);
    total + room <= CAP && r.status == Ok ==> used + r.consumed == n || |r.data| == room
  }

  function FirstCap(n: nat): nat {
    if n * 4 < ROOM then ROOM else n * 4
  }

  // ---- the run ----

  /** What the loop has before a call: the buffer's size, and how much output
      was made and input used. */
  datatype State = State(cap: nat, total: nat, used: nat)

  /** The buffer's size for the call. */
  function Capacity(s: State): nat {
    if Grow(s.cap, s.total).Some? then Grow(s.cap, s.total).value else s.cap
  }

  function Room(s: State): nat {
    if Capacity(s) >= s.total then Capacity(s) - s.total else 0
  }

  function Call(z: Inflater, k: nat, s: State): Reply {
    z(k, s.used, s.total, Room(s))
  }

  function After(z: Inflater, k: nat, s: State): State {
    State(Capacity(s), s.total + |Call(z, k, s).data|, s.used + Call(z, k, s).consumed)
  }

  /** The state before call k, if all calls before it are made. */
  function Before(z: Inflater, n: nat, k: nat): State {
    if k == 0 then State(FirstCap(n), 0, 0) else After(z, k - 1, Before(z, n, k - 1))
  }

  /** Another call follows: there was room, the stream did not end or fail,
      and there is input or unseen output left. */
  predicate Goes(z: Inflater, n: nat, k: nat, s: State) {
    var t := After(z, k, s);
    Grow(s.cap, s.total).Some? && Call(z, k, s).status == Ok && (t.used < n || t.total == t.cap)
  }

  predicate Continues(z: Inflater, n: nat, k: nat) {
    Goes(z, n, k, Before(z, n, k))
  }

  /** The loop gets to call k and no further. */
  ghost predicate Ends(z: Inflater, n: nat, k: nat) {
    (forall j: nat :: j < k ==> Continues(z, n, j)) && !Continues(z, n, k)
  }

  /** What the last call comes to, made in a given state. */
  function Verdict(z: Inflater, k: nat, s: State, output: seq<uint8>): Result {
    if Grow(s.cap, s.total) == None then ExceedsCap
    else match Call(z, k, s).status
         case Failure => Corrupt
         case StreamEnd => Data(output, true)
         case Ok => Data(if After(z, k, s).total <= |output| then output[..After(z, k, s).total] else output, false)
  }

  function Ending(z: Inflater, n: nat, k: nat, output: seq<uint8>): Result {
    Verdict(z, k, Before(z, n, k), output)
  }

  /** A run has one end. */
  lemma OneEnd(z: Inflater, n: nat, j: nat, k: nat)
    requires Ends(z, n, j) && Ends(z, n, k)
    ensures j == k
  {
  }

  ghost predicate Fitting(s: State, n: nat, output: seq<uint8>) {
    ROOM <= s.cap <= CAP && s.total <= s.cap && s.total <= |output| && s.used <= n
  }

  /** A call keeps to its room, the stream and the input. */
  lemma CallFits(z: Inflater, n: nat, output: seq<uint8>, k: nat, s: State)
    requires Inflates(z, n, output) && Fitting(s, n, output)
    ensures s.total <= Capacity(s) <= CAP && Room(s) == Capacity(s) - s.total
    ensures Fitting(After(z, k, s), n, output) && Inflated(z, n, output, k, s.used, s.total, Room(s))
  {
    GrowLeavesRoom(s.cap, s.total);
    assert Inflated(z, n, output, k, s.used, s.total, Room(s));
  }

  /** What holds before every call. */
  lemma {:induction false} RunStays(z: Inflater, n: nat, output: seq<uint8>, k: nat)
    requires n <= MOST_COMPRESSED && Inflates(z, n, output)
    ensures Fitting(Before(z, n, k), n, output)
  {
    if k > 0 {
      RunStays(z, n, output, k - 1);
      CallFits(z, n, output, k - 1, Before(z, n, k - 1));
    }
  }

  /** A greedy inflater goes on only when it has filled the buffer. */
  lemma GreedyFills(z: Inflater, n: nat, output: seq<uint8>, k: nat, s: State)
    requires Inflates(z, n, output) && Greedy(z, n) && Fitting(s, n, output) && Goes(z, n, k, s)
    ensures After(z, k, s).total == After(z, k, s).cap
  {
    CallFits(z, n, output, k, s);
    assert UsesUp(z, n, k, s.used, s.total, Room(s));
  }

  /** The output is called too large exactly if the buffer is at the cap and
      little room is left in it, whatever is still to come; with a greedy
      inflater, exactly if 128 MiB were made without the end being reported. */
  lemma ExceedsCapIff(z: Inflater, n: nat, output: seq<uint8>, k: nat)
    requires n <= MOST_COMPRESSED && Inflates(z, n, output) && Ends(z, n, k)
    ensures var s := Before(z, n, k);
            && (Ending(z, n, k, output) == ExceedsCap <==> s.cap == 134217728 && s.total > 134213632)
            && (Greedy(z, n) ==> (Ending(z, n, k, output) == ExceedsCap <==> s.total == 134217728))
  {
    RunStays(z, n, output, k);
    var s := Before(z, n, k);
    GrowLeavesRoom(s.cap, s.total);
    if Greedy(z, n) && k > 0 {
      RunStays(z, n, output, k - 1);
      assert Continues(z, n, k - 1);
      GreedyFills(z, n, output, k - 1, Before(z, n, k - 1));
    }
  }

  /** An input cut short is accepted exactly if its last byte is used, no end
      is reported, and there is room left. */
  lemma AcceptsCutIff(z: Inflater, n: nat, output: seq<uint8>, k: nat)
    requires n <= MOST_COMPRESSED && Inflates(z, n, output) && Ends(z, n, k)
    ensures Ending(z, n, k, output).Data? && !Ending(z, n, k, output).ended <==>
            var s := Before(z, n, k);
            && Grow(s.cap, s.total).Some? && Call(z, k, s).status == Ok
            && After(z, k, s).used == n && After(z, k, s).total < Capacity(s)
  {
    RunStays(z, n, output, k);
    CallFits(z, n, output, k, Before(z, n, k));
  }

  /** The first call takes all the input and has room to spare, without
      having met the stream's end. */
  predicate RunsOut(z: Inflater, n: nat) {
    var r := z(0, 0, 0, FirstCap(n));
    r.status == Ok && r.consumed == n && |r.data| < FirstCap(n)
  }

  /** The loop has come to call k, with this state. */
  ghost predicate Reaches(z: Inflater, n: nat, k: nat, s: State) {
    Before(z, n, k) == s && forall j: nat :: j < k ==> Continues(z, n, j)
  }

  /** What the buffer holds: the first of the stream. */
  ghost predicate Holds(buf: array<uint8>, s: State, output: seq<uint8>)
    reads buf
  {
    s.cap == buf.Length && s.total <= buf.Length && s.total <= |output| && buf[..s.total] == output[..s.total]
  }

  /** One turn of the loop: on to the next, or the result. */
  method Turn(z: Inflater, n: nat, k: nat, buf: array<uint8>, total: nat, used: nat, alloc: nat -> bool,
              ghost output: seq<uint8>)
    returns (r: Option<Result>, b: array<uint8>, total': nat, used': nat)
    requires Inflates(z, n, output) && Fitting(State(buf.Length, total, used), n, output)
    requires Holds(buf, State(buf.Length, total, used), output)
    modifies buf
    ensures b == buf || fresh(b)
    ensures var s := State(buf.Length, total, used);
            match r
            case None => Goes(z, n, k, s) && After(z, k, s) == State(b.Length, total', used')
                         && Holds(b, After(z, k, s), output) && used' + total' > used + total
            case Some(OutOfMemory) => buf.Length - total < ROOM && !alloc(k + 1)
            case Some(v) => !Goes(z, n, k, s) && v == Verdict(z, k, s, output)
  {
    total', used' := total, used;
    var g;
    g, b := MakeRoom(buf, total, alloc, k);
    if g == NoRoom { return Some(ExceedsCap), b, total', used'; }
    if g == NoMemory { return Some(OutOfMemory), b, total', used'; }
    var status;
    status, used', total' := InflateOnce(z, n, k, used, total, b, output);
    assert After(z, k, State(buf.Length, total, used)) == State(b.Length, total', used');
    r := Judge(status, b, total', used', n, output);
  }

  /** What the status of a call means. */
  method Judge(status: Status, b: array<uint8>, total: nat, used: nat, n: nat, ghost output: seq<uint8>)
    returns (r: Option<Result>)
    requires total <= b.Length && total <= |output| && b[..total] == output[..total]
    requires status == StreamEnd ==> total == |output|
    ensures r == match status
                 case StreamEnd => Some(Data(output, true))
                 case Failure => Some(Corrupt)
                 case Ok => if used < n || total == b.Length then None else Some(Data(output[..total], false))
  {
    assert output[..|output|] == output;
    match status {
      case StreamEnd => return Some(Data(b[..total], true));
      case Failure => return Some(Corrupt);
      case Ok => return if used < n || total == b.Length then None else Some(Data(b[..total], false));
    }
  }

  /** The growing loop, which ends for every inflater. */
  method Loop(n: nat, z: Inflater, alloc: nat -> bool, ghost output: seq<uint8>) returns (r: Result, ghost k: nat)
    requires 0 < n <= MOST_COMPRESSED && Inflates(z, n, output)
    ensures if r == OutOfMemory then !alloc(k) && (k == 0 || Continues(z, n, 0))
            else Ends(z, n, k) && r == Ending(z, n, k, output)
  {
    var cap: uint32 := n * 4;
    if cap < ROOM { cap := ROOM; }
    if !alloc(0) { return OutOfMemory, 0; }
    var buf := new uint8[cap](_ => 0);
    var total: nat, used: nat, turn: nat := 0, 0, 0;
    while true
      invariant fresh(buf) && Reaches(z, n, turn, State(buf.Length, total, used))
      invariant Fitting(State(buf.Length, total, used), n, output) && Holds(buf, State(buf.Length, total, used), output)
      decreases n - used + |output| - total
    {
      var done;
      RunStays(z, n, output, turn + 1);
      done, buf, total, used := Turn(z, n, turn, buf, total, used, alloc, output);
      if done.Some? {
        k := if done.value == OutOfMemory then turn + 1 else turn;
        return done.value, k;
      }
      turn := turn + 1;
    }
  }

  /** What the end of a run says of the stream. */
  lemma EndingIsSound(z: Inflater, n: nat, k: nat, output: seq<uint8>)
    requires n <= MOST_COMPRESSED && Inflates(z, n, output) && Ends(z, n, k)
    ensures var r := Ending(z, n, k, output);
            && (r.Data? ==> r.bytes <= output && |r.bytes| <= CAP && (r.ended ==> r.bytes == output))
            && (r.ExceedsCap? ==> |output| > CAP - ROOM) && (r.ExceedsCap? && Greedy(z, n) ==> |output| >= CAP)
            && (r.Corrupt? ==> exists j, used, total, room :: z(j, used, total, room).status == Failure)
  {
    RunStays(z, n, output, k);
    ExceedsCapIff(z, n, output, k);
    CallFits(z, n, output, k, Before(z, n, k));
  }

  /** A complete stream that is not refused is given back whole. */
  lemma CompleteIsWhole(z: Inflater, n: nat, k: nat, output: seq<uint8>)
    requires n <= MOST_COMPRESSED && Inflates(z, n, output) && Ends(z, n, k) && Completes(z, n)
    ensures Ending(z, n, k, output).Data? ==> Ending(z, n, k, output) == Data(output, true)
  {
    AcceptsCutIff(z, n, output, k);
    var s := Before(z, n, k);
    RunStays(z, n, output, k);
    CallFits(z, n, output, k, s);
    assert EndsInTime(z, n, k, s.used, s.total, Room(s));
  }

  lemma RunsOutEnds(z: Inflater, n: nat, output: seq<uint8>)
    requires 0 < n <= MOST_COMPRESSED && Inflates(z, n, output) && RunsOut(z, n)
    ensures Ends(z, n, 0) && Ending(z, n, 0, output) == Data(z(0, 0, 0, FirstCap(n)).data, false)
  {
    assert Room(Before(z, n, 0)) == FirstCap(n);
    assert Inflated(z, n, output, 0, 0, 0, FirstCap(n));
  }

  /** The result is that of the run's one end, and the bytes returned are the
      first of the decompressed stream, all of it if the stream is complete.
      Every error has its cause. An input that runs out early is not one. */
  method InflateGrowing(n: nat, z: Inflater, alloc: nat -> bool, ghost output: seq<uint8>) returns (r: Result)
    requires n <= 25165824 && Inflates(z, n, output)
    ensures r.Empty? <==> n == 0
    ensures n > 0 && r != OutOfMemory ==> exists k: nat :: Ends(z, n, k) && r == Ending(z, n, k, output)
    ensures r.Data? ==> r.bytes <= output && |r.bytes| <= 134217728 && (r.ended ==> r.bytes == output)
    ensures r.Data? && Completes(z, n) ==> r.bytes == output && r.ended
    ensures n > 0 && alloc(0) && RunsOut(z, n) ==> r == Data(z(0, 0, 0, FirstCap(n)).data, false)
    ensures r.ExceedsCap? ==> |output| > 134213632
    ensures r.ExceedsCap? && Greedy(z, n) ==> |output| >= 134217728
    ensures r.OutOfMemory? ==> exists k :: !alloc(k)
    ensures r.Corrupt? ==> exists k, used, total, room :: z(k, used, total, room).status == Failure
  {
    if n == 0 { return Empty; }
    ghost var k;
    r, k := Loop(n, z, alloc, output);
    if r != OutOfMemory {
      EndingIsSound(z, n, k, output);
      if Completes(z, n) { CompleteIsWhole(z, n, k, output); }
    }
    if RunsOut(z, n) {
      RunsOutEnds(z, n, output);
      if r != OutOfMemory { OneEnd(z, n, 0, k); }
    }
  }

  /** An inflater that keeps its promises, fed a stream cut after its first
      byte. */
  function CutShort(k: nat, used: nat, total: nat, room: nat): Reply {
    if used == 0 then Reply(Ok, 1, []) else Reply(Failure, 0, [])
  }

  /** Success is not the whole stream: the cut is accepted as no data. */
  method CutShortIsAccepted() returns (r: Result)
    ensures Inflates(CutShort, 1, [7]) && r == Data([], false)
  {
    forall k: nat, used: nat, total: nat, room: nat
      ensures Inflated(CutShort, 1, [7], k, used, total, room)
    {
    }
    r := InflateGrowing(1, CutShort, _ => true, [7]);
  }

  /** An inflater that keeps its promises, but does not look at the stream's
      end before it is called for it. Its input is one byte. */
  function Late(size: nat): Inflater {
    (k: nat, used: nat, total: nat, room: nat) => LateReply(size, used, total, room)
  }

  function LateReply(size: nat, used: nat, total: nat, room: nat): Reply {
    var m := if total >= size then 0 else if room <= size - total then room else size - total;
    if total >= size || (used > 0 && m < room) then Reply(StreamEnd, if used > 0 then 0 else 1, Sevens(m))
    else if room == 0 then Reply(Failure, 0, [])
    else Reply(Ok, 0, Sevens(m))
  }

  function Sevens(m: nat): (s: seq<uint8>)
    ensures |s| == m && forall i :: 0 <= i < m ==> s[i] == 7
  {
    seq(m, _ => 7)
  }

  lemma LateInflates(size: nat)
    ensures Inflates(Late(size), 1, Sevens(size)) && Completes(Late(size), 1)
  {
    forall k: nat, used: nat, total: nat, room: nat
      ensures Inflated(Late(size), 1, Sevens(size), k, used, total, room)
      ensures EndsInTime(Late(size), 1, k, used, total, room)
    {
      assert Late(size)(k, used, total, room) == LateReply(size, used, total, room);
    }
  }

  lemma LateIsGreedy()
    ensures Greedy(Late(CAP), 1)
  {
    forall k: nat, used: nat, total: nat, room: nat ensures UsesUp(Late(CAP), 1, k, used, total, room) {
      assert Late(CAP)(k, used, total, room) == LateReply(CAP, used, total, room);
    }
  }

  function Pages(p: nat): nat {
    p * ROOM
  }

  /** The buffer is in pages of 4096 bytes, and the input untouched. */
  ghost predicate InPages(s: State) {
    s.used == 0 && exists p: nat :: s.cap == Pages(p)
  }

  lemma LateGoes(size: nat, k: nat, s: State)
    requires Fitting(s, 1, Sevens(size)) && InPages(s) && Goes(Late(size), 1, k, s)
    ensures InPages(After(Late(size), k, s))
  {
    assert Call(Late(size), k, s) == LateReply(size, s.used, s.total, Room(s));
    var p: nat :| s.cap == Pages(p);
    assert s.cap * 2 == Pages(2 * p) && CAP == Pages(0x8000);
  }

  lemma {:induction false} LateRuns(size: nat, k: nat)
    requires forall j: nat :: j < k ==> Continues(Late(size), 1, j)
    ensures Fitting(Before(Late(size), 1, k), 1, Sevens(size)) && InPages(Before(Late(size), 1, k))
  {
    LateInflates(size);
    RunStays(Late(size), 1, Sevens(size), k);
    assert FirstCap(1) == Pages(1);
    if k > 0 {
      LateRuns(size, k - 1);
      assert Continues(Late(size), 1, k - 1);
      LateGoes(size, k - 1, Before(Late(size), 1, k - 1));
    }
  }

  /** It stops only for lack of room. */
  lemma LateStops(size: nat, k: nat, s: State)
    requires CAP - ROOM < size <= CAP
    requires Fitting(s, 1, Sevens(size)) && InPages(s) && !Goes(Late(size), 1, k, s)
    ensures Verdict(Late(size), k, s, Sevens(size)) == ExceedsCap
  {
    assert Call(Late(size), k, s) == LateReply(size, s.used, s.total, Room(s));
    GrowLeavesRoom(s.cap, s.total);
    var p: nat :| s.cap == Pages(p);
    assert s.cap > CAP - ROOM ==> s.cap == CAP;
  }

  /** Complete streams of at most 128 MiB that are called too large: every
      size in the last 4096 bytes, and the cap itself though the inflater is
      greedy. */
  method LateIsRefused(size: nat) returns (r: Result)
    requires 134213632 < size <= 134217728
    ensures Inflates(Late(size), 1, Sevens(size)) && Completes(Late(size), 1)
    ensures size == 134217728 ==> Greedy(Late(size), 1)
    ensures r == ExceedsCap
  {
    LateInflates(size);
    LateIsGreedy();
    r := InflateGrowing(1, Late(size), _ => true, Sevens(size));
    ghost var k: nat :| Ends(Late(size), 1, k) && r == Ending(Late(size), 1, k, Sevens(size));
    LateRuns(size, k);
    LateStops(size, k, Before(Late(size), 1, k));
  }
}
