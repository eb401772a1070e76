/** The table of started commands: 32 records that are claimed, marked,
    evicted and listed under one semaphore, with death messages arriving on a
    port. Every method is one stretch of code that runs without giving the
    semaphore up, or one DOS call outside it. */
module Jobs {
  import opened CTypes
  import opened Decimal
  import opened Sequences
  import opened Wrappers

  const SLOTS: int := 32
  const MIN_PRIORITY: int := -20
  /** One below the workers' priority. */
  const MAX_PRIORITY: int := 0

  datatype JobState = Running | Exited

  datatype Job = Job(inUse: bool, id: uint32, state: JobState, pid: uint32, started: bool, priority: int,
                     sandboxed: bool, rc: int32, signals: set<nat>, outputDeleted: bool)

  /** A death message, which is the record it lies in. The start it belongs to
      is a mark of the model: the machine does not store it. */
  datatype Message = Message(slot: nat, start: nat)

  /** Shared state: the table, the next id, the port, and the files of T:. */
  datatype Table = Table(jobs: seq<Job>, nextId: uint32, port: seq<Message>, files: set<string>)

  function OutPath(id: uint32): string {
    "T:mcpd_job_" + NatText(id) + ".out"
  }

  /** Different jobs write to different files, and no path is cut short. */
  lemma OutPathIsInjective(a: uint32, b: uint32)
    ensures OutPath(a) == OutPath(b) ==> a == b
    ensures |OutPath(a)| < 40
  {
    NatTextIsNumber(a);
    NatTextIsNumber(b);
    var p, q := OutPath(a), OutPath(b);
    assert p[11..|p|-4] == NatText(a) && q[11..|q|-4] == NatText(b);
    assert Pow10(10) == 100 * Pow10(8) == 10000 * Pow10(6) == 1000000 * Pow10(4) == 10000000000;
    NatTextLength(a, 10);
  }

  lemma OutPathOfSeven()
    ensures OutPath(7) == "T:mcpd_job_7.out"
  {
    assert NatText(7) == "7";
  }

  // ---- what the operations do to the table ----

  predicate ValidPort(jobs: seq<Job>, port: seq<Message>) {
    |jobs| == SLOTS && forall k :: 0 <= k < |port| ==> port[k].slot < SLOTS
  }

  predicate InPort(port: seq<Message>, slot: nat) {
    exists k :: 0 <= k < |port| && port[k].slot == slot
  }

  /** Every record with a message on the port has exited. */
  function Marked(jobs: seq<Job>, port: seq<Message>): (r: seq<Job>)
    ensures |r| == |jobs|
  {
    seq(|jobs|, i requires 0 <= i < |jobs| => if InPort(port, i) then jobs[i].(state := Exited) else jobs[i])
  }

  function Drained(t: Table): Table {
    t.(jobs := Marked(t.jobs, t.port), port := [])
  }

  predicate IsFound(jobs: seq<Job>, id: uint32, r: Option<nat>) {
    match r
    case None => forall i :: 0 <= i < |jobs| ==> !(jobs[i].inUse && jobs[i].id == id)
    case Some(s) => s < |jobs| && jobs[s].inUse && jobs[s].id == id
  }

  predicate AllRunning(jobs: seq<Job>) {
    forall i :: 0 <= i < |jobs| ==> jobs[i].inUse && jobs[i].state == Running
  }

  /** The slot for a new job: the first free one, else that of the exited job
      with the smallest id, else none. */
  predicate IsPick(jobs: seq<Job>, r: Option<nat>) {
    match r
    case None => AllRunning(jobs)
    case Some(s) =>
      s < |jobs| && if jobs[s].inUse then IsOldestExited(jobs, s) else forall i :: 0 <= i < s ==> jobs[i].inUse
  }

  predicate IsOldestExited(jobs: seq<Job>, s: nat)
    requires s < |jobs|
  {
    && (forall i :: 0 <= i < |jobs| ==> jobs[i].inUse) && jobs[s].state == Exited
    && (forall i :: 0 <= i < |jobs| && jobs[i].state == Exited ==> jobs[s].id <= jobs[i].id)
    && (forall i :: 0 <= i < s && jobs[i].state == Exited ==> jobs[s].id < jobs[i].id)
  }

  function Clamp(priority: int): int {
    if priority > MAX_PRIORITY then MAX_PRIORITY else if priority < MIN_PRIORITY then MIN_PRIORITY else priority
  }

  /** The files once the job in a slot has been evicted, if one is there. */
  function FilesWithout(files: set<string>, j: Job): set<string> {
    if j.inUse && !j.outputDeleted then files - {OutPath(j.id)} else files
  }

  function NewJob(id: uint32, priority: int, sandboxed: bool): Job {
    Job(true, id, Running, 0, false, Clamp(priority), sandboxed, -1, {}, false)
  }

  function NextId(id: uint32): uint32 {
    (id + 1) % TWO_32
  }

  /** A new job in the slot. */
  function Claimed(t: Table, slot: nat, priority: int, sandboxed: bool): Table
    requires slot < |t.jobs|
  {
    t.(jobs := t.jobs[slot := NewJob(t.nextId, priority, sandboxed)], nextId := NextId(t.nextId),
       files := FilesWithout(t.files, t.jobs[slot]))
  }

  /** The output file deleted, and made again if it can be. */
  function Recreated(files: set<string>, path: string, opens: bool): set<string> {
    if opens then files - {path} + {path} else files - {path}
  }

  function Dropped(t: Table, slot: nat): Table
    requires slot < |t.jobs|
  {
    var j := t.jobs[slot];
    if j.outputDeleted || j.state != Exited then t
    else t.(jobs := t.jobs[slot := j.(outputDeleted := true)], files := t.files - {OutPath(j.id)})
  }

  /** A break goes to a running job whose process id is known and is still in
      the process list. */
  predicate CanSignal(j: Job, processFound: bool) {
    j.state == Running && j.pid != 0 && processFound
  }

  function Signalled(t: Table, slot: nat, mask: set<nat>, processFound: bool): Table
    requires slot < |t.jobs|
  {
    var j := t.jobs[slot];
    if CanSignal(j, processFound) then t.(jobs := t.jobs[slot := j.(signals := j.signals + mask)]) else t
  }

  function WithJob(t: Table, slot: nat, j: Job): Table
    requires slot < |t.jobs|
  {
    t.(jobs := t.jobs[slot := j])
  }

  /** The job's output file made, one left from before deleted first. */
  function WithOutput(t: Table, slot: nat, opens: bool): Table
    requires slot < |t.jobs|
  {
    t.(files := Recreated(t.files, OutPath(t.jobs[slot].id), opens))
  }

  /** The file of a job that was not launched is deleted. */
  function Unlaunched(t: Table, slot: nat): Table
    requires slot < |t.jobs|
  {
    t.(files := t.files - {OutPath(t.jobs[slot].id)})
  }

  function Released(t: Table, slot: nat): Table
    requires slot < |t.jobs|
  {
    WithJob(t, slot, t.jobs[slot].(inUse := false))
  }

  function Entered(t: Table, slot: nat, pid: uint32): Table
    requires slot < |t.jobs|
  {
    WithJob(t, slot, t.jobs[slot].(pid := pid, started := true))
  }

  /** The exit code in the record, and the record's message on the port. */
  function Died(t: Table, slot: nat, start: nat, rc: int32): Table
    requires slot < |t.jobs|
  {
    WithJob(t, slot, t.jobs[slot].(rc := rc)).(port := t.port + [Message(slot, start)])
  }

  // ---- the code ----

  class JobTable {
    const jobs: array<Job>
    var nextId: uint32
    var port: seq<Message>
    var files: set<string>

    ghost predicate Valid()
      reads this, jobs
    {
      ValidPort(jobs[..], port)
    }

    ghost function Abs(): Table
      reads this, jobs
    {
      Table(jobs[..], nextId, port, files)
    }

    /** An empty table; files of an earlier daemon may be left in T:. */
    constructor (files: set<string>)
      ensures Valid() && fresh(jobs) && nextId == 1 && port == [] && this.files == files
      ensures jobs.Length == 32 && forall i :: 0 <= i < 32 ==> !jobs[i].inUse
    {
      jobs := new Job[SLOTS](_ => Job(false, 0, Running, 0, false, 0, false, 0, {}, false));
      nextId, port := 1, [];
      this.files := files;
    }

    /** Collects the death messages. */
    method Drain()
      requires Valid()
      modifies this`port, jobs
      ensures Valid() && Abs() == Drained(old(Abs()))
    {
      ghost var n := 0;
      while |port| > 0
        invariant Valid() && n <= |old(port)| && port == old(port)[n..]
        invariant jobs[..] == Marked(old(jobs[..]), old(port)[..n])
        decreases |port|
      {
        var m := port[0];
        MarkOne(old(jobs[..]), old(port), n);
        port := port[1..];
        jobs[m.slot] := jobs[m.slot].(state := Exited);
        n := n + 1;
      }
      assert old(port)[..n] == old(port);
    }

    method Find(id: uint32) returns (r: Option<nat>)
      requires Valid()
      ensures IsFound(jobs[..], id, r)
    {
      for i := 0 to SLOTS
        invariant forall k :: 0 <= k < i ==> !(jobs[k].inUse && jobs[k].id == id)
      {
        if jobs[i].inUse && jobs[i].id == id { return Some(i); }
      }
      return None;
    }

    /** Picks a slot; the output file of an evicted job goes with it. */
    method ClaimSlot() returns (r: Option<nat>)
      requires Valid()
      modifies this`files
      ensures IsPick(jobs[..], r)
      ensures files == if r.Some? then FilesWithout(old(files), jobs[r.value]) else old(files)
    {
      var oldest: Option<nat> := None;
      for i := 0 to SLOTS
        invariant forall k :: 0 <= k < i ==> jobs[k].inUse
        invariant oldest == None ==> forall k :: 0 <= k < i ==> jobs[k].state == Running
        invariant oldest.Some? ==> oldest.value < i && jobs[oldest.value].state == Exited
        invariant oldest.Some? ==>
                    forall k :: 0 <= k < i && jobs[k].state == Exited ==> jobs[oldest.value].id <= jobs[k].id
        invariant oldest.Some? ==>
                    forall k :: 0 <= k < oldest.value && jobs[k].state == Exited ==> jobs[oldest.value].id < jobs[k].id
      {
        if !jobs[i].inUse { return Some(i); }
        if jobs[i].state == Exited && (oldest == None || jobs[i].id < jobs[oldest.value].id) {
          oldest := Some(i);
        }
      }
      if oldest.Some? && !jobs[oldest.value].outputDeleted {
        files := files - {OutPath(jobs[oldest.value].id)};
      }
      return oldest;
    }

    /** The start of a job, up to where the semaphore is given up: refused
        exactly when every record is of a running job. */
    method Reserve(priority: int, sandboxed: bool) returns (r: Option<(nat, uint32)>)
      requires Valid()
      modifies this`port, this`files, this`nextId, jobs
      ensures Valid()
      ensures |Abs().jobs| == 32
      ensures r == None <==> forall i :: 0 <= i < 32 ==> Drained(old(Abs())).jobs[i].inUse
                                                         && Drained(old(Abs())).jobs[i].state == Running
      ensures r == None ==> Abs() == Drained(old(Abs()))
      ensures r.Some? ==> IsPick(Drained(old(Abs())).jobs, Some(r.value.0)) && r.value.1 == old(nextId)
                          && Abs() == Claimed(Drained(old(Abs())), r.value.0, priority, sandboxed)
    {
      var p := if priority > MAX_PRIORITY then MAX_PRIORITY else priority;
      if p < MIN_PRIORITY { p := MIN_PRIORITY; }
      Drain();
      var slot := ClaimSlot();
      if slot == None { return None; }
      assert !AllRunning(jobs[..]) by { assert jobs[slot.value] == jobs[..][slot.value]; }
      var s, id := slot.value, nextId;
      jobs[s] := Job(true, id, Running, 0, false, p, sandboxed, -1, {}, false);
      nextId := (nextId + 1) % TWO_32;
      return Some((s, id));
    }

    /** Makes the job's output file, deleting one that is left from before. */
    method OpenOutput(slot: nat, opens: bool)
      requires Valid() && slot < SLOTS
      modifies this`files
      ensures Valid() && Abs() == WithOutput(old(Abs()), slot, opens)
    {
      files := files - {OutPath(jobs[slot].id)};
      if opens { files := files + {OutPath(jobs[slot].id)}; }
    }

    /** The launch failed: the file goes. */
    method LaunchFailed(slot: nat)
      requires Valid() && slot < SLOTS
      modifies this`files
      ensures Valid() && Abs() == Unlaunched(old(Abs()), slot)
    {
      files := files - {OutPath(jobs[slot].id)};
    }

    /** A failed start gives its record back. */
    method Release(slot: nat)
      requires Valid() && slot < SLOTS
      modifies jobs
      ensures Valid() && Abs() == Released(old(Abs()), slot)
    {
      jobs[slot] := jobs[slot].(inUse := false);
    }

    /** Runs in the new process. */
    method JobEntry(slot: nat, pid: uint32)
      requires Valid() && slot < SLOTS
      modifies jobs
      ensures Valid() && Abs() == Entered(old(Abs()), slot, pid)
    {
      jobs[slot] := jobs[slot].(pid := pid);
      jobs[slot] := jobs[slot].(started := true);
    }

    /** DOS ends a process: its exit code goes into the message in the record,
        and the message to the port. */
    method Die(slot: nat, start: nat, rc: int32)
      requires Valid() && slot < SLOTS
      modifies this`port, jobs
      ensures Valid() && Abs() == Died(old(Abs()), slot, start, rc)
    {
      jobs[slot] := jobs[slot].(rc := rc);
      port := port + [Message(slot, start)];
    }

    method Get(id: uint32) returns (r: Option<Job>)
      requires Valid()
      modifies this`port, jobs
      ensures Valid() && Abs() == Drained(old(Abs()))
      ensures r.Some? ==> r.value in jobs[..] && r.value.inUse && r.value.id == id
      ensures r == None ==> IsFound(jobs[..], id, None)
    {
      Drain();
      var s := Find(id);
      if s == None { return None; }
      return Some(jobs[s.value]);
    }

    /** Signals a running job whose process is still there: Some(true) if
        sent, None for an unknown id. */
    method Signal(id: uint32, mask: set<nat>, processFound: bool) returns (sent: Option<bool>)
      requires Valid()
      modifies this`port, jobs
      ensures Valid()
      ensures sent == None ==> IsFound(Drained(old(Abs())).jobs, id, None) && Abs() == Drained(old(Abs()))
      ensures sent.Some? ==> exists s: nat ::
                && IsFound(Drained(old(Abs())).jobs, id, Some(s))
                && sent.value == CanSignal(Drained(old(Abs())).jobs[s], processFound)
                && Abs() == Signalled(Drained(old(Abs())), s, mask, processFound)
    {
      Drain();
      var found := Find(id);
      if found == None { return None; }
      var s := found.value;
      assert IsFound(jobs[..], id, Some(s));
      var ok := jobs[s].state == Running && jobs[s].pid != 0 && processFound;
      if ok { jobs[s] := jobs[s].(signals := jobs[s].signals + mask); }
      return Some(ok);
    }

    /** Deletes an exited job's output. */
    method DropOutput(id: uint32)
      requires Valid()
      modifies this`files, jobs
      ensures Valid()
      ensures if IsFound(old(Abs()).jobs, id, None) then Abs() == old(Abs())
              else exists s: nat :: IsFound(old(Abs()).jobs, id, Some(s)) && Abs() == Dropped(old(Abs()), s)
    {
      var found := Find(id);
      if found == None { return; }
      var s := found.value;
      assert IsFound(old(Abs()).jobs, id, Some(s));
      if !jobs[s].outputDeleted && jobs[s].state == Exited {
        files := files - {OutPath(jobs[s].id)};
        jobs[s] := jobs[s].(outputDeleted := true);
      }
      assert Abs() == Dropped(old(Abs()), s);
    }

    /** All jobs, newest first. */
    method List() returns (list: seq<Job>)
      requires Valid()
      modifies this`port, jobs
      ensures Valid() && Abs() == Drained(old(Abs()))
      ensures list == Sort(InUse(jobs[..]))
    {
      Drain();
      var info := new Job[SLOTS](_ => NewJob(0, 0, false));
      var n := CopyInUse(info);
      SortInPlace(info, n);
      list := info[..n];
    }

    method CopyInUse(info: array<Job>) returns (n: nat)
      requires Valid() && info != jobs && info.Length == SLOTS
      modifies info
      ensures n <= SLOTS && info[..n] == InUse(jobs[..])
    {
      n := 0;
      for i := 0 to SLOTS
        invariant n <= i && info[..n] == InUse(jobs[..i])
      {
        ghost var before := info[..n];
        assert jobs[..i+1][..i] == jobs[..i];
        if jobs[i].inUse {
          info[n] := jobs[i];
          n := n + 1;
          assert info[..n] == before + [jobs[i]];
        }
      }
      assert jobs[..SLOTS] == jobs[..];
    }

    /** One look of the shutdown: how many jobs still run. */
    method CountRunning() returns (running: nat)
      requires Valid()
      modifies this`port, jobs
      ensures Valid() && Abs() == Drained(old(Abs()))
      ensures running == 0 <==> forall i :: 0 <= i < SLOTS ==> !(jobs[i].inUse && jobs[i].state == Running)
    {
      Drain();
      running := 0;
      for i := 0 to SLOTS
        invariant running == 0 <==> forall k :: 0 <= k < i ==> !(jobs[k].inUse && jobs[k].state == Running)
      {
        if jobs[i].inUse && jobs[i].state == Running { running := running + 1; }
      }
    }

    /** The last act of the shutdown: every kept output file goes. */
    method DeleteOutputs()
      requires Valid()
      modifies this`files
      ensures files == old(files) - KeptPaths(jobs[..])
    {
      for i := 0 to SLOTS
        invariant files == old(files) - KeptPaths(jobs[..i])
      {
        assert jobs[..i+1] == jobs[..i] + [jobs[i]];
        KeptOne(jobs[..i], jobs[i]);
        if jobs[i].inUse && !jobs[i].outputDeleted { files := files - {OutPath(jobs[i].id)}; }
      }
      assert jobs[..SLOTS] == jobs[..];
    }
  }

  // ---- listing ----

  function InUse(jobs: seq<Job>): (r: seq<Job>)
    ensures |r| <= |jobs|
  {
    if jobs == [] then []
    else InUse(jobs[..|jobs|-1]) + (if jobs[|jobs|-1].inUse then [jobs[|jobs|-1]] else [])
  }

  /** The list holds the records in use and no others. */
  lemma {:induction false} InUseExactly(jobs: seq<Job>, j: Job)
    ensures j in InUse(jobs) <==> j in jobs && j.inUse
  {
    if jobs != [] {
      var front := jobs[..|jobs|-1];
      InUseExactly(front, j);
      assert jobs == front + [jobs[|jobs|-1]];
    }
  }

  /** A job put in its place among newest-first ones, from the end. */
  function Insert(s: seq<Job>, t: Job): (r: seq<Job>)
    ensures |r| == |s| + 1
  {
    if s == [] || s[|s|-1].id >= t.id then s + [t] else Insert(s[..|s|-1], t) + [s[|s|-1]]
  }

  function Sort(s: seq<Job>): (r: seq<Job>)
    ensures |r| == |s|
  {
    if s == [] then [] else Insert(Sort(s[..|s|-1]), s[|s|-1])
  }

  predicate NewestFirst(s: seq<Job>) {
    forall i, j :: 0 <= i < j < |s| ==> s[i].id >= s[j].id
  }

  lemma {:induction false} InsertAtLeast(s: seq<Job>, t: Job, id: nat)
    requires t.id >= id && forall i :: 0 <= i < |s| ==> s[i].id >= id
    ensures forall i :: 0 <= i < |s| + 1 ==> Insert(s, t)[i].id >= id
  {
    if s != [] && s[|s|-1].id < t.id { InsertAtLeast(s[..|s|-1], t, id); }
  }

  lemma {:induction false} InsertIsSorted(s: seq<Job>, t: Job)
    requires NewestFirst(s)
    ensures NewestFirst(Insert(s, t))
  {
    if s != [] && s[|s|-1].id < t.id {
      var front, last := s[..|s|-1], s[|s|-1];
      InsertIsSorted(front, t);
      InsertAtLeast(front, t, last.id);
    }
  }

  lemma {:induction false} InsertAdds(s: seq<Job>, t: Job)
    ensures multiset(Insert(s, t)) == multiset(s) + multiset{t}
  {
    if s != [] && s[|s|-1].id < t.id {
      InsertAdds(s[..|s|-1], t);
      assert s == s[..|s|-1] + [s[|s|-1]];
    }
  }

  /** Sorting puts the newest job first and neither drops nor adds any. */
  lemma {:induction false} SortIsSorted(s: seq<Job>)
    ensures NewestFirst(Sort(s)) && multiset(Sort(s)) == multiset(s)
  {
    if s != [] {
      SortIsSorted(s[..|s|-1]);
      InsertIsSorted(Sort(s[..|s|-1]), s[|s|-1]);
      InsertAdds(Sort(s[..|s|-1]), s[|s|-1]);
      assert s == s[..|s|-1] + [s[|s|-1]];
    }
  }

  /** What a listing shows: the records in use, newest first. */
  lemma ListingIsComplete(jobs: seq<Job>, j: Job)
    ensures NewestFirst(Sort(InUse(jobs)))
    ensures j in Sort(InUse(jobs)) <==> j in jobs && j.inUse
  {
    var s := InUse(jobs);
    SortIsSorted(s);
    InUseExactly(jobs, j);
    assert j in Sort(s) <==> j in multiset(Sort(s));
    assert j in s <==> j in multiset(s);
  }

  /** The in-place insertion sort. */
  method SortInPlace(info: array<Job>, n: nat)
    requires n <= info.Length
    modifies info
    ensures info[..n] == Sort(old(info[..n]))
  {
    ghost var was := info[..n];
    var i := 1;
    assert n > 0 ==> info[..1] == Sort(was[..1]) by { if n > 0 { SortOne(was[..1]); } }
    while i < n
      invariant 1 <= i && (n > 0 ==> i <= n)
      invariant n > 0 ==> info[..i] == Sort(was[..i])
      invariant forall j :: i <= j < n ==> info[j] == was[j]
    {
      InsertInPlace(info, i, n);
      assert was[..i+1][..i] == was[..i];
      i := i + 1;
    }
    assert n > 0 ==> was[..n] == was;
  }

  lemma SortOne(s: seq<Job>)
    requires |s| == 1
    ensures Sort(s) == s
  {
  }

  /** Moves the i-th entry down to its place among the ones before it. */
  method InsertInPlace(info: array<Job>, i: nat, n: nat)
    requires 0 < i < n <= info.Length
    modifies info
    ensures info[..i+1] == Insert(old(info[..i]), old(info[i]))
    ensures forall j :: i < j < n ==> info[j] == old(info[j])
  {
    ghost var pre := info[..i];
    var t := info[i];
    var p := ShiftUp(info, i, t.id);
    info[p] := t;
    InsertBetween(pre, t, p);
    assert info[..i+1] == pre[..p] + [t] + pre[p..];
  }

  /** Shifts the older ones at the end of info[..i] up by one. */
  method ShiftUp(info: array<Job>, i: nat, id: uint32) returns (p: nat)
    requires 0 < i < info.Length
    modifies info
    ensures p <= i && (p > 0 ==> old(info[p-1]).id >= id)
    ensures forall j :: p <= j < i ==> old(info[j]).id < id && info[j+1] == old(info[j])
    ensures forall j :: 0 <= j < p || i < j < info.Length ==> info[j] == old(info[j])
  {
    var k := i - 1;
    while k >= 0 && info[k].id < id
      invariant -1 <= k < i
      invariant forall j :: 0 <= j <= k || i < j < info.Length ==> info[j] == old(info[j])
      invariant forall j :: k < j < i ==> old(info[j]).id < id && info[j+1] == old(info[j])
    {
      info[k + 1] := info[k];
      k := k - 1;
    }
    p := k + 1;
  }

  /** Where a job goes: behind those at least as new. */
  lemma {:induction false} InsertBetween(pre: seq<Job>, t: Job, p: nat)
    requires p <= |pre| && (p > 0 ==> pre[p-1].id >= t.id)
    requires forall j :: p <= j < |pre| ==> pre[j].id < t.id
    ensures Insert(pre, t) == pre[..p] + [t] + pre[p..]
    decreases |pre|
  {
    if p == |pre| {
      assert pre[..p] == pre && pre[p..] == [];
    } else {
      var front, last := pre[..|pre|-1], pre[|pre|-1];
      InsertBetween(front, t, p);
      Associate(pre[..p] + [t], front[p..], [last]);
      assert front[..p] == pre[..p] && front[p..] + [last] == pre[p..];
    }
  }

  /** The paths of records that still have their output. */
  function KeptPaths(jobs: seq<Job>): set<string> {
    set i | 0 <= i < |jobs| && jobs[i].inUse && !jobs[i].outputDeleted :: OutPath(jobs[i].id)
  }

  lemma KeptOne(jobs: seq<Job>, j: Job)
    ensures KeptPaths(jobs + [j]) == KeptPaths(jobs) + if j.inUse && !j.outputDeleted then {OutPath(j.id)} else {}
  {
    var all := jobs + [j];
    assert all[|jobs|] == j && forall i :: 0 <= i < |jobs| ==> all[i] == jobs[i];
  }

  /** One more message marks one more record. */
  lemma MarkOne(jobs: seq<Job>, port: seq<Message>, n: nat)
    requires ValidPort(jobs, port) && n < |port|
    ensures var s := port[n].slot;
            Marked(jobs, port[..n+1]) == Marked(jobs, port[..n])[s := Marked(jobs, port[..n])[s].(state := Exited)]
  {
  }
}
