/** Every interleaving of workers, launches, processes and deaths over the job
    table. A start is followed from its claim to the end of its record; what
    the table says of it is proved to be what has happened to it. */
module JobRuns {
  import opened CTypes
  import opened Wrappers
  import opened Jobs

  /** What has become of one start, and the slot it was given. */
  datatype Life =
    | Starting(slot: nat)                        // claimed; output file not made yet
    | Ready(slot: nat)                           // output file open
    | Failed(slot: nat)                          // file gone again, record not given back yet
    | Alive(slot: nat, entered: Option<uint32>)  // the process exists; the id it has reported
    | Dead(slot: nat, rc: int32)                 // its death message is on the port
    | Over(slot: nat, rc: int32, kept: bool)     // collected; output kept or dropped
    | Gone                                       // no record of it

  /** Start number n gets id n+1. */
  datatype World = World(table: Table, lives: seq<Life>)

  /** Look is every call that only collects: a query, a listing, a refused
      start, a look of the shutdown. */
  datatype Step =
    | Start(priority: int, sandboxed: bool, slot: nat)
    | OpenOutput(n: nat, opens: bool)
    | Launch(n: nat)
    | LaunchFails(n: nat)
    | Release(n: nat)
    | Enter(n: nat, pid: uint32)
    | Die(n: nat, rc: int32)
    | Look
    | Signal(slot: nat, mask: set<nat>, processFound: bool)
    | DropOutput(slot: nat)

  // ---- the steps ----

  function Collected(l: Life): Life {
    if l.Dead? then Over(l.slot, l.rc, true) else l
  }

  function AllCollected(lives: seq<Life>): (r: seq<Life>)
    ensures |r| == |lives|
  {
    seq(|lives|, n requires 0 <= n < |lives| => Collected(lives[n]))
  }

  function Collect(w: World): World {
    World(Drained(w.table), AllCollected(w.lives))
  }

  /** The start a record belongs to has no record any more. */
  function Evicted(lives: seq<Life>, j: Job): seq<Life> {
    if j.inUse && 1 <= j.id <= |lives| then lives[j.id - 1 := Gone] else lives
  }

  function OutputDropped(lives: seq<Life>, j: Job): seq<Life> {
    if 1 <= j.id <= |lives| && lives[j.id - 1].Over? then lives[j.id - 1 := lives[j.id - 1].(kept := false)] else lives
  }

  predicate Enabled(w: World, s: Step) {
    match s
    case Start(_, _, slot) =>
      slot < |w.table.jobs| && IsPick(Drained(w.table).jobs, Some(slot)) && |w.lives| + 1 < TWO_32
    case OpenOutput(n, _) => n < |w.lives| && w.lives[n].Starting?
    case Launch(n) => n < |w.lives| && w.lives[n].Ready?
    case LaunchFails(n) => n < |w.lives| && w.lives[n].Ready?
    case Release(n) => n < |w.lives| && w.lives[n].Failed?
    case Enter(n, _) => n < |w.lives| && w.lives[n].Alive?
    case Die(n, _) => n < |w.lives| && w.lives[n].Alive?
    case Look => true
    case Signal(slot, _, _) => slot < |w.table.jobs| && w.table.jobs[slot].inUse
    case DropOutput(slot) => slot < |w.table.jobs| && w.table.jobs[slot].inUse
  }

  /** A worker or process goes to its record by pointer; the slot has to be
      there. */
  predicate InBounds(w: World, s: Step) {
    s.OpenOutput? || s.LaunchFails? || s.Release? || s.Enter? || s.Die? ==>
      s.n < |w.lives| && !w.lives[s.n].Gone? && w.lives[s.n].slot < |w.table.jobs|
  }

  function Next(w: World, s: Step): World
    requires Enabled(w, s) && InBounds(w, s)
  {
    match s
    case Start(priority, sandboxed, slot) =>
      var c := Collect(w);
      World(Claimed(c.table, slot, priority, sandboxed), Evicted(c.lives, c.table.jobs[slot]) + [Starting(slot)])
    case OpenOutput(n, opens) =>
      var slot := w.lives[n].slot;
      World(WithOutput(w.table, slot, opens), w.lives[n := if opens then Ready(slot) else Failed(slot)])
    case Launch(n) => World(w.table, w.lives[n := Alive(w.lives[n].slot, None)])
    case LaunchFails(n) =>
      var slot := w.lives[n].slot;
      World(Unlaunched(w.table, slot), w.lives[n := Failed(slot)])
    case Release(n) =>
      var slot := w.lives[n].slot;
      World(Released(w.table, slot), w.lives[n := Gone])
    case Enter(n, pid) =>
      var slot := w.lives[n].slot;
      World(Entered(w.table, slot, pid), w.lives[n := Alive(slot, Some(pid))])
    case Die(n, rc) =>
      var slot := w.lives[n].slot;
      World(Died(w.table, slot, n, rc), w.lives[n := Dead(slot, rc)])
    case Look => Collect(w)
    case Signal(slot, mask, found) =>
      var c := Collect(w);
      World(Signalled(c.table, slot, mask, found), c.lives)
    case DropOutput(slot) =>
      var j := w.table.jobs[slot];
      World(Dropped(w.table, slot),
            if j.state == Exited && !j.outputDeleted then OutputDropped(w.lives, j) else w.lives)
  }

  // ---- the invariant ----

  /** The record shows what has happened to start n. */
  predicate Fits(j: Job, l: Life, n: nat) {
    && j.inUse && j.id == n + 1
    && match l
       case Gone => false
       case Over(_, rc, kept) => j.state == Exited && j.rc == rc && j.outputDeleted == !kept
       case Dead(_, rc) => j.state == Running && j.rc == rc && !j.outputDeleted
       case Alive(_, Some(pid)) => j.state == Running && j.rc == -1 && !j.outputDeleted && j.started && j.pid == pid
       case _ => j.state == Running && j.rc == -1 && !j.outputDeleted && !j.started && j.pid == 0 && j.signals == {}
  }

  ghost predicate Held(jobs: seq<Job>, lives: seq<Life>, n: nat) {
    n < |lives| && !lives[n].Gone? ==> lives[n].slot < |jobs| && Fits(jobs[lives[n].slot], lives[n], n)
  }

  ghost predicate Owned(jobs: seq<Job>, lives: seq<Life>, s: nat) {
    s < |jobs| && jobs[s].inUse ==>
      1 <= jobs[s].id <= |lives| && !lives[jobs[s].id - 1].Gone? && lives[jobs[s].id - 1].slot == s
  }

  /** Records in use and lives not gone are one and the same. */
  ghost predicate JobsOk(jobs: seq<Job>, lives: seq<Life>) {
    && |jobs| == SLOTS
    && (forall n: nat {:trigger Held(jobs, lives, n)} :: Held(jobs, lives, n))
    && (forall s: nat {:trigger Owned(jobs, lives, s)} :: Owned(jobs, lives, s))
  }

  ghost predicate Posted(port: seq<Message>, n: nat) {
    exists k :: 0 <= k < |port| && port[k].start == n
  }

  ghost predicate Awaited(port: seq<Message>, lives: seq<Life>, n: nat) {
    n < |lives| && lives[n].Dead? ==> Posted(port, n)
  }

  /** The port holds one message of each death that is not collected. */
  ghost predicate PortOk(port: seq<Message>, lives: seq<Life>) {
    && (forall k :: 0 <= k < |port| ==> port[k].start < |lives| && lives[port[k].start].Dead?
                                        && lives[port[k].start].slot == port[k].slot)
    && (forall n: nat {:trigger Awaited(port, lives, n)} :: Awaited(port, lives, n))
    && (forall k, m :: 0 <= k < m < |port| ==> port[k].start != port[m].start)
  }

  predicate HasFile(l: Life) {
    match l
    case Ready(_) => true
    case Alive(_, _) => true
    case Dead(_, _) => true
    case Over(_, _, kept) => kept
    case _ => false
  }

  ghost predicate Filed(files: set<string>, lives: seq<Life>, n: nat) {
    n < |lives| && !lives[n].Starting? && n + 1 < TWO_32 ==> (OutPath(n + 1) in files <==> HasFile(lives[n]))
  }

  ghost predicate FilesOk(files: set<string>, lives: seq<Life>) {
    forall n: nat {:trigger Filed(files, lives, n)} :: Filed(files, lives, n)
  }

  ghost predicate Inv(w: World) {
    && |w.lives| < TWO_32 && w.table.nextId == (|w.lives| + 1) % TWO_32
    && JobsOk(w.table.jobs, w.lives)
    && PortOk(w.table.port, w.lives)
    && FilesOk(w.table.files, w.lives)
  }

  // ---- one record changes ----

  /** A record and the life it shows change together; all others stay. */
  lemma OneChanges(jobs: seq<Job>, lives: seq<Life>, n: nat, j: Job, l: Life)
    requires JobsOk(jobs, lives) && n < |lives| && !lives[n].Gone?
    requires if l.Gone? then !j.inUse else l.slot == lives[n].slot && Fits(j, l, n)
    ensures lives[n].slot < |jobs| && JobsOk(jobs[lives[n].slot := j], lives[n := l])
  {
    assert Held(jobs, lives, n);
    var slot := lives[n].slot;
    var jobs', lives' := jobs[slot := j], lives[n := l];
    forall m: nat ensures Held(jobs', lives', m) {
      assert Held(jobs, lives, m);
    }
    forall s: nat ensures Owned(jobs', lives', s) {
      assert Owned(jobs, lives, s);
    }
  }

  /** A new start in a free slot. */
  lemma OneMore(jobs: seq<Job>, lives: seq<Life>, slot: nat, j: Job)
    requires JobsOk(jobs, lives) && slot < |jobs| && !jobs[slot].inUse
    requires Fits(j, Starting(slot), |lives|)
    ensures JobsOk(jobs[slot := j], lives + [Starting(slot)])
  {
    var jobs', lives' := jobs[slot := j], lives + [Starting(slot)];
    forall m: nat ensures Held(jobs', lives', m) {
      assert Held(jobs, lives, m);
    }
    forall s: nat ensures Owned(jobs', lives', s) {
      assert Owned(jobs, lives, s);
    }
  }

  /** Draining marks the records of the dead and no others. */
  lemma DrainKeepsJobs(jobs: seq<Job>, port: seq<Message>, lives: seq<Life>)
    requires JobsOk(jobs, lives) && PortOk(port, lives)
    ensures JobsOk(Marked(jobs, port), AllCollected(lives))
  {
    var jobs', lives' := Marked(jobs, port), AllCollected(lives);
    forall n: nat ensures Held(jobs', lives', n) {
      assert Held(jobs, lives, n);
      if n < |lives| && !lives[n].Gone? { MarkedIffDead(jobs, port, lives, n); }
    }
    forall s: nat ensures Owned(jobs', lives', s) {
      assert Owned(jobs, lives, s);
    }
  }

  lemma MarkedIffDead(jobs: seq<Job>, port: seq<Message>, lives: seq<Life>, n: nat)
    requires JobsOk(jobs, lives) && PortOk(port, lives) && n < |lives| && !lives[n].Gone?
    ensures InPort(port, lives[n].slot) <==> lives[n].Dead?
  {
    assert Held(jobs, lives, n);
    assert Awaited(port, lives, n);
    if k :| 0 <= k < |port| && port[k].slot == lives[n].slot {
      assert Held(jobs, lives, port[k].start);
    }
  }

  // ---- port and files follow ----

  lemma PortStays(port: seq<Message>, lives: seq<Life>, n: nat, l: Life)
    requires PortOk(port, lives) && n < |lives| && !lives[n].Dead? && !l.Dead?
    ensures PortOk(port, lives[n := l])
  {
    var lives' := lives[n := l];
    forall m: nat ensures Awaited(port, lives', m) {
      assert Awaited(port, lives, m);
    }
  }

  lemma PortGrows(port: seq<Message>, lives: seq<Life>, n: nat, rc: int32)
    requires PortOk(port, lives) && n < |lives| && lives[n].Alive?
    ensures PortOk(port + [Message(lives[n].slot, n)], lives[n := Dead(lives[n].slot, rc)])
  {
    var port', lives' := port + [Message(lives[n].slot, n)], lives[n := Dead(lives[n].slot, rc)];
    assert port'[|port|].start == n;
    forall m: nat ensures Awaited(port', lives', m) {
      assert Awaited(port, lives, m);
      if m != n && m < |lives| && lives[m].Dead? {
        var k :| 0 <= k < |port| && port[k].start == m;
        assert port'[k].start == m;
      }
    }
  }

  /** Only the file of start n changes. */
  lemma FileChanges(files: set<string>, files': set<string>, lives: seq<Life>, n: nat, l: Life)
    requires FilesOk(files, lives) && n < |lives| < TWO_32
    requires files' == files || files' == files - {OutPath(n + 1)}
             || files' == files - {OutPath(n + 1)} + {OutPath(n + 1)}
    requires !l.Starting? ==> (OutPath(n + 1) in files' <==> HasFile(l))
    ensures FilesOk(files', lives[n := l])
  {
    var lives' := lives[n := l];
    forall m: nat ensures Filed(files', lives', m) {
      assert Filed(files, lives, m);
      if m < |lives| && m != n { OutPathIsInjective(m + 1, n + 1); }
    }
  }

  // ---- each step keeps the invariant ----

  lemma RecordOf(w: World, n: nat)
    requires Inv(w) && n < |w.lives| && !w.lives[n].Gone?
    ensures w.lives[n].slot < |w.table.jobs| && Fits(w.table.jobs[w.lives[n].slot], w.lives[n], n)
  {
    assert Held(w.table.jobs, w.lives, n);
  }

  lemma StartOf(w: World, slot: nat)
    requires Inv(w) && slot < |w.table.jobs| && w.table.jobs[slot].inUse
    ensures var id := w.table.jobs[slot].id;
            && 1 <= id <= |w.lives| && !w.lives[id - 1].Gone? && w.lives[id - 1].slot == slot
            && Fits(w.table.jobs[slot], w.lives[id - 1], id - 1)
  {
    assert Owned(w.table.jobs, w.lives, slot);
    RecordOf(w, w.table.jobs[slot].id - 1);
  }

  /** No worker or process is ever without its record. */
  lemma EnabledIsInBounds(w: World, s: Step)
    requires Inv(w) && Enabled(w, s)
    ensures InBounds(w, s)
  {
    if s.OpenOutput? || s.LaunchFails? || s.Release? || s.Enter? || s.Die? { RecordOf(w, s.n); }
  }

  lemma CollectKeeps(w: World)
    requires Inv(w)
    ensures Inv(Collect(w))
  {
    DrainKeepsJobs(w.table.jobs, w.table.port, w.lives);
    forall n: nat ensures Filed(w.table.files, AllCollected(w.lives), n) {
      assert Filed(w.table.files, w.lives, n);
    }
    forall n: nat ensures Awaited([], AllCollected(w.lives), n) {
    }
  }

  /** Making room: the record of an exited job is given up with its file. */
  lemma EvictKeeps(w: World, slot: nat)
    requires Inv(w) && w.table.port == [] && IsPick(w.table.jobs, Some(slot))
    ensures var j := w.table.jobs[slot];
            Inv(World(WithJob(w.table, slot, j.(inUse := false)).(files := FilesWithout(w.table.files, j)),
                      Evicted(w.lives, j)))
  {
    var j := w.table.jobs[slot];
    if j.inUse {
      StartOf(w, slot);
      var n := j.id - 1;
      OneChanges(w.table.jobs, w.lives, n, j.(inUse := false), Gone);
      PortStays([], w.lives, n, Gone);
      assert Filed(w.table.files, w.lives, n);
      FileChanges(w.table.files, FilesWithout(w.table.files, j), w.lives, n, Gone);
    } else {
      assert w.table.jobs[slot := j.(inUse := false)] == w.table.jobs;
    }
  }

  lemma PlaceKeeps(w: World, slot: nat, priority: int, sandboxed: bool)
    requires Inv(w) && w.table.port == [] && slot < |w.table.jobs| && !w.table.jobs[slot].inUse
    requires |w.lives| + 1 < TWO_32
    ensures Inv(World(Claimed(w.table, slot, priority, sandboxed), w.lives + [Starting(slot)]))
  {
    var lives' := w.lives + [Starting(slot)];
    OneMore(w.table.jobs, w.lives, slot, NewJob(w.table.nextId, priority, sandboxed));
    forall n: nat ensures Awaited([], lives', n) {
      assert Awaited(w.table.port, w.lives, n);
    }
    forall n: nat ensures Filed(w.table.files, lives', n) {
      assert Filed(w.table.files, w.lives, n);
    }
  }

  lemma StartKeeps(w: World, slot: nat, priority: int, sandboxed: bool)
    requires Inv(w) && Enabled(w, Start(priority, sandboxed, slot))
    ensures Inv(Next(w, Start(priority, sandboxed, slot)))
  {
    CollectKeeps(w);
    var c := Collect(w);
    var j := c.table.jobs[slot];
    EvictKeeps(c, slot);
    var e := World(WithJob(c.table, slot, j.(inUse := false)).(files := FilesWithout(c.table.files, j)),
                   Evicted(c.lives, j));
    PlaceKeeps(e, slot, priority, sandboxed);
    assert e.table.jobs[slot := NewJob(c.table.nextId, priority, sandboxed)]
        == c.table.jobs[slot := NewJob(c.table.nextId, priority, sandboxed)];
  }

  /** Steps of one worker between its two holds of the semaphore. */
  lemma WorkerKeeps(w: World, s: Step)
    requires Inv(w) && Enabled(w, s) && InBounds(w, s)
    requires s.OpenOutput? || s.Launch? || s.LaunchFails? || s.Release?
    ensures Inv(Next(w, s))
  {
    var n := s.n;
    RecordOf(w, n);
    var w', slot := Next(w, s), w.lives[n].slot;
    var j := w.table.jobs[slot];
    assert Filed(w.table.files, w.lives, n);
    OneChanges(w.table.jobs, w.lives, n, if s.Release? then j.(inUse := false) else j, w'.lives[n]);
    assert w.table.jobs[slot := j] == w.table.jobs;
    PortStays(w.table.port, w.lives, n, w'.lives[n]);
    FileChanges(w.table.files, w'.table.files, w.lives, n, w'.lives[n]);
  }

  /** The process writes its own record: when it begins and when it dies. */
  lemma ProcessKeeps(w: World, s: Step)
    requires Inv(w) && Enabled(w, s) && InBounds(w, s) && (s.Enter? || s.Die?)
    ensures Inv(Next(w, s))
  {
    var n := s.n;
    RecordOf(w, n);
    var w', slot := Next(w, s), w.lives[n].slot;
    assert Filed(w.table.files, w.lives, n);
    OneChanges(w.table.jobs, w.lives, n, w'.table.jobs[slot], w'.lives[n]);
    if s.Enter? {
      PortStays(w.table.port, w.lives, n, w'.lives[n]);
    } else {
      PortGrows(w.table.port, w.lives, n, s.rc);
    }
    FileChanges(w.table.files, w.table.files, w.lives, n, w'.lives[n]);
  }

  lemma SignalKeeps(w: World, slot: nat, mask: set<nat>, found: bool)
    requires Inv(w) && Enabled(w, Signal(slot, mask, found))
    ensures Inv(Next(w, Signal(slot, mask, found)))
  {
    CollectKeeps(w);
    var c := Collect(w);
    StartOf(c, slot);
    var n := c.table.jobs[slot].id - 1;
    OneChanges(c.table.jobs, c.lives, n, Signalled(c.table, slot, mask, found).jobs[slot], c.lives[n]);
    assert c.lives[n := c.lives[n]] == c.lives && c.table.jobs[slot := c.table.jobs[slot]] == c.table.jobs;
  }

  lemma DropKeeps(w: World, slot: nat)
    requires Inv(w) && Enabled(w, DropOutput(slot))
    ensures Inv(Next(w, DropOutput(slot)))
  {
    var j := w.table.jobs[slot];
    StartOf(w, slot);
    var n := j.id - 1;
    if j.state == Exited && !j.outputDeleted {
      var l := w.lives[n].(kept := false);
      OneChanges(w.table.jobs, w.lives, n, j.(outputDeleted := true), l);
      PortStays(w.table.port, w.lives, n, l);
      FileChanges(w.table.files, w.table.files - {OutPath(j.id)}, w.lives, n, l);
    }
  }

  /** Every step keeps the invariant. */
  lemma StepKeeps(w: World, s: Step)
    requires Inv(w) && Enabled(w, s)
    ensures InBounds(w, s) && Inv(Next(w, s))
  {
    EnabledIsInBounds(w, s);
    match s
    case Start(priority, sandboxed, slot) => StartKeeps(w, slot, priority, sandboxed);
    case Look => CollectKeeps(w);
    case Signal(slot, mask, found) => SignalKeeps(w, slot, mask, found);
    case DropOutput(slot) => DropKeeps(w, slot);
    case Enter(_, _) => ProcessKeeps(w, s);
    case Die(_, _) => ProcessKeeps(w, s);
    case _ => WorkerKeeps(w, s);
  }

  // ---- what the invariant says of one moment ----

  /** No two records in use have the same id. */
  lemma LiveIdsDiffer(w: World, a: nat, b: nat)
    requires Inv(w) && a < |w.table.jobs| && b < |w.table.jobs| && a != b
    requires w.table.jobs[a].inUse && w.table.jobs[b].inUse
    ensures w.table.jobs[a].id != w.table.jobs[b].id
  {
    StartOf(w, a);
    StartOf(w, b);
  }

  /** A death message lies in the record of the job that died, which still
      shows it running, and whose exit code is that of its own process;
      draining marks that very record. */
  lemma DrainMarksItsOwn(w: World, k: nat)
    requires Inv(w) && k < |w.table.port|
    ensures var m := w.table.port[k];
            && m.start < |w.lives| && w.lives[m.start].Dead? && m.slot < |w.table.jobs|
            && var j, j' := w.table.jobs[m.slot], Drained(w.table).jobs[m.slot];
            && j.inUse && j.id == m.start + 1 && j.state == Running && j.rc == w.lives[m.start].rc
            && j' == j.(state := Exited)
  {
    var m := w.table.port[k];
    RecordOf(w, m.start);
    assert InPort(w.table.port, m.slot);
  }

  /** Outside the time between its claim and its launch, a job's output file
      is there exactly if its record is in use and not marked deleted. */
  lemma FilesAreThoseKept(w: World, n: nat)
    requires Inv(w) && n < |w.lives| && !w.lives[n].Starting? && !w.lives[n].Failed?
    ensures OutPath(n + 1) in w.table.files <==> OutPath(n + 1) in KeptPaths(w.table.jobs)
  {
    assert Filed(w.table.files, w.lives, n);
    if HasFile(w.lives[n]) { RecordOf(w, n); }
    if OutPath(n + 1) in KeptPaths(w.table.jobs) {
      var s :| 0 <= s < |w.table.jobs| && w.table.jobs[s].inUse && !w.table.jobs[s].outputDeleted
               && OutPath(w.table.jobs[s].id) == OutPath(n + 1);
      OutPathIsInjective(w.table.jobs[s].id, n + 1);
      StartOf(w, s);
    }
  }

  /** A start evicts only when no slot is free, and then the exited job with
      the smallest id. */
  lemma EvictsOldestExited(w: World, s: Step)
    requires Inv(w) && s.Start? && Enabled(w, s) && Collect(w).table.jobs[s.slot].inUse
    ensures var c := Collect(w);
            && (forall i :: 0 <= i < SLOTS ==> c.table.jobs[i].inUse)
            && var n := c.table.jobs[s.slot].id - 1;
            && 0 <= n < |w.lives| && c.lives[n].Over?
            && forall m :: 0 <= m < |w.lives| && Collected(w.lives[m]).Over? ==> n <= m
  {
    CollectKeeps(w);
    var c := Collect(w);
    StartOf(c, s.slot);
    forall m | 0 <= m < |w.lives| && Collected(w.lives[m]).Over? ensures c.table.jobs[s.slot].id - 1 <= m {
      RecordOf(c, m);
    }
  }

  /** Once a look finds nothing running, no worker and no process holds a
      record and no message is to come: the table can be freed. Deleting the
      outputs then leaves none of the daemon's files behind. */
  lemma QuietMeansNothingOwed(w: World)
    requires Inv(w)
    requires var jobs := Collect(w).table.jobs;
             forall i :: 0 <= i < SLOTS ==> !(jobs[i].inUse && jobs[i].state == Running)
    ensures var c := Collect(w);
            && c.table.port == []
            && forall n :: 0 <= n < |w.lives| ==>
                 (Collected(w.lives[n]).Over? || w.lives[n].Gone?)
                 && OutPath(n + 1) !in c.table.files - KeptPaths(c.table.jobs)
  {
    CollectKeeps(w);
    var c := Collect(w);
    forall n | 0 <= n < |w.lives|
      ensures Collected(w.lives[n]).Over? || w.lives[n].Gone?
      ensures OutPath(n + 1) !in c.table.files - KeptPaths(c.table.jobs)
    {
      if !c.lives[n].Gone? { RecordOf(c, n); }
      FilesAreThoseKept(c, n);
    }
  }

  // ---- settings, process ids and breaks ----

  /** What a start records: the next id, the priority brought into -20..0,
      and the sandbox flag; no other record changes but for its collection. */
  lemma StartRecords(w: World, s: Step)
    requires Inv(w) && s.Start? && Enabled(w, s)
    ensures var a, b := Drained(w.table).jobs, Next(w, s).table.jobs;
            && b[s.slot].inUse && b[s.slot].id == |w.lives| + 1 && b[s.slot].state == Running
            && b[s.slot].priority == (if s.priority > 0 then 0 else if s.priority < -20 then -20 else s.priority)
            && b[s.slot].sandboxed == s.sandboxed
            && forall i :: 0 <= i < |a| && i != s.slot ==> b[i] == a[i]
  {
  }

  /** While a record is of one job its settings stay as the start made them. */
  lemma SettingsStay(w: World, s: Step, i: nat)
    requires Inv(w) && Enabled(w, s) && InBounds(w, s) && i < |w.table.jobs|
    ensures var a, b := w.table.jobs[i], Next(w, s).table.jobs[i];
            a.inUse && b.inUse && a.id == b.id ==> b.priority == a.priority && b.sandboxed == a.sandboxed
  {
    if s.Start? && i == s.slot && w.table.jobs[i].inUse { StartOf(w, i); }
  }

  /** The start whose record a slot holds, as it stands once the deaths on
      the port are collected. */
  function HolderOf(w: World, slot: nat): Life
    requires slot < |w.table.jobs| && 1 <= w.table.jobs[slot].id <= |w.lives|
  {
    Collected(w.lives[w.table.jobs[slot].id - 1])
  }

  /** A break can reach the process: it is alive, has reported a process id
      other than 0, and is still in the process list. */
  predicate Reachable(l: Life, found: bool) {
    l.Alive? && l.entered.Some? && l.entered.value != 0 && found
  }

  /** A break is recorded exactly for a process it can reach, in its own
      record and nowhere else. */
  lemma SignalReaches(w: World, slot: nat, mask: set<nat>, found: bool)
    requires Inv(w) && Enabled(w, Signal(slot, mask, found))
    ensures 1 <= w.table.jobs[slot].id <= |w.lives|
    ensures var a, b := Drained(w.table).jobs, Next(w, Signal(slot, mask, found)).table.jobs;
            && (forall i :: 0 <= i < |a| && i != slot ==> b[i] == a[i])
            && b[slot] == if Reachable(HolderOf(w, slot), found) then a[slot].(signals := a[slot].signals + mask)
                          else a[slot]
    ensures CanSignal(Drained(w.table).jobs[slot], found) <==> Reachable(HolderOf(w, slot), found)
  {
    StartOf(w, slot);
    CollectKeeps(w);
    StartOf(Collect(w), slot);
  }

  // ---- whole runs ----

  ghost predicate Begins(w: World) {
    && |w.table.jobs| == SLOTS && (forall s :: 0 <= s < SLOTS ==> !w.table.jobs[s].inUse)
    && w.table.nextId == 1 && w.table.port == [] && w.lives == []
  }

  /** Any interleaving of enabled steps. That each finds its record is no
      restriction (EnabledIsInBounds). */
  ghost predicate IsRun(ws: seq<World>, steps: seq<Step>) {
    && |ws| == |steps| + 1 && Begins(ws[0])
    && forall i: nat :: i < |steps| ==> Follows(ws[i], steps[i], ws[i+1])
  }

  ghost predicate Follows(w: World, s: Step, w': World) {
    Enabled(w, s) && InBounds(w, s) && w' == Next(w, s)
  }

  lemma {:induction false} RunKeeps(ws: seq<World>, steps: seq<Step>, i: nat)
    requires IsRun(ws, steps) && i < |ws|
    ensures Inv(ws[i])
    decreases i
  {
    if i == 0 {
      forall n: nat ensures Filed(ws[0].table.files, [], n) {
      }
      forall n: nat ensures Held(ws[0].table.jobs, [], n) {
      }
      forall s: nat ensures Owned(ws[0].table.jobs, [], s) {
      }
      forall n: nat ensures Awaited([], [], n) {
      }
    } else {
      RunKeeps(ws, steps, i - 1);
      assert Follows(ws[i-1], steps[i-1], ws[i-1+1]);
      StepKeeps(ws[i-1], steps[i-1]);
    }
  }

  /** Where a step can take a start. Only a new start makes room. */
  predicate Moves(a: Life, b: Life, s: Step, n: nat) {
    match a
    case Starting(slot) => b == a || b == Ready(slot) || b == Failed(slot)
    case Ready(slot) => b == a || b == Failed(slot) || b == Alive(slot, None)
    case Failed(slot) => b == a || b == Gone
    case Alive(slot, _) =>
      b == a || (s.Enter? && s.n == n && b == Alive(slot, Some(s.pid))) || (b.Dead? && b.slot == slot)
    case Dead(slot, rc) => b == a || b == Over(slot, rc, true) || (b == Gone && s.Start?)
    case Over(slot, rc, _) => b == a || b == Over(slot, rc, false) || (b == Gone && s.Start?)
    case Gone => b == Gone
  }

  /** A start that was not yet over is not given up by making room, unless its
      death is collected in the same step. */
  lemma StepMoves(w: World, s: Step, n: nat)
    requires Inv(w) && Enabled(w, s) && InBounds(w, s) && n < |w.lives|
    ensures n < |Next(w, s).lives| && Moves(w.lives[n], Next(w, s).lives[n], s, n)
  {
    if s.Start? {
      CollectKeeps(w);
      var c := Collect(w);
      if c.table.jobs[s.slot].inUse { StartOf(c, s.slot); }
    } else if s.DropOutput? {
      StartOf(w, s.slot);
    }
  }

  /** The record that is owed a death message is neither cleared nor reused:
      while the process or its message exists, the slot shows that job, still
      running, after any step. */
  lemma OwedRecordStays(w: World, s: Step, n: nat)
    requires Inv(w) && Enabled(w, s) && n < |w.lives| && (w.lives[n].Alive? || w.lives[n].Dead?)
    ensures InBounds(w, s) && n < |Next(w, s).lives|
    ensures var w', slot := Next(w, s), w.lives[n].slot;
            w'.lives[n].Alive? || w'.lives[n].Dead? ==>
              && w'.lives[n].slot == slot && slot < |w'.table.jobs|
              && w'.table.jobs[slot].inUse && w'.table.jobs[slot].id == n + 1 && w'.table.jobs[slot].state == Running
    ensures w.lives[n].Alive? ==> Next(w, s).lives[n].Alive? || Next(w, s).lives[n].Dead?
    ensures w.lives[n].Dead? && !Next(w, s).lives[n].Dead? ==>
              Posted(w.table.port, n) && !Posted(Next(w, s).table.port, n)
  {
    StepKeeps(w, s);
    StepMoves(w, s, n);
    var w' := Next(w, s);
    if !w'.lives[n].Gone? { RecordOf(w', n); }
    if w.lives[n].Dead? {
      assert Awaited(w.table.port, w.lives, n);
      if k :| 0 <= k < |w'.table.port| && w'.table.port[k].start == n { assert w'.lives[n].Dead?; }
    }
  }

  /** How far a start has come: running, exited, forgotten. */
  function Rank(l: Life): nat {
    if l.Gone? then 2 else if l.Over? then 1 else 0
  }

  predicate Later(a: Life, b: Life) {
    Rank(a) <= Rank(b) && (a.Over? && b.Over? ==> a.slot == b.slot && a.rc == b.rc)
  }

  lemma StepIsLater(ws: seq<World>, steps: seq<Step>, j: nat, n: nat)
    requires IsRun(ws, steps) && j < |steps| && n < |ws[j].lives|
    ensures n < |ws[j+1].lives| && Later(ws[j].lives[n], ws[j+1].lives[n])
  {
    RunKeeps(ws, steps, j);
    assert Follows(ws[j], steps[j], ws[j+1]);
    StepMoves(ws[j], steps[j], n);
  }

  lemma {:induction false} RunMoves(ws: seq<World>, steps: seq<Step>, i: nat, j: nat, n: nat)
    requires IsRun(ws, steps) && i <= j < |ws| && n < |ws[i].lives|
    ensures n < |ws[j].lives| && Later(ws[i].lives[n], ws[j].lives[n])
    decreases j
  {
    if i < j {
      RunMoves(ws, steps, i, j - 1, n);
      StepIsLater(ws, steps, j - 1, n);
    }
  }

  ghost predicate Shows(jobs: seq<Job>, id: nat, state: JobState) {
    exists s :: 0 <= s < |jobs| && jobs[s].inUse && jobs[s].id == id && jobs[s].state == state
  }

  ghost predicate ShowsCode(jobs: seq<Job>, id: nat, rc: int32) {
    exists s :: 0 <= s < |jobs| && jobs[s].inUse && jobs[s].id == id && jobs[s].state == Exited && jobs[s].rc == rc
  }

  /** The table shows each start as far as it has come. */
  lemma ShowsRank(w: World, n: nat, rc: int32)
    requires Inv(w) && n < |w.lives|
    ensures Shows(w.table.jobs, n + 1, Running) <==> Rank(w.lives[n]) == 0
    ensures Shows(w.table.jobs, n + 1, Exited) <==> Rank(w.lives[n]) == 1
    ensures ShowsCode(w.table.jobs, n + 1, rc) <==> w.lives[n].Over? && w.lives[n].rc == rc
  {
    if !w.lives[n].Gone? { RecordOf(w, n); }
    forall s: nat | s < |w.table.jobs| && w.table.jobs[s].inUse && w.table.jobs[s].id == n + 1
      ensures !w.lives[n].Gone? && w.lives[n].slot == s
    {
      StartOf(w, s);
    }
  }

  /** Over every run a job that is shown exited is never shown running again
      and keeps its exit code, and an id that has been given out and is no
      longer in the table never comes back. */
  lemma NeverBack(ws: seq<World>, steps: seq<Step>, i: nat, j: nat, n: nat, x: int32, y: int32)
    requires IsRun(ws, steps) && i <= j < |ws| && n < |ws[i].lives|
    ensures var a, b := ws[i].table.jobs, ws[j].table.jobs;
            && (Shows(a, n + 1, Exited) ==> !Shows(b, n + 1, Running))
            && (ShowsCode(a, n + 1, x) && ShowsCode(b, n + 1, y) ==> x == y)
            && (!Shows(a, n + 1, Running) && !Shows(a, n + 1, Exited)
                ==> !Shows(b, n + 1, Running) && !Shows(b, n + 1, Exited))
  {
    RunKeeps(ws, steps, i);
    RunKeeps(ws, steps, j);
    RunMoves(ws, steps, i, j, n);
    ShowsRank(ws[i], n, x);
    ShowsRank(ws[j], n, y);
  }

  // ---- the code takes the steps ----

  /** There is one slot to claim. */
  lemma OnePick(jobs: seq<Job>, a: nat, b: nat)
    requires IsPick(jobs, Some(a)) && IsPick(jobs, Some(b))
    ensures a == b
  {
  }

  /** An id leads to one record, before and after collecting. */
  lemma FoundIs(w: World, slot: nat, s: nat)
    requires Inv(w) && slot < |w.table.jobs| && w.table.jobs[slot].inUse
    requires IsFound(w.table.jobs, w.table.jobs[slot].id, Some(s))
             || IsFound(Drained(w.table).jobs, w.table.jobs[slot].id, Some(s))
    ensures s == slot
  {
    if s != slot { LiveIdsDiffer(w, s, slot); }
  }

  lemma IsThere(t: Table, slot: nat)
    requires slot < |t.jobs| && t.jobs[slot].inUse
    ensures !IsFound(t.jobs, t.jobs[slot].id, None) && !IsFound(Drained(t).jobs, t.jobs[slot].id, None)
  {
    assert Drained(t).jobs[slot].inUse;
  }

  /** A call that claims, signals or drops finds the record that the step is
      about. */
  method PerformCall(t: JobTable, w: World, s: Step)
    requires t.Valid() && t.Abs() == w.table && Inv(w) && Enabled(w, s) && InBounds(w, s)
    requires s.Start? || s.Signal? || s.DropOutput?
    modifies t, t.jobs
    ensures t.Valid() && t.Abs() == Next(w, s).table
  {
    if !s.Start? { IsThere(w.table, s.slot); }
    match s {
      case Start(priority, sandboxed, slot) =>
        var r := t.Reserve(priority, sandboxed);
        OnePick(Drained(w.table).jobs, r.value.0, slot);
      case Signal(slot, mask, found) =>
        var sent := PerformSignal(t, w, slot, mask, found);
      case DropOutput(slot) =>
        t.DropOutput(w.table.jobs[slot].id);
        ghost var at: nat :| IsFound(w.table.jobs, w.table.jobs[slot].id, Some(at))
                             && t.Abs() == Dropped(w.table, at);
        FoundIs(w, slot, at);
    }
  }

  /** The answer to a break: sent exactly to a process it can reach. */
  method PerformSignal(t: JobTable, w: World, slot: nat, mask: set<nat>, found: bool) returns (sent: bool)
    requires t.Valid() && t.Abs() == w.table && Inv(w) && Enabled(w, Signal(slot, mask, found))
    modifies t, t.jobs
    ensures t.Valid() && t.Abs() == Next(w, Signal(slot, mask, found)).table
    ensures 1 <= w.table.jobs[slot].id <= |w.lives| && sent == Reachable(HolderOf(w, slot), found)
  {
    IsThere(w.table, slot);
    SignalReaches(w, slot, mask, found);
    var answer := t.Signal(w.table.jobs[slot].id, mask, found);
    ghost var at: nat :| IsFound(Drained(w.table).jobs, w.table.jobs[slot].id, Some(at))
                         && answer == Some(CanSignal(Drained(w.table).jobs[at], found))
                         && t.Abs() == Signalled(Drained(w.table), at, mask, found);
    FoundIs(w, slot, at);
    sent := answer.value;
  }

  /** Every step is taken by the code of the table: from a table that stands
      for the world it leaves one that stands for the next world. A worker, a
      process and DOS go to the record of their own start. */
  method Perform(t: JobTable, w: World, s: Step)
    requires t.Valid() && t.Abs() == w.table && Inv(w) && Enabled(w, s)
    modifies t, t.jobs
    ensures t.Valid() && InBounds(w, s) && t.Abs() == Next(w, s).table && Inv(Next(w, s))
  {
    StepKeeps(w, s);
    match s {
      case OpenOutput(n, opens) => t.OpenOutput(w.lives[n].slot, opens);
      case Launch(_) =>
      case LaunchFails(n) => t.LaunchFailed(w.lives[n].slot);
      case Release(n) => t.Release(w.lives[n].slot);
      case Enter(n, pid) => t.JobEntry(w.lives[n].slot, pid);
      case Die(n, rc) => t.Die(w.lives[n].slot, n, rc);
      case Look => t.Drain();
      case _ => PerformCall(t, w, s);
    }
  }
}
