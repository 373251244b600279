/**
  The nightly log archival: compress, upload and delete old files, on whichever replica wins the
  day's slot.

  `Next` is one step of one replica against the shared disk, object store and lock server, so a
  list of events is an interleaving of any number of replicas with failures and crashes anywhere.
  The class `Host` runs the archival loop itself and records which events it made.
*/
module RetentionJob {
  import JobLock
  import Sequences

  newtype byte = x: int | 0 <= x < 256

  type Bytes = seq<byte>

  type Name = string

  // A gzip file, by what it decompresses to; it is well formed once its writer has closed it.
  datatype Gz = Gz(content: Bytes, closed: bool)

  // What no step changes: the log files as they were, their ages, and the lock's parameters.
  datatype Setup = Setup(
    source: map<Name, Bytes>,
    modified: map<Name, int>,
    cutoff: int,
    configured: bool,
    ttl: int)
  {
    predicate Old(n: Name) {
      n != LIVE && n in modified && modified[n] < cutoff
    }
  }

  // The file being written to; it is never archived.
  const LIVE := "live_stream.log"

  function ObjectName(n: Name): string {
    "archive/" + n + ".gz"
  }

  lemma ObjectNameInjective(m: Name, n: Name)
    requires ObjectName(m) == ObjectName(n)
    ensures m == n
  {
    var p, s := "archive/", ".gz";
    assert m == ObjectName(m)[|p|..|ObjectName(m)| - |s|];
    assert n == ObjectName(n)[|p|..|ObjectName(n)| - |s|];
  }

  // Where a replica is in the job; `todo` are the files its listing still holds.
  datatype Phase =
    | Idle
    | Listing(todo: seq<Name>)
    | Compressing(name: Name, copied: nat, todo: seq<Name>)
    | Compressed(name: Name, todo: seq<Name>)
    | Uploaded(name: Name, todo: seq<Name>)
    | TidyingUp(name: Name, todo: seq<Name>)

  datatype World = World(
    redis: JobLock.Redis,
    present: set<Name>,
    gz: map<Name, Gz>,
    objects: map<string, Gz>,
    phases: map<nat, Phase>,
    slots: map<nat, Slot>)
  {
    function Phase(r: nat): Phase {
      if r in phases then phases[r] else Idle
    }

    predicate Active(r: nat) { Phase(r) != Idle }

    function At(r: nat, p: Phase): World {
      this.(phases := phases[r := p])
    }
  }

  // The slot a replica last won: its key and when.
  datatype Slot = Slot(key: string, wonAt: int)

  datatype UploadReply = Stored | Refused(stored: bool)

  datatype Event =
    | Attempt(r: nat, key: string, now: int, net: JobLock.Network, listing: seq<Name>)
    | Open(r: nat)            // take the next file, or end the job when there is none
    | Copy(r: nat, n: nat)    // copy up to n more bytes; at the end of the file, close the archive
    | Upload(r: nat, reply: UploadReply)
    | RemoveSource(r: nat)
    | RemoveGz(r: nat)
    | Fail(r: nat)            // the current operation raises: log it and go on with the next file
    | Crash(r: nat)

  function Todo(p: Phase): seq<Name> {
    if p.Idle? then [] else p.todo
  }

  function StartJob(s: Setup, w: World, e: Event): World
    requires e.Attempt?
  {
    if w.Active(e.r) then w  // one process does not run a job twice at a time
    else
      var (redis, won) := JobLock.Acquire(w.redis, s.configured, e.key, e.now, s.ttl, e.net);
      var w' := w.(redis := redis);
      if won then w'.At(e.r, Listing(e.listing)).(slots := w.slots[e.r := Slot(e.key, e.now)]) else w'
  }

  function TakeFile(s: Setup, w: World, r: nat): World {
    var todo := Todo(w.Phase(r));
    if todo == [] then w.At(r, Idle)
    else
      var n := todo[0];
      if n !in w.present && n != LIVE then w.At(r, Idle)  // stat() raises outside the try
      else if !s.Old(n) || n !in s.source then w.At(r, Listing(todo[1..]))
      else w.At(r, Compressing(n, 0, todo[1..])).(gz := w.gz[n := Gz([], false)])
  }

  function CopyChunk(s: Setup, w: World, r: nat, k: nat): World {
    match w.Phase(r)
    case Compressing(n, copied, todo) =>
      if n !in s.source || copied > |s.source[n]| then w
      else if copied == |s.source[n]| then
        w.(gz := w.gz[n := Gz(s.source[n], true)]).At(r, Compressed(n, todo))
      else
        var upTo := if copied + k < |s.source[n]| then copied + k else |s.source[n]|;
        w.(gz := w.gz[n := Gz(s.source[n][..upTo], false)]).At(r, Compressing(n, upTo, todo))
    case _ => w
  }

  function UploadGz(w: World, r: nat, reply: UploadReply): World {
    match w.Phase(r)
    case Compressed(n, todo) =>
      if n !in w.gz then w.At(r, Listing(todo))
      else
        var w' := if reply == Stored || reply.stored then w.(objects := w.objects[ObjectName(n) := w.gz[n]]) else w;
        if reply == Stored then w'.At(r, Uploaded(n, todo)) else w'.At(r, TidyingUp(n, todo))
    case _ => w
  }

  function FailFile(w: World, r: nat): World {
    match w.Phase(r)
    case Idle => w
    case Compressing(n, _, todo) =>
      // leaving the `with` block closes what was written so far
      w.At(r, Listing(todo)).(gz := if n in w.gz then w.gz[n := w.gz[n].(closed := true)] else w.gz)
    case Listing(todo) =>
      w.At(r, Listing(if todo == [] then [] else todo[1..]))  // the file or its archive cannot be opened
    case p => w.At(r, Listing(p.todo))
  }

  function Next(s: Setup, w: World, e: Event): World {
    match e
    case Attempt(_, _, _, _, _) => StartJob(s, w, e)
    case Open(r) => if w.Phase(r).Listing? then TakeFile(s, w, r) else w
    case Copy(r, k) => CopyChunk(s, w, r, k)
    case Upload(r, reply) => UploadGz(w, r, reply)
    case RemoveSource(r) =>
      if w.Phase(r).Uploaded? then
        var p := w.Phase(r);
        w.(present := w.present - {p.name}).At(r, TidyingUp(p.name, p.todo))
      else w
    case RemoveGz(r) =>
      if w.Phase(r).TidyingUp? then
        var p := w.Phase(r);
        w.(gz := w.gz - {p.name}).At(r, Listing(p.todo))
      else w
    case Fail(r) => FailFile(w, r)
    case Crash(r) => w.At(r, Idle)
  }

  // A listed file that is gone ends the job: `stat` raises outside the try.
  lemma MissingFileEndsTheJob(s: Setup, w: World, r: nat)
    requires w.Phase(r).Listing? && w.Phase(r).todo != []
    requires w.Phase(r).todo[0] != LIVE && w.Phase(r).todo[0] !in w.present
    ensures Next(s, w, Open(r)) == w.At(r, Idle)
  {
  }

  // Any other failure leaves logs and object store as they are and goes on with the next file.
  lemma FailureSkipsOneFile(s: Setup, w: World, r: nat)
    requires w.Phase(r) != Idle
    ensures var w', p := Next(s, w, Fail(r)), w.Phase(r);
            && w'.present == w.present && w'.objects == w.objects && w'.redis == w.redis
            && w'.Phase(r) == Listing(if p.Listing? && p.todo != [] then p.todo[1..] else p.todo)
            && forall q :: q != r ==> w'.Phase(q) == w.Phase(q)
  {
  }

  function Run(s: Setup, w: World, events: seq<Event>): World {
    if events == [] then w
    else Next(s, Run(s, w, events[..|events| - 1]), events[|events| - 1])
  }

  function Initial(s: Setup, gz: map<Name, Gz>, objects: map<string, Gz>): World {
    World(map[], s.source.Keys, gz, objects, map[], map[])
  }

  // ---------------------------------------------------------------- one runner at a time

  ghost predicate Exclusive(w: World) {
    forall q, r :: w.Active(q) && w.Active(r) ==> q == r
  }

  // Every running replica still has its key on the server, until a TTL after its win.
  ghost predicate LocksStand(s: Setup, w: World) {
    forall r :: w.Active(r) ==>
      && r in w.slots
      && (s.configured ==> w.slots[r].key in w.redis && w.redis[w.slots[r].key] >= w.slots[r].wonAt + s.ttl)
  }

  // An attempt made while another replica runs is for the same key and less than a TTL after
  // that replica's win.  Without a lock server nobody may attempt at all.
  ghost predicate Timely(s: Setup, w: World, e: Event) {
    e.Attempt? ==>
      forall q :: w.Active(q) && q != e.r && q in w.slots ==>
        s.configured && e.key == w.slots[q].key && e.now < w.slots[q].wonAt + s.ttl
  }

  ghost predicate TimelyRun(s: Setup, w: World, events: seq<Event>) {
    events == []
    || (TimelyRun(s, w, events[..|events| - 1])
        && Timely(s, Run(s, w, events[..|events| - 1]), events[|events| - 1]))
  }

  // ---------------------------------------------------------------- nothing is deleted before it is archived

  ghost predicate Archived(s: Setup, w: World) {
    forall n <- s.source :: n !in w.present ==>
      ObjectName(n) in w.objects && w.objects[ObjectName(n)] == Gz(s.source[n], true)
  }

  // What the disk and the store hold for the file a replica is working on.
  ghost predicate WorkInHand(s: Setup, w: World, p: Phase) {
    match p
    case Idle => true
    case Listing(_) => true
    case TidyingUp(n, _) => true
    case Compressing(n, copied, _) =>
      && n in s.source && copied <= |s.source[n]|
      && n in w.gz && w.gz[n] == Gz(s.source[n][..copied], false)
    case Compressed(n, _) => n in s.source && n in w.gz && w.gz[n] == Gz(s.source[n], true)
    case Uploaded(n, _) =>
      n in s.source && ObjectName(n) in w.objects && w.objects[ObjectName(n)] == Gz(s.source[n], true)
  }

  ghost predicate Safe(s: Setup, w: World) {
    && Exclusive(w) && LocksStand(s, w) && Archived(s, w)
    && (forall r :: WorkInHand(s, w, w.Phase(r)))
  }

  lemma AttemptEffect(s: Setup, w: World, e: Event)
    requires e.Attempt?
    ensures var w' := StartJob(s, w, e);
            && w'.present == w.present && w'.gz == w.gz && w'.objects == w.objects
            && (forall r :: r != e.r ==> w'.Phase(r) == w.Phase(r))
            && (forall r :: r != e.r && r in w.slots ==> r in w'.slots && w'.slots[r] == w.slots[r])
            && (w'.Phase(e.r) == w.Phase(e.r) || w'.Phase(e.r) == Listing(e.listing))
            && (w.Active(e.r) ==> w' == w)
  {
  }

  // A replica that wins finds no other one running.
  lemma WinnerRunsAlone(s: Setup, w: World, e: Event, q: nat)
    requires Exclusive(w) && LocksStand(s, w) && e.Attempt? && Timely(s, w, e)
    requires w.Active(q) && q != e.r && !w.Active(e.r)
    ensures !StartJob(s, w, e).Active(e.r)
  {
  }

  lemma AttemptKeepsLocks(s: Setup, w: World, e: Event, r: nat)
    requires Exclusive(w) && LocksStand(s, w) && e.Attempt? && Timely(s, w, e)
    requires StartJob(s, w, e).Active(r)
    ensures var w' := StartJob(s, w, e);
            && r in w'.slots
            && (s.configured ==> w'.slots[r].key in w'.redis && w'.redis[w'.slots[r].key] >= w'.slots[r].wonAt + s.ttl)
  {
    AttemptEffect(s, w, e);
    if r != e.r {
      assert w.Active(r);
    }
  }

  lemma AttemptKeepsSafe(s: Setup, w: World, e: Event)
    requires Safe(s, w) && e.Attempt? && Timely(s, w, e)
    ensures Safe(s, StartJob(s, w, e))
  {
    var w' := StartJob(s, w, e);
    AttemptEffect(s, w, e);
    forall q, r | w'.Active(q) && w'.Active(r) ensures q == r {
      if !w.Active(e.r) && q != r {
        var other := if q == e.r then r else q;
        if other != e.r && w.Active(other) { WinnerRunsAlone(s, w, e, other); }
      }
    }
    forall r | w'.Active(r)
      ensures r in w'.slots
      ensures s.configured ==> w'.slots[r].key in w'.redis && w'.redis[w'.slots[r].key] >= w'.slots[r].wonAt + s.ttl
    {
      AttemptKeepsLocks(s, w, e, r);
    }
    forall r ensures WorkInHand(s, w', w'.Phase(r)) {
      assert WorkInHand(s, w, w.Phase(r));
    }
  }

  // When the one running replica moves on to phase `p`, only its own work has to be checked.
  lemma OneReplicaMoves(s: Setup, w: World, w': World, r: nat, p: Phase)
    requires Safe(s, w) && w.Active(r)
    requires w'.redis == w.redis && w'.slots == w.slots && w'.phases == w.phases[r := p]
    requires Archived(s, w') && WorkInHand(s, w', p)
    ensures Safe(s, w')
  {
    forall q: nat | q != r ensures w'.Phase(q) == Idle {
      assert w.Active(q) ==> q == r;
    }
    assert w'.Phase(r) == p;
  }

  lemma UploadKeepsArchived(s: Setup, w: World, n: Name)
    requires Archived(s, w) && n in s.source && n in w.gz && w.gz[n] == Gz(s.source[n], true)
    ensures Archived(s, w.(objects := w.objects[ObjectName(n) := w.gz[n]]))
  {
    forall m | m in s.source && ObjectName(m) == ObjectName(n) ensures m == n {
      ObjectNameInjective(m, n);
    }
  }

  lemma IdleReplicaDoesNothing(s: Setup, w: World, e: Event)
    requires Safe(s, w) && !e.Attempt? && !w.Active(e.r)
    ensures Safe(s, Next(s, w, e))
  {
    var w' := Next(s, w, e);
    assert w' == w.(phases := w'.phases);
    forall r: nat
      ensures w'.Phase(r) == w.Phase(r) && (w'.Active(r) <==> w.Active(r)) && WorkInHand(s, w', w'.Phase(r))
    {
      assert WorkInHand(s, w, w.Phase(r));
    }
  }

  ghost predicate GoodMove(s: Setup, w: World, w': World, r: nat) {
    && w'.redis == w.redis && w'.slots == w.slots
    && w'.phases == w.phases[r := w'.Phase(r)]
    && Archived(s, w') && WorkInHand(s, w', w'.Phase(r))
  }

  // A step that touches neither the log files nor the store.
  lemma QuietMoveIsGood(s: Setup, w: World, w': World, r: nat, p: Phase)
    requires Archived(s, w) && WorkInHand(s, w', p) && w'.phases == w.phases[r := p]
    requires w'.redis == w.redis && w'.slots == w.slots && w'.present == w.present && w'.objects == w.objects
    ensures GoodMove(s, w, w', r)
  {
    assert w'.Phase(r) == p;
  }

  lemma TakingAFileIsGood(s: Setup, w: World, r: nat)
    requires Archived(s, w) && w.Phase(r).Listing?
    ensures GoodMove(s, w, TakeFile(s, w, r), r)
  {
    var todo := w.Phase(r).todo;
    if todo == [] || (todo[0] !in w.present && todo[0] != LIVE) {
      QuietMoveIsGood(s, w, w.At(r, Idle), r, Idle);
    } else if !s.Old(todo[0]) || todo[0] !in s.source {
      QuietMoveIsGood(s, w, w.At(r, Listing(todo[1..])), r, Listing(todo[1..]));
    } else {
      var n, p := todo[0], Compressing(todo[0], 0, todo[1..]);
      assert s.source[n][..0] == [];
      QuietMoveIsGood(s, w, w.At(r, p).(gz := w.gz[n := Gz([], false)]), r, p);
    }
  }

  lemma CopyingIsGood(s: Setup, w: World, r: nat, k: nat)
    requires Archived(s, w) && WorkInHand(s, w, w.Phase(r)) && w.Phase(r).Compressing?
    ensures GoodMove(s, w, CopyChunk(s, w, r, k), r)
  {
    var n, w' := w.Phase(r).name, CopyChunk(s, w, r, k);
    assert s.source[n][..|s.source[n]|] == s.source[n];
    QuietMoveIsGood(s, w, w', r, w'.Phase(r));
  }

  lemma UploadingIsGood(s: Setup, w: World, r: nat, reply: UploadReply)
    requires Archived(s, w) && WorkInHand(s, w, w.Phase(r)) && w.Phase(r).Compressed?
    ensures GoodMove(s, w, UploadGz(w, r, reply), r)
  {
    UploadKeepsArchived(s, w, w.Phase(r).name);
  }

  lemma RemovingIsGood(s: Setup, w: World, r: nat)
    requires Archived(s, w) && WorkInHand(s, w, w.Phase(r)) && w.Active(r)
    ensures GoodMove(s, w, Next(s, w, RemoveGz(r)), r)
    ensures GoodMove(s, w, Next(s, w, RemoveSource(r)), r)
  {
    assert w.phases == w.phases[r := w.Phase(r)];
  }

  lemma LeavingIsGood(s: Setup, w: World, r: nat)
    requires Archived(s, w) && w.Active(r)
    ensures GoodMove(s, w, Next(s, w, Crash(r)), r)
    ensures GoodMove(s, w, Next(s, w, Fail(r)), r)
  {
    QuietMoveIsGood(s, w, w.At(r, Idle), r, Idle);
    QuietMoveIsGood(s, w, FailFile(w, r), r, FailFile(w, r).Phase(r));
  }

  lemma RunningReplicaMovesWell(s: Setup, w: World, e: Event)
    requires Archived(s, w) && WorkInHand(s, w, w.Phase(e.r)) && !e.Attempt? && w.Active(e.r)
    ensures GoodMove(s, w, Next(s, w, e), e.r)
  {
    assert w.phases == w.phases[e.r := w.Phase(e.r)];
    match e
    case Open(r) => if w.Phase(r).Listing? { TakingAFileIsGood(s, w, r); }
    case Copy(r, k) => if w.Phase(r).Compressing? { CopyingIsGood(s, w, r, k); }
    case Upload(r, reply) => if w.Phase(r).Compressed? { UploadingIsGood(s, w, r, reply); }
    case RemoveSource(r) => RemovingIsGood(s, w, r);
    case RemoveGz(r) => RemovingIsGood(s, w, r);
    case Fail(r) => LeavingIsGood(s, w, r);
    case Crash(r) => LeavingIsGood(s, w, r);
    case Attempt(_, _, _, _, _) =>
  }

  lemma WorkKeepsSafe(s: Setup, w: World, e: Event)
    requires Safe(s, w) && !e.Attempt?
    ensures Safe(s, Next(s, w, e))
  {
    if w.Active(e.r) {
      RunningReplicaMovesWell(s, w, e);
      OneReplicaMoves(s, w, Next(s, w, e), e.r, Next(s, w, e).Phase(e.r));
    } else {
      IdleReplicaDoesNothing(s, w, e);
    }
  }

  // SAFETY: over every interleaving in which no replica attempts another slot, or the same one
  // after its TTL, while a winner is still running, at most one replica runs at a time and no
  // log file is gone without its complete gzip in the object store.
  lemma {:induction false} TimelyRunsDeleteOnlyArchivedFiles(s: Setup, gz: map<Name, Gz>, objects: map<string, Gz>,
                                                             events: seq<Event>)
    requires TimelyRun(s, Initial(s, gz, objects), events)
    ensures Safe(s, Run(s, Initial(s, gz, objects), events))
  {
    if events != [] {
      var init, e := events[..|events| - 1], events[|events| - 1];
      TimelyRunsDeleteOnlyArchivedFiles(s, gz, objects, init);
      var w := Run(s, Initial(s, gz, objects), init);
      if e.Attempt? {
        AttemptKeepsSafe(s, w, e);
      } else {
        WorkKeepsSafe(s, w, e);
      }
    }
  }

  // ---------------------------------------------------------------- one occurrence

  ghost predicate InWindow(events: seq<Event>, key: string, t0: int, ttl: int) {
    forall e <- events :: e.Attempt? ==> e.key == key && t0 <= e.now < t0 + ttl
  }

  // Only one replica has ever won, and its key outlives the window.
  ghost predicate OneWinner(s: Setup, w: World, key: string, t0: int) {
    && (forall r: nat :: w.Active(r) ==> r in w.slots)
    && (forall q <- w.slots, r <- w.slots :: q == r)
    && (forall q <- w.slots :: WonInWindow(s, w, q, key, t0))
  }

  ghost predicate WonInWindow(s: Setup, w: World, q: nat, key: string, t0: int)
    requires q in w.slots
  {
    w.slots[q].key == key && w.slots[q].wonAt >= t0 && key in w.redis && w.redis[key] >= t0 + s.ttl
  }

  lemma AttemptIsTimely(s: Setup, w: World, e: Event, key: string, t0: int)
    requires s.configured && OneWinner(s, w, key, t0) && e.Attempt? && e.key == key && t0 <= e.now < t0 + s.ttl
    ensures Timely(s, w, e)
  {
    forall q | w.Active(q) && q in w.slots ensures e.now < w.slots[q].wonAt + s.ttl && w.slots[q].key == key {
      assert WonInWindow(s, w, q, key, t0);
    }
  }

  lemma AttemptKeepsOneWinner(s: Setup, w: World, e: Event, key: string, t0: int)
    requires s.configured && OneWinner(s, w, key, t0) && e.Attempt? && e.key == key && t0 <= e.now < t0 + s.ttl
    ensures OneWinner(s, StartJob(s, w, e), key, t0)
  {
    if q :| q in w.slots {
      assert WonInWindow(s, w, q, key, t0);
      assert StartJob(s, w, e) == w;
    } else {
      FirstWinner(s, w, e, t0);
    }
  }

  lemma FirstWinner(s: Setup, w: World, e: Event, t0: int)
    requires s.configured && w.slots == map[] && (forall r: nat :: !w.Active(r))
    requires e.Attempt? && t0 <= e.now < t0 + s.ttl
    ensures OneWinner(s, StartJob(s, w, e), e.key, t0)
  {
    var w' := StartJob(s, w, e);
    AttemptEffect(s, w, e);
    assert !w.Active(e.r);
    assert w'.slots == map[] || w'.slots == map[e.r := Slot(e.key, e.now)];
    forall r: nat | w'.Active(r) ensures r in w'.slots {
      assert !w.Active(r);
    }
  }

  ghost predicate StartsNobody(w: World, w': World) {
    w'.slots == w.slots && w'.redis == w.redis && forall r: nat :: w'.Active(r) ==> w.Active(r)
  }

  lemma MovingStartsNobody(w: World, w': World, r: nat, p: Phase)
    requires w'.slots == w.slots && w'.redis == w.redis && (w'.phases == w.phases || w'.phases == w.phases[r := p])
    requires w.Active(r) || p == Idle
    ensures StartsNobody(w, w')
  {
  }

  lemma TakingStartsNobody(s: Setup, w: World, r: nat)
    requires w.Phase(r).Listing?
    ensures StartsNobody(w, TakeFile(s, w, r))
  {
    var todo := w.Phase(r).todo;
    if todo == [] || (todo[0] !in w.present && todo[0] != LIVE) {
      MovingStartsNobody(w, w.At(r, Idle), r, Idle);
    } else if !s.Old(todo[0]) || todo[0] !in s.source {
      MovingStartsNobody(w, w.At(r, Listing(todo[1..])), r, Listing(todo[1..]));
    } else {
      var p := Compressing(todo[0], 0, todo[1..]);
      MovingStartsNobody(w, w.At(r, p).(gz := w.gz[todo[0] := Gz([], false)]), r, p);
    }
  }

  lemma FailingStartsNobody(w: World, r: nat)
    ensures StartsNobody(w, FailFile(w, r))
  {
    if w.Active(r) {
      MovingStartsNobody(w, FailFile(w, r), r, FailFile(w, r).Phase(r));
    }
  }

  lemma CopiesStartNobody(s: Setup, w: World, r: nat, k: nat, reply: UploadReply)
    ensures StartsNobody(w, CopyChunk(s, w, r, k)) && StartsNobody(w, UploadGz(w, r, reply))
  {
    if w.Active(r) {
      MovingStartsNobody(w, CopyChunk(s, w, r, k), r, CopyChunk(s, w, r, k).Phase(r));
      MovingStartsNobody(w, UploadGz(w, r, reply), r, UploadGz(w, r, reply).Phase(r));
    }
  }

  lemma WorkStartsNobody(s: Setup, w: World, e: Event)
    requires !e.Attempt?
    ensures StartsNobody(w, Next(s, w, e))
  {
    match e
    case Open(r) => if w.Phase(r).Listing? { TakingStartsNobody(s, w, r); }
    case Copy(r, k) => CopiesStartNobody(s, w, r, k, Stored);
    case Upload(r, reply) => CopiesStartNobody(s, w, r, 0, reply);
    case RemoveSource(r) => MovingStartsNobody(w, Next(s, w, e), r, Next(s, w, e).Phase(r));
    case RemoveGz(r) => MovingStartsNobody(w, Next(s, w, e), r, Next(s, w, e).Phase(r));
    case Fail(r) => FailingStartsNobody(w, r);
    case Crash(r) => MovingStartsNobody(w, Next(s, w, e), r, Idle);
    case Attempt(_, _, _, _, _) =>
  }

  lemma WorkKeepsOneWinner(s: Setup, w: World, e: Event, key: string, t0: int)
    requires OneWinner(s, w, key, t0) && !e.Attempt?
    ensures OneWinner(s, Next(s, w, e), key, t0)
  {
    var w' := Next(s, w, e);
    WorkStartsNobody(s, w, e);
    forall q | q in w'.slots ensures WonInWindow(s, w', q, key, t0) { assert WonInWindow(s, w, q, key, t0); }
    forall r: nat | w'.Active(r) ensures r in w'.slots { assert w.Active(r); }
  }

  // Any number of replicas attempting one day's slot within its TTL: only one ever gets it, and
  // its run may last as long as it likes.
  lemma {:induction false} OneOccurrenceHasOneRunner(s: Setup, gz: map<Name, Gz>, objects: map<string, Gz>,
                                                     events: seq<Event>,
                                                     key: string, t0: int)
    requires s.configured && InWindow(events, key, t0, s.ttl)
    ensures TimelyRun(s, Initial(s, gz, objects), events)
    ensures OneWinner(s, Run(s, Initial(s, gz, objects), events), key, t0)
  {
    if events != [] {
      var init, e := events[..|events| - 1], events[|events| - 1];
      OneOccurrenceHasOneRunner(s, gz, objects, init, key, t0);
      var w := Run(s, Initial(s, gz, objects), init);
      if e.Attempt? {
        AttemptIsTimely(s, w, e, key, t0);
        AttemptKeepsOneWinner(s, w, e, key, t0);
      } else {
        WorkKeepsOneWinner(s, w, e, key, t0);
      }
    }
  }

  lemma OneOccurrenceIsSafe(s: Setup, gz: map<Name, Gz>, objects: map<string, Gz>, events: seq<Event>, key: string,
                            t0: int)
    requires s.configured && InWindow(events, key, t0, s.ttl)
    ensures Archived(s, Run(s, Initial(s, gz, objects), events))
  {
    OneOccurrenceHasOneRunner(s, gz, objects, events, key, t0);
    TimelyRunsDeleteOnlyArchivedFiles(s, gz, objects, events);
  }

  lemma RunSnoc(s: Setup, w: World, events: seq<Event>, e: Event)
    ensures Run(s, w, events + [e]) == Next(s, Run(s, w, events), e)
  {
    assert (events + [e])[..|events|] == events;
  }

  const LATE := "a.log"

  ghost function LateSetup(ttl: int): Setup {
    Setup(map[LATE := [65]], map[LATE := 0], 1, true, ttl)
  }

  // The first replica has won, and compressed the file.
  ghost function HalfWay(ttl: int, key: string): World {
    World(map[key := ttl], {LATE}, map[LATE := Gz([65], true)], map[], map[0 := Compressed(LATE, [])],
        map[0 := Slot(key, 0)])
  }

  ghost function Started(ttl: int, key: string): World {
    World(map[key := ttl], {LATE}, map[], map[], map[0 := Listing([LATE])], map[0 := Slot(key, 0)])
  }

  // The archive of the one-byte file, with `done` of it copied.
  ghost function Copied(ttl: int, key: string, done: nat): World
    requires done <= 1
  {
    Started(ttl, key).(gz := map[LATE := Gz([65][..done], false)], phases := map[0 := Compressing(LATE, done, [])])
  }

  lemma FirstReplicaStarts(ttl: int, key: string)
    requires ttl > 0
    ensures Next(LateSetup(ttl), Initial(LateSetup(ttl), map[], map[]),
                 Attempt(0, key, 0, JobLock.Delivered, [LATE])) == Started(ttl, key)
    ensures Next(LateSetup(ttl), Started(ttl, key), Open(0)) == Copied(ttl, key, 0)
  {
    assert [LATE][1..] == [];
  }

  lemma FirstReplicaCopies(ttl: int, key: string)
    ensures Next(LateSetup(ttl), Copied(ttl, key, 0), Copy(0, 1)) == Copied(ttl, key, 1)
  {
  }

  lemma FirstReplicaCloses(ttl: int, key: string)
    ensures Next(LateSetup(ttl), Copied(ttl, key, 1), Copy(0, 1)) == HalfWay(ttl, key)
  {
  }

  lemma FirstReplicaCompresses(ttl: int, key: string)
    requires ttl > 0
    ensures Run(LateSetup(ttl), Initial(LateSetup(ttl), map[], map[]), FirstEvents(key)) == HalfWay(ttl, key)
  {
    FirstReplicaStarts(ttl, key);
    FirstReplicaCopies(ttl, key);
    FirstReplicaCloses(ttl, key);
    ReplayOf(LateSetup(ttl), Initial(LateSetup(ttl), map[], map[]), FirstEvents(key),
             Started(ttl, key), Copied(ttl, key, 0), Copied(ttl, key, 1), HalfWay(ttl, key));
  }

  // The second replica has won too, and its listing still shows the file.
  ghost function Raced(ttl: int, key: string): World {
    HalfWay(ttl, key).(redis := map[key := ttl + ttl],
                       phases := map[0 := Compressed(LATE, []), 1 := Listing([LATE])],
                       slots := map[0 := Slot(key, 0), 1 := Slot(key, ttl)])
  }

  ghost function Truncated(ttl: int, key: string): World {
    Raced(ttl, key).(gz := map[LATE := Gz([], false)],
                     phases := map[0 := Compressed(LATE, []), 1 := Compressing(LATE, 0, [])])
  }

  lemma SecondReplicaTruncates(ttl: int, key: string)
    requires ttl > 0
    ensures Next(LateSetup(ttl), HalfWay(ttl, key), Attempt(1, key, ttl, JobLock.Delivered, [LATE])) == Raced(ttl, key)
    ensures Next(LateSetup(ttl), Raced(ttl, key), Open(1)) == Truncated(ttl, key)
  {
    assert [LATE][1..] == [];
  }

  lemma FirstReplicaShips(ttl: int, key: string)
    ensures var s, w := LateSetup(ttl), Truncated(ttl, key);
            !Archived(s, Next(s, Next(s, w, Upload(0, Stored)), RemoveSource(0)))
  {
    var s, n := LateSetup(ttl), LATE;
    var w7 := Next(s, Truncated(ttl, key), Upload(0, Stored));
    assert w7.Phase(0) == Uploaded(n, []) && w7.objects == map[ObjectName(n) := Gz([], false)];
    var w8 := Next(s, w7, RemoveSource(0));
    assert n in s.source && n !in w8.present && w8.objects[ObjectName(n)] == Gz([], false);
  }

  ghost function FirstEvents(key: string): seq<Event> {
    [Attempt(0, key, 0, JobLock.Delivered, [LATE]), Open(0), Copy(0, 1), Copy(0, 1)]
  }

  ghost function SecondEvents(ttl: int, key: string): seq<Event> {
    [Attempt(1, key, ttl, JobLock.Delivered, [LATE]), Open(1), Upload(0, Stored), RemoveSource(0)]
  }

  lemma RaceLosesTheFile(ttl: int, key: string)
    requires ttl > 0
    ensures !Archived(LateSetup(ttl),
                      Run(LateSetup(ttl), HalfWay(ttl, key),
                          SecondEvents(ttl, key)))
  {
    var s := LateSetup(ttl);
    var second := [Attempt(1, key, ttl, JobLock.Delivered, [LATE]), Open(1), Upload(0, Stored), RemoveSource(0)];
    SecondReplicaTruncates(ttl, key);
    FirstReplicaShips(ttl, key);
    var w7 := Next(s, Truncated(ttl, key), Upload(0, Stored));
    ReplayOf(s, HalfWay(ttl, key), second, Raced(ttl, key), Truncated(ttl, key), w7, Next(s, w7, RemoveSource(0)));
  }

  lemma LateRun(ttl: int, key: string)
    requires ttl > 0
    ensures !Archived(LateSetup(ttl),
            Run(LateSetup(ttl), Initial(LateSetup(ttl), map[], map[]), FirstEvents(key) + SecondEvents(ttl, key)))
  {
    FirstReplicaCompresses(ttl, key);
    RaceLosesTheFile(ttl, key);
    RunConcat(LateSetup(ttl), Initial(LateSetup(ttl), map[], map[]), FirstEvents(key), SecondEvents(ttl, key));
  }

  ghost predicate LateHistory(s: Setup, events: seq<Event>, ttl: int, key: string) {
    s.configured && s.ttl == ttl && forall e <- events :: e.Attempt? ==> e.key == key && 0 <= e.now <= ttl
  }

  // The TTL matters: an attempt just one TTL after a win that is still running truncates the
  // winner's archive, which is then uploaded in place of the file it deletes.
  lemma LateAttemptLosesAFile(ttl: int, key: string)
    requires ttl > 0
    ensures exists s: Setup, events: seq<Event> ::
              LateHistory(s, events, ttl, key) && !Archived(s, Run(s, Initial(s, map[], map[]), events))
  {
    LateRun(ttl, key);
    assert LateHistory(LateSetup(ttl), FirstEvents(key) + SecondEvents(ttl, key), ttl, key);
  }

  // With an expiry that Redis refuses nobody ever wins, and nothing is deleted.
  lemma {:induction false} NobodyWins(s: Setup, gz: map<Name, Gz>, objects: map<string, Gz>, events: seq<Event>)
    requires s.configured && s.ttl <= 0
    ensures var w := Run(s, Initial(s, gz, objects), events);
            (forall r: nat :: !w.Active(r)) && w.present == s.source.Keys
  {
    if events != [] {
      var init, e := events[..|events| - 1], events[|events| - 1];
      NobodyWins(s, gz, objects, init);
      var w := Run(s, Initial(s, gz, objects), init);
      assert !w.Active(e.r);
      if !e.Attempt? {
        WorkStartsNobody(s, w, e);
      }
    }
  }

  // Every run whose attempts for one slot lie within `width` deletes only archived files.
  ghost predicate SafeWidth(ttl: int, width: int, key: string) {
    forall s: Setup, gz: map<Name, Gz>, objects: map<string, Gz>, events: seq<Event>, t0: int ::
      s.configured && s.ttl == ttl && InWindow(events, key, t0, width) ==>
        Archived(s, Run(s, Initial(s, gz, objects), events))
  }

  // LOCK AND ARCHIVER: they are safe together for attempts spread over `width` exactly when that
  // is no more than the TTL, or the TTL is one that Redis refuses.
  lemma WidthIsSafeIff(ttl: int, width: int, key: string)
    ensures SafeWidth(ttl, width, key) <==> width <= ttl || ttl <= 0
  {
    if width <= ttl || ttl <= 0 {
      forall s: Setup, gz: map<Name, Gz>, objects: map<string, Gz>, events: seq<Event>, t0: int
        | s.configured && s.ttl == ttl && InWindow(events, key, t0, width)
        ensures Archived(s, Run(s, Initial(s, gz, objects), events))
      {
        if ttl <= 0 {
          NobodyWins(s, gz, objects, events);
        } else {
          assert InWindow(events, key, t0, s.ttl);
          OneOccurrenceIsSafe(s, gz, objects, events, key, t0);
        }
      }
    } else {
      LateAttemptLosesAFile(ttl, key);
      var s: Setup, events: seq<Event> :| LateHistory(s, events, ttl, key)
                                          && !Archived(s, Run(s, Initial(s, map[], map[]), events));
      assert InWindow(events, key, 0, width);
    }
  }

  lemma ReplayOf(s: Setup, w: World, es: seq<Event>, w1: World, w2: World, w3: World, w4: World)
    requires |es| == 4
    requires w1 == Next(s, w, es[0]) && w2 == Next(s, w1, es[1]) && w3 == Next(s, w2, es[2]) && w4 == Next(s, w3, es[3])
    ensures Run(s, w, es) == w4
  {
    RunSnoc(s, w, es[..0], es[0]);
    assert es[..1] == es[..0] + [es[0]];
    RunSnoc(s, w, es[..1], es[1]);
    assert es[..2] == es[..1] + [es[1]];
    RunSnoc(s, w, es[..2], es[2]);
    assert es[..3] == es[..2] + [es[2]];
    RunSnoc(s, w, es[..3], es[3]);
    assert es == es[..3] + [es[3]];
  }

  lemma {:induction false} RunConcat(s: Setup, w: World, es: seq<Event>, fs: seq<Event>)
    ensures Run(s, w, es + fs) == Run(s, Run(s, w, es), fs)
  {
    if fs == [] {
      assert es + fs == es;
    } else {
      RunConcat(s, w, es, fs[..|fs| - 1]);
      Sequences.InitOfConcat(es, fs);
    }
  }

  // ---------------------------------------------------------------- the loop itself

  const CHUNK := 65536

  // How the operations on one file turn out.
  datatype Script = Script(opens: bool, copyFailsAt: int, reply: UploadReply, sourceStuck: bool, gzStuck: bool)
  {
    predicate Succeeds(length: nat) {
      opens && !(0 <= copyFailsAt <= length) && reply == Stored && !sourceStuck
    }

    // The whole archive reaches the object store, even if the reply says otherwise.
    predicate Stores(length: nat) {
      opens && !(0 <= copyFailsAt <= length) && (reply == Stored || reply.stored)
    }
  }

  class Host {
    var present: set<Name>
    var gz: map<Name, Gz>
    var objects: map<string, Gz>

    ghost predicate Shows(w: World)
      reads this
    {
      present == w.present && gz == w.gz && objects == w.objects
    }

    constructor (present: set<Name>, gz: map<Name, Gz>, objects: map<string, Gz>)
      ensures this.present == present && this.gz == gz && this.objects == objects
    {
      this.present, this.gz, this.objects := present, gz, objects;
    }

    // `shutil.copyfileobj` into a fresh archive; returns false when an operation raises.
    method Compress(s: Setup, n: Name, x: Script, ghost r: nat, ghost w0: World)
      returns (ok: bool, ghost events: seq<Event>)
      requires n in s.source && Shows(w0) && w0.Phase(r) == Compressing(n, 0, Todo(w0.Phase(r)))
      requires n in gz && gz[n] == Gz([], false)
      modifies this`gz
      ensures var w := Run(s, w0, events);
              && Shows(w) && present == old(present) && objects == old(objects)
              && w.Phase(r) == if ok then Compressed(n, Todo(w0.Phase(r))) else Listing(Todo(w0.Phase(r)))
      ensures WorkOf(events, r)
      ensures ok <==> !(0 <= x.copyFailsAt <= |s.source[n]|)
      ensures ok ==> n in gz && gz[n] == Gz(s.source[n], true)
    {
      events := [];
      var copied := 0;
      while true
        invariant 0 <= copied <= |s.source[n]|
        invariant n in gz && gz[n] == Gz(s.source[n][..copied], false)
        invariant Shows(Run(s, w0, events)) && present == old(present) && objects == old(objects)
        invariant Run(s, w0, events).Phase(r) == Compressing(n, copied, Todo(w0.Phase(r)))
        invariant WorkOf(events, r)
        decreases |s.source[n]| - copied
      {
        if 0 <= x.copyFailsAt <= copied {
          gz := gz[n := gz[n].(closed := true)];
          events := NoteWork(s, w0, events, Fail(r));
          return false, events;
        }
        events := NoteWork(s, w0, events, Copy(r, CHUNK));
        if copied == |s.source[n]| {
          gz := gz[n := gz[n].(closed := true)];
          assert s.source[n][..copied] == s.source[n];
          break;
        }
        copied := if copied + CHUNK < |s.source[n]| then copied + CHUNK else |s.source[n]|;
        gz := gz[n := Gz(s.source[n][..copied], false)];
      }
      ok := true;
    }

    // Remove the local archive; the last thing done for a file, whether or not it was uploaded.
    method Tidy(s: Setup, n: Name, x: Script, ghost r: nat, ghost w: World) returns (ghost e: Event)
      requires Shows(w) && w.Phase(r).TidyingUp? && w.Phase(r).name == n
      modifies this`gz
      ensures Shows(Next(s, w, e)) && Next(s, w, e).Phase(r) == Listing(Todo(w.Phase(r))) && e.r == r && !e.Attempt?
      ensures gz == if x.gzStuck then old(gz) else old(gz) - {n}
    {
      if x.gzStuck {
        e := Fail(r);
      } else {
        gz := gz - {n};
        e := RemoveGz(r);
      }
    }

    // Delete the source of an uploaded archive.
    method DropSource(s: Setup, n: Name, x: Script, ghost r: nat, ghost w: World) returns (ok: bool, ghost e: Event)
      requires Shows(w) && w.Phase(r).Uploaded? && w.Phase(r).name == n
      modifies this`present
      ensures var w', todo := Next(s, w, e), Todo(w.Phase(r));
              Shows(w') && e.r == r && !e.Attempt? && w'.Phase(r) == if ok then TidyingUp(n, todo) else Listing(todo)
      ensures ok == !x.sourceStuck && present == if ok then old(present) - {n} else old(present)
    {
      ok := !x.sourceStuck;
      if ok {
        present := present - {n};
        e := RemoveSource(r);
      } else {
        e := Fail(r);
      }
    }

    method UploadFile(s: Setup, n: Name, x: Script, ghost r: nat, ghost w: World) returns (ok: bool, ghost e: Event)
      requires Shows(w) && w.Phase(r).Compressed? && w.Phase(r).name == n && n in gz
      modifies this`objects
      ensures var w', todo := Next(s, w, e), Todo(w.Phase(r));
              && Shows(w') && e.r == r && !e.Attempt?
              && w'.Phase(r) == if ok then Uploaded(n, todo) else TidyingUp(n, todo)
      ensures ok == (x.reply == Stored)
      ensures objects == if ok || x.reply.stored then old(objects)[ObjectName(n) := gz[n]] else old(objects)
    {
      e := Upload(r, x.reply);
      ok := x.reply == Stored;
      if ok || x.reply.stored {
        objects := objects[ObjectName(n) := gz[n]];
      }
    }

    // Upload, then delete the source and the archive; or drop the archive when the upload failed.
    method Ship(s: Setup, n: Name, x: Script, ghost r: nat, ghost w0: World) returns (ghost events: seq<Event>)
      requires Shows(w0) && w0.Phase(r).Compressed? && w0.Phase(r).name == n && n in gz
      modifies this
      ensures Shows(Run(s, w0, events)) && Run(s, w0, events).Phase(r) == Listing(Todo(w0.Phase(r)))
      ensures WorkOf(events, r)
      ensures present == if x.reply == Stored && !x.sourceStuck then old(present) - {n} else old(present)
      ensures objects
           == if x.reply == Stored || x.reply.stored then old(objects)[ObjectName(n) := old(gz)[n]] else old(objects)
      // The local archive goes, uploaded or refused, unless the source or it cannot be removed.
      ensures gz == if x.gzStuck || (x.reply == Stored && x.sourceStuck) then old(gz) else old(gz) - {n}
    {
      ghost var e;
      var ok;
      ok, e := UploadFile(s, n, x, r, w0);
      events := NoteWork(s, w0, [], e);
      if ok {
        ok, e := DropSource(s, n, x, r, Run(s, w0, events));
        events := NoteWork(s, w0, events, e);
        if !ok {
          return;
        }
      }
      e := Tidy(s, n, x, r, Run(s, w0, events));
      events := NoteWork(s, w0, events, e);
    }

    // Compress and, if nothing raised, ship.
    method PackAndShip(s: Setup, n: Name, x: Script, ghost r: nat, ghost w0: World) returns (ghost events: seq<Event>)
      requires n in s.source && Shows(w0) && w0.Phase(r) == Compressing(n, 0, Todo(w0.Phase(r)))
      requires n in gz && gz[n] == Gz([], false)
      modifies this
      ensures Shows(Run(s, w0, events)) && Run(s, w0, events).Phase(r) == Listing(Todo(w0.Phase(r)))
      ensures WorkOf(events, r)
      ensures var packed := !(0 <= x.copyFailsAt <= |s.source[n]|);
              && present == (if packed && x.reply == Stored && !x.sourceStuck then old(present) - {n} else old(present))
              && objects == (if packed && (x.reply == Stored || x.reply.stored)
                             then old(objects)[ObjectName(n) := Gz(s.source[n], true)] else old(objects))
      ensures 0 <= x.copyFailsAt <= |s.source[n]| || x.gzStuck || (x.reply == Stored && x.sourceStuck)
              || n !in gz
    {
      var ok;
      ok, events := Compress(s, n, x, r, w0);
      if ok {
        ghost var more := Ship(s, n, x, r, Run(s, w0, events));
        events := Join(s, w0, events, more, r);
      }
    }

    // The whole of one listed, old file.
    method ArchiveFile(s: Setup, n: Name, x: Script, ghost r: nat, ghost w0: World) returns (ghost events: seq<Event>)
      requires Shows(w0) && w0.Phase(r).Listing? && w0.Phase(r).todo != [] && w0.Phase(r).todo[0] == n
      requires n in present && n in s.source && s.Old(n)
      modifies this
      ensures Shows(Run(s, w0, events)) && Run(s, w0, events).Phase(r) == Listing(w0.Phase(r).todo[1..])
      ensures WorkOf(events, r)
      ensures present == if x.Succeeds(|s.source[n]|) then old(present) - {n} else old(present)
      ensures objects == if x.Stores(|s.source[n]|) then old(objects)[ObjectName(n) := Gz(s.source[n], true)]
                         else old(objects)
      ensures x.Succeeds(|s.source[n]|) && !x.gzStuck ==> n !in gz
    {
      if !x.opens {
        events := NoteWork(s, w0, [], Fail(r));
      } else {
        gz := gz[n := Gz([], false)];
        events := NoteWork(s, w0, [], Open(r));
        ghost var more := PackAndShip(s, n, x, r, Run(s, w0, events));
        events := Join(s, w0, events, more, r);
      }
    }

    // One name of the listing: passed over, or archived.
    method ArchiveListed(s: Setup, n: Name, x: Script, ghost r: nat, ghost w0: World) returns (ghost events: seq<Event>)
      requires Shows(w0) && w0.Phase(r).Listing? && w0.Phase(r).todo != [] && w0.Phase(r).todo[0] == n
      requires (n == LIVE || n in present) && present <= s.source.Keys
      modifies this
      ensures Shows(Run(s, w0, events)) && Run(s, w0, events).Phase(r) == Listing(w0.Phase(r).todo[1..])
      ensures WorkOf(events, r)
      ensures present == if s.Old(n) && x.Succeeds(|s.source[n]|) then old(present) - {n} else old(present)
      ensures objects == if s.Old(n) && x.Stores(|s.source[n]|)
                         then old(objects)[ObjectName(n) := Gz(s.source[n], true)] else old(objects)
    {
      if n == LIVE || !s.Old(n) {
        events := NoteWork(s, w0, [], Open(r));
      } else {
        events := ArchiveFile(s, n, x, r, w0);
      }
    }

    // `archive_old_logs_to_s3` on the files the directory listing returned.  Its run is one of
    // the interleaved runs above, and on its own it removes exactly the files it archived.
    // The loop over the listing, which ends early at a file that is gone.
    method ArchiveEach(s: Setup, listing: seq<Name>, scripts: Name -> Script, ghost r: nat, ghost w0: World)
      returns (ghost events: seq<Event>, done: nat)
      requires Shows(w0) && w0.Phase(r) == Listing(listing)
      requires present <= s.source.Keys
      requires forall i, j :: 0 <= i < j < |listing| ==> listing[i] != listing[j]
      modifies this
      ensures Shows(Run(s, w0, events)) && Run(s, w0, events).Phase(r) == Idle
      ensures WorkOf(events, r)
      ensures done <= |listing| && DoneTo(s, listing[..done], scripts, old(present), present, objects)
      ensures EndsAt(listing, done, old(present))
    {
      events := [];
      done := 0;
      while done < |listing|
        invariant 0 <= done <= |listing|
        invariant Shows(Run(s, w0, events)) && Run(s, w0, events).Phase(r) == Listing(listing[done..])
        invariant WorkOf(events, r)
        invariant Handled(s, listing[..done], scripts, old(present), present, objects)
      {
        var n := listing[done];
        ghost var here, kept := present, objects;
        assert listing[done..][0] == n && listing[done..][1..] == listing[done + 1..];
        if n != LIVE && n !in present {
          events := NoteWork(s, w0, events, Open(r));  // stat() raises: the job ends here
          HandledUpTo(s, listing, done, scripts, old(present), present, objects);
          return;
        }
        ghost var more := ArchiveListed(s, n, scripts(n), r, Run(s, w0, events));
        events := Join(s, w0, events, more, r);
        OneMoreHandled(s, listing, done, scripts, old(present), here, kept, present, objects);
        done := done + 1;
      }
      HandledUpTo(s, listing, done, scripts, old(present), present, objects);
      events := NoteWork(s, w0, events, Open(r));
    }

    method ArchiveOldLogs(s: Setup, listing: seq<Name>, scripts: Name -> Script, ghost r: nat, ghost w0: World)
      returns (ghost events: seq<Event>)
      requires Shows(w0) && w0.Phase(r) == Listing(listing)
      requires present <= s.source.Keys
      requires forall i, j :: 0 <= i < j < |listing| ==> listing[i] != listing[j]
      modifies this
      ensures Shows(Run(s, w0, events)) && Run(s, w0, events).Phase(r) == Idle
      ensures WorkOf(events, r)
      ensures forall n <- old(present) :: n !in present ==>
                && n in listing && n != LIVE && n in s.modified && s.modified[n] < s.cutoff
                && ObjectName(n) in objects && objects[ObjectName(n)] == Gz(s.source[n], true)
      ensures (forall n <- listing :: n in old(present)) ==>
                present == set n |
                  n in old(present) && !(n in listing && s.Old(n) && scripts(n).Succeeds(|s.source[n]|))
      // The first listed file that is gone ends the job: what is listed after it stays.
      ensures forall i, j :: 0 <= i < j < |listing| && listing[i] != LIVE && listing[i] !in old(present) ==>
                (listing[j] in old(present) ==> listing[j] in present)
    {
      var done;
      events, done := ArchiveEach(s, listing, scripts, r, w0);
      DoneIsArchived(s, listing, done, scripts, old(present), present, objects);
      DoneEndsAtAGap(s, listing, done, scripts, old(present), present, objects);
    }
  }

  ghost predicate AllThere(names: seq<Name>, before: set<Name>) {
    forall n <- names :: n == LIVE || n in before
  }

  // The first `done` files of the listing were there, and the next one, if any, was not.
  ghost predicate EndsAt(listing: seq<Name>, done: nat, before: set<Name>)
    requires done <= |listing|
  {
    AllThere(listing[..done], before) && (done < |listing| ==> listing[done] != LIVE && listing[done] !in before)
  }

  // All of `names` were there, and what was to be archived of them, and could be, is.
  ghost predicate Handled(s: Setup, names: seq<Name>, scripts: Name -> Script,
                          before: set<Name>, present: set<Name>, objects: map<string, Gz>)
    requires before <= s.source.Keys
  {
    DoneTo(s, names, scripts, before, present, objects) && AllThere(names, before)
  }

  lemma OneMoreHandled(s: Setup, listing: seq<Name>, done: nat, scripts: Name -> Script, before: set<Name>,
                       here: set<Name>, kept: map<string, Gz>, present: set<Name>, objects: map<string, Gz>)
    requires before <= s.source.Keys && done < |listing|
    requires forall i, j :: 0 <= i < j < |listing| ==> listing[i] != listing[j]
    requires Handled(s, listing[..done], scripts, before, here, kept)
    requires listing[done] == LIVE || listing[done] in here
    requires var n := listing[done]; var x := scripts(n);
             && (s.Old(n) ==> n in here)
             && present == (if s.Old(n) && x.Succeeds(|s.source[n]|) then here - {n} else here)
             && objects == if s.Old(n) && x.Stores(|s.source[n]|)
                           then kept[ObjectName(n) := Gz(s.source[n], true)] else kept
    ensures Handled(s, listing[..done + 1], scripts, before, present, objects)
  {
    var n := listing[done];
    assert n !in listing[..done] && listing[..done + 1] == listing[..done] + [n];
    OneMoreDone(s, listing[..done], n, scripts, before, here, kept, present, objects);
  }

  lemma HandledUpTo(s: Setup, listing: seq<Name>, done: nat, scripts: Name -> Script,
                    before: set<Name>, present: set<Name>, objects: map<string, Gz>)
    requires before <= s.source.Keys && done <= |listing|
    requires forall i, j :: 0 <= i < j < |listing| ==> listing[i] != listing[j]
    requires Handled(s, listing[..done], scripts, before, present, objects)
    requires done < |listing| ==> listing[done] != LIVE && listing[done] !in present
    ensures DoneTo(s, listing[..done], scripts, before, present, objects) && EndsAt(listing, done, before)
  {
    assert done < |listing| ==> listing[done] !in listing[..done];
  }

  lemma DoneIsArchived(s: Setup, listing: seq<Name>, done: nat, scripts: Name -> Script,
                       before: set<Name>, present: set<Name>, objects: map<string, Gz>)
    requires before <= s.source.Keys && done <= |listing| && EndsAt(listing, done, before)
    requires DoneTo(s, listing[..done], scripts, before, present, objects)
    ensures forall n <- before :: n !in present ==>
              && n in listing && n != LIVE && n in s.modified && s.modified[n] < s.cutoff
              && ObjectName(n) in objects && objects[ObjectName(n)] == Gz(s.source[n], true)
    ensures (forall n <- listing :: n in before) ==>
              present == set n | n in before && !(n in listing && s.Old(n) && scripts(n).Succeeds(|s.source[n]|))
  {
    if forall n <- listing :: n in before {
      assert listing[..done] == listing;
    }
  }

  lemma DoneEndsAtAGap(s: Setup, listing: seq<Name>, done: nat, scripts: Name -> Script,
                       before: set<Name>, present: set<Name>, objects: map<string, Gz>)
    requires before <= s.source.Keys && done <= |listing| && EndsAt(listing, done, before)
    requires forall i, j :: 0 <= i < j < |listing| ==> listing[i] != listing[j]
    requires DoneTo(s, listing[..done], scripts, before, present, objects)
    ensures forall i, j :: 0 <= i < j < |listing| && listing[i] != LIVE && listing[i] !in before ==>
              (listing[j] in before ==> listing[j] in present)
  {
    forall i, j | 0 <= i < j < |listing| && listing[i] != LIVE && listing[i] !in before && listing[j] in before
      ensures listing[j] in present
    {
      assert listing[i] !in listing[..done];
      assert done <= i;
      assert forall k :: 0 <= k < done ==> listing[k] != listing[j];
    }
  }

  // Of the files `before`, exactly those among `names` that were to be archived, and could be, are
  // gone, and each of them is in the store.
  ghost predicate DoneTo(s: Setup, names: seq<Name>, scripts: Name -> Script,
                         before: set<Name>, present: set<Name>, objects: map<string, Gz>)
    requires before <= s.source.Keys
  {
    && present <= before
    && (forall n <- before :: n in present <==>
          !(n in names && s.Old(n) && scripts(n).Succeeds(|s.source[n]|)))
    && (forall n <- before :: n !in present ==>
          ObjectName(n) in objects && objects[ObjectName(n)] == Gz(s.source[n], true))
  }

  lemma OneMoreDone(s: Setup, names: seq<Name>, n: Name, scripts: Name -> Script, before: set<Name>,
                    here: set<Name>, kept: map<string, Gz>, present: set<Name>, objects: map<string, Gz>)
    requires before <= s.source.Keys && DoneTo(s, names, scripts, before, here, kept) && n !in names
    requires s.Old(n) ==> n in here
    requires present == if s.Old(n) && scripts(n).Succeeds(|s.source[n]|) then here - {n} else here
    requires s.Old(n) && scripts(n).Succeeds(|s.source[n]|) ==> objects == kept[ObjectName(n) := Gz(s.source[n], true)]
    requires objects == kept || (s.Old(n) && objects == kept[ObjectName(n) := Gz(s.source[n], true)])
    ensures DoneTo(s, names + [n], scripts, before, present, objects)
  {
    forall m: Name | ObjectName(m) == ObjectName(n) ensures m == n {
      ObjectNameInjective(m, n);
    }
  }

  ghost method Note(s: Setup, w: World, events: seq<Event>, e: Event) returns (events': seq<Event>)
    ensures events' == events + [e] && Run(s, w, events') == Next(s, Run(s, w, events), e)
  {
    events' := events + [e];
    RunSnoc(s, w, events, e);
  }

  // What replica `r` does once it has won.
  ghost predicate WorkOf(events: seq<Event>, r: nat) {
    forall e <- events :: e.r == r && !e.Attempt?
  }

  ghost method NoteWork(s: Setup, w: World, events: seq<Event>, e: Event) returns (events': seq<Event>)
    requires WorkOf(events, e.r) && !e.Attempt?
    ensures WorkOf(events', e.r) && Run(s, w, events') == Next(s, Run(s, w, events), e)
  {
    events' := Note(s, w, events, e);
  }

  ghost method Join(s: Setup, w: World, events: seq<Event>, more: seq<Event>, r: nat) returns (events': seq<Event>)
    requires WorkOf(events, r) && WorkOf(more, r)
    ensures WorkOf(events', r) && Run(s, w, events') == Run(s, Run(s, w, events), more)
  {
    events' := events + more;
    RunConcat(s, w, events, more);
  }

  lemma {:induction false} WorkKeepsRedis(s: Setup, w: World, events: seq<Event>)
    requires forall e <- events :: !e.Attempt?
    ensures Run(s, w, events).redis == w.redis
  {
    if events != [] {
      WorkKeepsRedis(s, w, events[..|events| - 1]);
      WorkStartsNobody(s, Run(s, w, events[..|events| - 1]), events[|events| - 1]);
    }
  }

  // No attempt for `key` has reached the server, or the last to set it has expired; and the reply
  // comes back.
  predicate GetsTheSlot(s: Setup, expiry: map<string, int>, key: string, now: int, net: JobLock.Network) {
    s.ttl > 0 && net == JobLock.Delivered && (key !in expiry || expiry[key] <= now)
  }

  // `single_instance(job)(archive_old_logs_to_s3)`: the body runs only on the replica that wins
  // the day's slot, and one call is one attempt of the interleaved runs followed by its work.
  method RunScheduled(server: JobLock.LockServer, host: Host, s: Setup, job: string, day: JobLock.Day, now: int,
                      net: JobLock.Network, listing: seq<Name>, scripts: Name -> Script, ghost r: nat, ghost w0: World)
    returns (ran: bool, ghost events: seq<Event>)
    requires host.Shows(w0) && server.expiry == w0.redis && !w0.Active(r)
    requires host.present <= s.source.Keys
    requires forall i, j :: 0 <= i < j < |listing| ==> listing[i] != listing[j]
    modifies server, host
    ensures var w := Run(s, w0, events); host.Shows(w) && server.expiry == w.redis && !w.Active(r)
    ensures events != [] && events[0] == Attempt(r, JobLock.OccurrenceKey(job, day), now, net, listing)
    ensures ran == JobLock.Acquire(old(server.expiry), s.configured, JobLock.OccurrenceKey(job, day), now, s.ttl, net).1
    ensures !ran ==> host.Shows(w0)
    // An unlocked deployment always runs, and so does the call that finds the key free and gets its
    // reply; either archives exactly the old files of the listing whose operations all succeed.
    ensures !s.configured ==> ran
    ensures GetsTheSlot(s, old(server.expiry), JobLock.OccurrenceKey(job, day), now, net) ==> ran
    ensures ran && (forall n <- listing :: n in old(host.present)) ==>
              host.present == set n |
                && n in old(host.present)
                && !(n in listing && n != LIVE && n in s.modified && s.modified[n] < s.cutoff
                     && scripts(n).Succeeds(|s.source[n]|))
    ensures ran ==> forall n <- old(host.present) :: n !in host.present ==>
              ObjectName(n) in host.objects && host.objects[ObjectName(n)] == Gz(s.source[n], true)
  {
    var key := JobLock.OccurrenceKey(job, day);
    ran := server.AcquireJobSlot(s.configured, job, day, now, s.ttl, net);
    events := Note(s, w0, [], Attempt(r, key, now, net, listing));
    ghost var w1 := Run(s, w0, events);
    assert w1 == StartJob(s, w0, Attempt(r, key, now, net, listing));
    if ran {
      ghost var more := host.ArchiveOldLogs(s, listing, scripts, r, w1);
      RunConcat(s, w0, events, more);
      WorkKeepsRedis(s, w1, more);
      events := events + more;
    }
  }
}
