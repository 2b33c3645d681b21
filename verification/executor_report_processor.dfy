/**
 * The dispatcher: a registry of monitored folders, a registry of handlers by
 * report type, a one-way lifecycle, and the fan-out of every detected change
 * to one delivery task per interested handler. The worker pool is a FIFO
 * queue of tasks that `RunTask` executes one at a time; each scheduled scan
 * of the running engine is one call of `Tick`.
 */
module ExecutorReportProcessors {
  import opened Shared
  import opened MonitoredFolders

  /** Lifecycle states, in the only order in which they can be reached. */
  datatype State = NotStarted | Running | StoppingGracefully | Stopping

  /** The lifecycle requests: start, graceful shutdown and forced shutdown. */
  datatype Request = StartRequest | ShutdownRequest | ShutdownNowRequest

  /** One delivery: the handler to invoke and the file info to invoke it with. */
  datatype Task = Task(info: FileInfo, handler: HandlerId)

  /** The handler registry: for each report type, the handlers subscribed to it. */
  type Handlers = map<ReportType, set<HandlerId>>

  /** The directory contents the file system reports for each folder path. */
  type FileSystem = map<Path, seq<FileInfo>>

  /** The listing of `folder`; a folder that does not exist lists nothing. */
  function Listing(fs: FileSystem, folder: Path): seq<FileInfo>
  {
    if folder in fs then fs[folder] else []
  }

  // ---------------------------------------------------------------- lifecycle

  /** Position of a state along the lifecycle. */
  function Rank(s: State): nat
  {
    match s
    case NotStarted => 0
    case Running => 1
    case StoppingGracefully => 2
    case Stopping => 3
  }

  /**
   * The state after a request: start acts only before the engine started,
   * graceful shutdown only while it runs, forced shutdown from any state.
   * No request moves the state backward, and only a start of an engine
   * that has not started leads to Running.
   */
  function Step(s: State, r: Request): (next: State)
    ensures Rank(s) <= Rank(next)
    ensures next == Running ==> s == Running || (s == NotStarted && r == StartRequest)
    ensures next == NotStarted ==> s == NotStarted && r != ShutdownNowRequest
  {
    match r
    case StartRequest => if s == NotStarted then Running else s
    case ShutdownRequest => if s == Running then StoppingGracefully else s
    case ShutdownNowRequest => Stopping
  }

  /** The state after a sequence of requests. */
  function Run(s: State, rs: seq<Request>): State
    decreases |rs|
  {
    if rs == [] then s else Run(Step(s, rs[0]), rs[1..])
  }

  /**
   * Whatever the requests, the lifecycle only moves forward: an engine that
   * has left NotStarted never returns to it, and one that is stopping never
   * runs again.
   */
  lemma {:induction false} LifecycleIsOneWay(s: State, rs: seq<Request>)
    ensures Rank(s) <= Rank(Run(s, rs))
    ensures s != NotStarted ==> Run(s, rs) != NotStarted
    ensures Rank(s) >= 2 ==> Run(s, rs) != Running && Run(s, rs) != NotStarted
    ensures s == Stopping ==> Run(s, rs) == Stopping
    decreases |rs|
  {
    if rs != [] {
      LifecycleIsOneWay(Step(s, rs[0]), rs[1..]);
    }
  }

  // ---------------------------------------------------------- handler registry

  /** `h` is in the handler set of report type `t`. */
  predicate Subscribed(m: Handlers, h: HandlerId, t: ReportType)
  {
    t in m && h in m[t]
  }

  /** `h` is still in the handler set of some report type: the check a delivery makes when it runs. */
  predicate IsRegistered(m: Handlers, h: HandlerId)
  {
    exists t :: t in m && h in m[t]
  }

  /**
   * The registry after registering `h` for `types`: each listed type gets a
   * set (an empty one if it had none) and `h` is added to it; the other types
   * keep their sets.
   */
  function Registered(m: Handlers, h: HandlerId, types: seq<ReportType>): Handlers
  {
    if types == [] then m
    else
      var r := Registered(m, h, types[..|types| - 1]);
      var t := types[|types| - 1];
      r[t := (if t in r then r[t] else {}) + {h}]
  }

  /**
   * The registry after registering `h` for `types`, type by type: the listed
   * types are added to the registry, each of them maps to its old set (or an
   * empty one) plus `h`, and every other type keeps its set.
   */
  lemma {:induction false} RegisteredEntries(m: Handlers, h: HandlerId, types: seq<ReportType>)
    ensures forall t :: t in Registered(m, h, types) <==> t in m || t in types
    ensures forall t :: t in Registered(m, h, types) ==>
      Registered(m, h, types)[t] == if t in types then (if t in m then m[t] else {}) + {h} else m[t]
  {
    if types != [] {
      var prefix := types[..|types| - 1];
      RegisteredEntries(m, h, prefix);
      assert types == prefix + [types[|types| - 1]];
    }
  }

  /**
   * What registering answers: true iff every add put `h` into a set that did
   * not hold it yet. So it is false as soon as one listed type already had
   * `h`, or a type is listed twice (the second add finds `h` there).
   */
  predicate RegisterResult(m: Handlers, h: HandlerId, types: seq<ReportType>)
  {
    NoDuplicates(types) && forall i :: 0 <= i < |types| ==> !Subscribed(m, h, types[i])
  }

  /** The registry after unregistering `h`: `h` leaves every set; the report types stay. */
  function Unregistered(m: Handlers, h: HandlerId): Handlers
  {
    map t | t in m :: m[t] - {h}
  }

  /** After a registration for at least one type, the handler is registered. */
  lemma RegisteredIsRegistered(m: Handlers, h: HandlerId, types: seq<ReportType>)
    requires |types| > 0
    ensures IsRegistered(Registered(m, h, types), h)
  {
    RegisteredEntries(m, h, types);
    assert Subscribed(Registered(m, h, types), h, types[0]);
  }

  /** Registering the same handler again for the same (non-empty) types answers false. */
  lemma RegisterTwiceFails(m: Handlers, h: HandlerId, types: seq<ReportType>)
    requires |types| > 0
    ensures !RegisterResult(Registered(m, h, types), h, types)
  {
    RegisteredEntries(m, h, types);
    assert Subscribed(Registered(m, h, types), h, types[0]);
  }

  /**
   * A second registration of `h` answers true iff it would have answered true
   * before the first one and lists none of the first one's types. So the same
   * handler registered again for other report types is answered true.
   */
  lemma ReregisterResult(m: Handlers, h: HandlerId, first: seq<ReportType>, second: seq<ReportType>)
    ensures RegisterResult(Registered(m, h, first), h, second) <==>
            RegisterResult(m, h, second) && forall i :: 0 <= i < |second| ==> second[i] !in first
  {
    RegisteredEntries(m, h, first);
  }

  /** After unregistering, the handler is in no set, so unregistering it again answers false. */
  lemma UnregisterTwiceFails(m: Handlers, h: HandlerId)
    ensures !IsRegistered(Unregistered(m, h), h)
    ensures Unregistered(Unregistered(m, h), h) == Unregistered(m, h)
  {
    var u := Unregistered(m, h);
    forall t | t in u
      ensures Unregistered(u, h)[t] == u[t]
    {
    }
  }

  /** Registering for one more type adds `h` to that type's set, creating the set if needed. */
  lemma RegisteredStep(m: Handlers, h: HandlerId, types: seq<ReportType>, t: ReportType)
    ensures var r := Registered(m, h, types);
            Registered(m, h, types + [t]) == r[t := (if t in r then r[t] else {}) + {h}]
  {
    assert (types + [t])[..|types|] == types;
  }

  /** Registering for one more type answers true iff it did so far and the new add is new. */
  lemma RegisterResultStep(m: Handlers, h: HandlerId, types: seq<ReportType>, t: ReportType)
    ensures RegisterResult(m, h, types + [t]) ==
            (RegisterResult(m, h, types) && !Subscribed(Registered(m, h, types), h, t))
  {
    RegisteredEntries(m, h, types);
    NoDuplicatesAppend(types, t);
    var ts := types + [t];
    assert forall i :: 0 <= i < |types| ==> ts[i] == types[i];
    assert ts[|types|] == t;
    if t !in types {
      assert Subscribed(Registered(m, h, types), h, t) == Subscribed(m, h, t);
    } else {
      assert Subscribed(Registered(m, h, types), h, t);
    }
  }

  // ------------------------------------------------------------------ fan-out

  /** The handlers interested in a folder: the union of the handler sets of its report types. */
  function HandlersFor(m: Handlers, types: set<ReportType>): set<HandlerId>
  {
    set t, h | t in types && t in m && h in m[t] :: h
  }

  /** One task per pair of a change and an interested handler. */
  function Fanout(changes: set<FileInfo>, hs: set<HandlerId>): set<Task>
  {
    set c, h | c in changes && h in hs :: Task(c, h)
  }

  /** A task is in the fan-out iff its change is one of the changes and its handler one of the handlers. */
  lemma FanoutMember(changes: set<FileInfo>, hs: set<HandlerId>, t: Task)
    ensures t in Fanout(changes, hs) <==> t.info in changes && t.handler in hs
  {
    if t.info in changes && t.handler in hs {
      assert t == Task(t.info, t.handler);
    }
  }

  /**
   * The tasks of one pass over a folder with report types `types` and start
   * bound `start`, whose table went from `before` to `after`.
   */
  ghost function PassTasks(m: Handlers, before: Table, after: Table, start: Time, types: set<ReportType>): set<Task>
  {
    Fanout(Changes(before, after, start), HandlersFor(m, types))
  }

  /**
   * What one pass submits, given the tasks it owes: when the pool accepts,
   * each owed task exactly once; when the pool has been shut down, nothing,
   * and the pass fails iff it owed at least one task.
   */
  ghost predicate Submitted(row: seq<Task>, rejected: bool, accepting: bool, owed: set<Task>)
  {
    if accepting then
      && !rejected
      && NoDuplicates(row)
      && |row| == |owed|
      && (forall t :: t in row <==> t in owed)
    else
      row == [] && rejected == (owed != {})
  }

  /** A pass yields |changes| x |handlers| distinct tasks: a handler gets one task per change. */
  lemma {:induction false} FanoutCardinality(changes: set<FileInfo>, hs: set<HandlerId>)
    ensures |Fanout(changes, hs)| == |changes| * |hs|
    decreases changes
  {
    if changes == {} {
      assert Fanout(changes, hs) == {};
    } else {
      var c :| c in changes;
      var rest := changes - {c};
      FanoutCardinality(rest, hs);
      FanoutRowCardinality(c, hs);
      FanoutSplit(changes, c, hs);
      assert |changes| == |rest| + 1;
      MultiplySuccessor(|rest|, |hs|);
      assert |Fanout(changes, hs)| == (|rest| + 1) * |hs|;
    }
  }

  /** Taking one change out of a fan-out splits it into two disjoint fan-outs. */
  lemma FanoutSplit(changes: set<FileInfo>, c: FileInfo, hs: set<HandlerId>)
    requires c in changes
    ensures Fanout(changes, hs) == Fanout(changes - {c}, hs) + Fanout({c}, hs)
    ensures |Fanout(changes, hs)| == |Fanout(changes - {c}, hs)| + |Fanout({c}, hs)|
  {
    var rest := changes - {c};
    forall t
      ensures t in Fanout(changes, hs) <==> t in Fanout(rest, hs) + Fanout({c}, hs)
      ensures t in Fanout(rest, hs) ==> t !in Fanout({c}, hs)
    {
      FanoutMember(changes, hs, t);
      FanoutMember(rest, hs, t);
      FanoutMember({c}, hs, t);
    }
    assert Fanout(rest, hs) * Fanout({c}, hs) == {};
  }

  lemma MultiplySuccessor(a: nat, b: nat)
    ensures (a + 1) * b == a * b + b
  {
  }

  /** The tasks of a single change: one per handler. */
  lemma {:induction false} FanoutRowCardinality(c: FileInfo, hs: set<HandlerId>)
    ensures |Fanout({c}, hs)| == |hs|
    decreases hs
  {
    if hs == {} {
      assert Fanout({c}, hs) == {};
    } else {
      var h :| h in hs;
      FanoutRowCardinality(c, hs - {h});
      assert Fanout({c}, hs) == Fanout({c}, hs - {h}) + {Task(c, h)};
    }
  }

  /**
   * Registering `h` for `types` makes it interested in a folder iff it
   * already was or one of the registered types is one of the folder's.
   */
  lemma RegisteredJoinsFanout(m: Handlers, h: HandlerId, types: seq<ReportType>, folderTypes: set<ReportType>)
    ensures h in HandlersFor(Registered(m, h, types), folderTypes) <==>
            h in HandlersFor(m, folderTypes) || exists t :: t in folderTypes && t in types
  {
    RegisteredEntries(m, h, types);
    var r := Registered(m, h, types);
    if h in HandlersFor(r, folderTypes) {
      var t :| t in folderTypes && t in r && h in r[t];
      if t !in types {
        assert t in m && h in m[t];
      }
    }
    if exists t :: t in folderTypes && t in types {
      var t :| t in folderTypes && t in types;
      assert t in r && h in r[t];
    }
    if h in HandlersFor(m, folderTypes) {
      var t :| t in folderTypes && t in m && h in m[t];
      assert t in r && h in r[t];
    }
  }

  /** Unregistering `h` removes it from every fan-out and leaves every other handler's as it was. */
  lemma UnregisteredLeavesFanout(m: Handlers, h: HandlerId, folderTypes: set<ReportType>)
    ensures h !in HandlersFor(Unregistered(m, h), folderTypes)
    ensures HandlersFor(Unregistered(m, h), folderTypes) == HandlersFor(m, folderTypes) - {h}
  {
    var u := Unregistered(m, h);
    forall g | g in HandlersFor(m, folderTypes) && g != h
      ensures g in HandlersFor(u, folderTypes)
    {
      var t :| t in folderTypes && t in m && g in m[t];
      assert t in u && g in u[t];
    }
  }

  // ---------------------------------------------------------------- the engine

  class ExecutorReportProcessor {
    const filePathFilter: Path -> bool
    var monitoredFolders: map<Path, MonitoredFolder>
    var handlers: Handlers
    var state: State
    /** Whether the delivery pool still accepts tasks; both shutdowns close it. */
    var poolAccepting: bool
    /** Delivery tasks submitted to the pool and not yet run, oldest first. */
    var queue: seq<Task>
    /** The handler invocations performed by delivery tasks, in order. */
    var delivered: seq<Task>

    /** Each registered folder is keyed by its own path, shares the engine's filter, and is its own object. */
    ghost predicate FoldersKeyed()
      reads this`monitoredFolders
    {
      && (forall p :: p in monitoredFolders ==>
            monitoredFolders[p].folderPath == p && monitoredFolders[p].filePathFilter == filePathFilter)
      && (forall p, q :: p in monitoredFolders && q in monitoredFolders && p != q ==>
            monitoredFolders[p] != monitoredFolders[q])
    }

    ghost predicate Valid()
      reads this
    {
      && FoldersKeyed()
      && poolAccepting == (state == NotStarted || state == Running)
    }

    constructor (filePathFilter: Path -> bool)
      ensures Valid()
      ensures this.filePathFilter == filePathFilter
      ensures monitoredFolders == map[] && handlers == map[]
      ensures state == NotStarted && queue == [] && delivered == []
    {
      this.filePathFilter := filePathFilter;
      monitoredFolders := map[];
      handlers := map[];
      state := NotStarted;
      poolAccepting := true;
      queue := [];
      delivered := [];
    }

    /**
     * Adds a folder whose start bound is `now`. Answers true iff the path was
     * not monitored; otherwise the registry, and the folder already
     * registered under the path, are untouched.
     */
    method AddMonitoredFolder(folderPath: Path, reportTypes: seq<ReportType>, now: Time) returns (added: bool)
      requires Valid()
      modifies this`monitoredFolders
      ensures Valid()
      ensures added == (folderPath !in old(monitoredFolders))
      ensures folderPath in monitoredFolders
      ensures !added ==> monitoredFolders == old(monitoredFolders)
      ensures added ==>
        && fresh(monitoredFolders[folderPath])
        && monitoredFolders == old(monitoredFolders)[folderPath := monitoredFolders[folderPath]]
        && (forall t :: t in monitoredFolders[folderPath].reportTypes <==> t in reportTypes)
        && monitoredFolders[folderPath].fileInfos == map[]
        && monitoredFolders[folderPath].monitoringStartTime == now
    {
      var folder := new MonitoredFolder(folderPath, filePathFilter, reportTypes, now);
      if folderPath !in monitoredFolders {
        monitoredFolders := monitoredFolders[folderPath := folder];
        added := true;
      } else {
        added := false;
      }
    }

    /**
     * Removes a folder. Answers false, changing nothing, for a path that is
     * not monitored. Otherwise the path leaves the registry and exactly one
     * final pass is made over the removed folder. When the pool has been shut
     * down and that pass has a task to submit, the submission is rejected:
     * nothing is queued and `rejected` is true (the call then fails instead of
     * answering, after the folder has left the registry). `row` is what the
     * pass appended to the queue.
     */
    method RemoveMonitoredFolder(folderPath: Path, fs: FileSystem) returns (removed: bool, rejected: bool, ghost row: seq<Task>)
      requires Valid()
      modifies this`monitoredFolders, this`queue, monitoredFolders.Values`fileInfos
      ensures Valid()
      ensures removed == (folderPath in old(monitoredFolders))
      ensures monitoredFolders == old(monitoredFolders) - {folderPath}
      ensures forall p :: p in monitoredFolders ==> monitoredFolders[p].fileInfos == old(monitoredFolders[p].fileInfos)
      ensures queue == old(queue) + row
      ensures !removed ==> !rejected && row == []
      ensures removed ==>
        var folder := old(monitoredFolders[folderPath]);
        && folder.fileInfos == Snapshot(Listing(fs, folderPath), filePathFilter)
        && Submitted(row, rejected, poolAccepting,
             PassTasks(handlers, old(folder.fileInfos), folder.fileInfos, folder.monitoringStartTime, folder.reportTypes))
    {
      if folderPath in monitoredFolders {
        var folder := monitoredFolders[folderPath];
        monitoredFolders := monitoredFolders - {folderPath};
        ghost var owed;
        rejected, row, owed := SubmitFileChanges(folder, Listing(fs, folderPath));
        removed := true;
      } else {
        removed, rejected, row := false, false, [];
      }
    }

    /**
     * Registers `handler` for each of `reportTypes`, creating a set for a type
     * that has none. Answers true iff every add was new.
     */
    method RegisterHandler(handler: HandlerId, reportTypes: seq<ReportType>) returns (registered: bool)
      modifies this`handlers
      ensures handlers == Registered(old(handlers), handler, reportTypes)
      ensures registered == RegisterResult(old(handlers), handler, reportTypes)
    {
      registered := true;
      assert Registered(old(handlers), handler, []) == handlers;
      for i := 0 to |reportTypes|
        invariant handlers == Registered(old(handlers), handler, reportTypes[..i])
        invariant registered == RegisterResult(old(handlers), handler, reportTypes[..i])
      {
        var reportType := reportTypes[i];
        assert reportTypes[..i + 1] == reportTypes[..i] + [reportType];
        RegisteredStep(old(handlers), handler, reportTypes[..i], reportType);
        RegisterResultStep(old(handlers), handler, reportTypes[..i], reportType);
        ghost var before := handlers;
        if reportType !in handlers {
          handlers := handlers[reportType := {}];
        }
        var added := handler !in handlers[reportType];
        handlers := handlers[reportType := handlers[reportType] + {handler}];
        assert handlers == before[reportType := (if reportType in before then before[reportType] else {}) + {handler}];
        registered := registered && added;
      }
      assert reportTypes[..|reportTypes|] == reportTypes;
    }

    /** Removes `handler` from every set. Answers true iff it was in at least one. */
    method UnregisterHandler(handler: HandlerId) returns (unregistered: bool)
      modifies this`handlers
      ensures handlers == Unregistered(old(handlers), handler)
      ensures unregistered == IsRegistered(old(handlers), handler)
    {
      unregistered := false;
      var pending := handlers.Keys;
      while pending != {}
        invariant pending <= handlers.Keys == old(handlers).Keys
        invariant forall t :: t in handlers ==> handlers[t] == if t in pending then old(handlers)[t] else old(handlers)[t] - {handler}
        invariant unregistered <==> exists t :: t in old(handlers) && t !in pending && handler in old(handlers)[t]
        decreases pending
      {
        var reportType :| reportType in pending;
        var removed := handler in handlers[reportType];
        handlers := handlers[reportType := handlers[reportType] - {handler}];
        unregistered := unregistered || removed;
        pending := pending - {reportType};
      }
    }

    /**
     * Starts the engine if it has not started: every registered folder's start
     * bound moves forward to `now` (none moves backward). In any other state
     * nothing changes.
     */
    method Start(now: Time)
      requires Valid()
      modifies this`state, monitoredFolders.Values`monitoringStartTime
      ensures Valid()
      ensures state == Step(old(state), StartRequest)
      ensures forall p :: p in monitoredFolders ==>
        monitoredFolders[p].monitoringStartTime ==
          (if old(state) == NotStarted then Max(old(monitoredFolders[p].monitoringStartTime), now)
           else old(monitoredFolders[p].monitoringStartTime))
    {
      if state == NotStarted {
        state := Running;
        var pending := monitoredFolders.Keys;
        while pending != {}
          invariant pending <= monitoredFolders.Keys
          invariant Valid() && state == Running
          invariant forall p :: p in monitoredFolders ==>
            monitoredFolders[p].monitoringStartTime ==
              (if p in pending then old(monitoredFolders[p].monitoringStartTime)
               else Max(old(monitoredFolders[p].monitoringStartTime), now))
          decreases pending
        {
          var p :| p in pending;
          monitoredFolders[p].LimitMonitoringStartTime(now);
          pending := pending - {p};
        }
      }
    }

    /** One scheduled scan: while the engine runs, one pass over every registered folder. */
    method Tick(fs: FileSystem) returns (ghost before: map<Path, Table>, ghost order: seq<Path>, ghost rows: map<Path, seq<Task>>,
                                    ghost added: seq<Task>, ghost tasks: map<Path, set<Task>>)
      requires Valid()
      modifies this`queue, monitoredFolders.Values`fileInfos
      ensures Valid()
      ensures old(state) == Running ==> ScannedAll(fs, before, order, rows, added, tasks)
      ensures old(state) != Running ==>
        && queue == old(queue)
        && (forall p :: p in monitoredFolders ==> monitoredFolders[p].fileInfos == old(monitoredFolders[p].fileInfos))
    {
      before, order, rows, added, tasks := map[], [], map[], [], map[];
      if state == Running {
        before, order, rows, added, tasks := SubmitAllFileChanges(fs);
      }
    }

    /**
     * Graceful shutdown, only while running: one last pass over every
     * registered folder, after which the pool accepts nothing more (the
     * tasks already queued still run).
     */
    method Shutdown(fs: FileSystem) returns (ghost before: map<Path, Table>, ghost order: seq<Path>, ghost rows: map<Path, seq<Task>>,
                                    ghost added: seq<Task>, ghost tasks: map<Path, set<Task>>)
      requires Valid()
      modifies this`state, this`poolAccepting, this`queue, monitoredFolders.Values`fileInfos
      ensures Valid()
      ensures state == Step(old(state), ShutdownRequest)
      ensures old(state) == Running ==> ScannedAll(fs, before, order, rows, added, tasks)
      ensures old(state) != Running ==>
        && queue == old(queue)
        && (forall p :: p in monitoredFolders ==> monitoredFolders[p].fileInfos == old(monitoredFolders[p].fileInfos))
    {
      before, order, rows, added, tasks := map[], [], map[], [], map[];
      if state == Running {
        state := StoppingGracefully;
        before, order, rows, added, tasks := SubmitAllFileChanges(fs);
        poolAccepting := false;
      }
    }

    /** Forced shutdown, from any state: the pool closes and the tasks not yet run are abandoned. */
    method ShutdownNow()
      requires Valid()
      modifies this`state, this`poolAccepting, this`queue
      ensures Valid()
      ensures state == Step(old(state), ShutdownNowRequest)
      ensures queue == []
    {
      state := Stopping;
      poolAccepting := false;
      queue := [];
    }

    /**
     * The pool runs the oldest queued task: it invokes the handler iff, at
     * that moment, the handler is still in the set of some report type.
     */
    method RunTask() returns (invoked: bool)
      modifies this`queue, this`delivered
      ensures old(queue) == [] ==> !invoked && queue == [] && delivered == old(delivered)
      ensures old(queue) != [] ==>
        && queue == old(queue)[1..]
        && invoked == IsRegistered(handlers, old(queue)[0].handler)
        && delivered == old(delivered) + (if invoked then [old(queue)[0]] else [])
    {
      invoked := false;
      if queue != [] {
        var task := queue[0];
        queue := queue[1..];
        var live := exists t :: t in handlers && task.handler in handlers[t];
        if live {
          delivered := delivered + [task];
          invoked := true;
        }
      }
    }

    /** Submission of one task to the pool; a pool that was shut down rejects it. */
    method Submit(task: Task) returns (accepted: bool)
      modifies this`queue
      ensures accepted == poolAccepting
      ensures queue == if accepted then old(queue) + [task] else old(queue)
    {
      accepted := poolAccepting;
      if accepted {
        queue := queue + [task];
      }
    }

    /** The handlers interested in a folder with the given report types, each once. */
    method CurrentHandlers(reportTypes: set<ReportType>) returns (currentHandlers: set<HandlerId>)
      ensures currentHandlers == HandlersFor(handlers, reportTypes)
    {
      currentHandlers := {};
      var pending := reportTypes;
      while pending != {}
        invariant pending <= reportTypes
        invariant currentHandlers == HandlersFor(handlers, reportTypes - pending)
        decreases pending
      {
        var reportType :| reportType in pending;
        currentHandlers := currentHandlers + (if reportType in handlers then handlers[reportType] else {});
        pending := pending - {reportType};
        assert reportTypes - pending == (reportTypes - (pending + {reportType})) + {reportType};
      }
    }

    /**
     * The outcome of one pass over every registered folder, with an accepting
     * pool: `before` holds each folder's table as it was before the pass; the
     * pass is complete (no folder pending) in the sense of `PassSoFar`; and
     * the queue grew by one row per folder, in the visiting order `order`,
     * each row holding each task its folder owes exactly once (`Queued`).
     */
    twostate predicate ScannedAll(fs: FileSystem, before: map<Path, Table>, order: seq<Path>, rows: map<Path, seq<Task>>,
                                  added: seq<Task>, tasks: map<Path, set<Task>>)
      reads this`queue, this`handlers, this`monitoredFolders, monitoredFolders.Values
    {
      && monitoredFolders == old(monitoredFolders)
      && (forall p :: p in monitoredFolders ==> p in before && before[p] == old(monitoredFolders[p].fileInfos))
      && PassSoFar(fs, {}, before, old(queue), added, tasks)
      && Queued(order, rows, tasks, added)
    }

    /**
     * Submits one task for `info` per handler of `hs`, in an unspecified
     * order. A shut-down pool rejects the first submission: then nothing is
     * queued, and `rejected` is true iff there was a task to submit.
     */
    method SubmitToHandlers(info: FileInfo, hs: set<HandlerId>) returns (rejected: bool, ghost row: seq<Task>)
      modifies this`queue
      ensures queue == old(queue) + row
      ensures NoDuplicates(row)
      ensures poolAccepting ==>
        && !rejected
        && |row| == |hs|
        && (forall t :: t in row <==> t.info == info && t.handler in hs)
      ensures !poolAccepting ==> row == [] && rejected == (hs != {})
    {
      rejected := false;
      row := [];
      var pending := hs;
      while pending != {}
        invariant pending <= hs
        invariant queue == old(queue) + row
        invariant NoDuplicates(row)
        invariant |row| == |hs| - |pending|
        invariant forall t :: t in row <==> t.info == info && t.handler in hs - pending
        invariant !poolAccepting ==> row == [] && pending == hs
        decreases pending
      {
        var handler :| handler in pending;
        var accepted := Submit(Task(info, handler));
        if !accepted {
          rejected := true;
          return;
        }
        NoDuplicatesAppend(row, Task(info, handler));
        row := row + [Task(info, handler)];
        pending := pending - {handler};
      }
    }

    /**
     * Submits one task per pair of a change of `changes` and a handler of
     * `hs`, change by change. A shut-down pool rejects the first submission:
     * then nothing is queued, and `rejected` is true iff there was a task to
     * submit.
     */
    method SubmitChanges(changes: seq<FileInfo>, hs: set<HandlerId>) returns (rejected: bool, ghost added: seq<Task>)
      requires NoDuplicates(changes)
      modifies this`queue
      ensures queue == old(queue) + added
      ensures NoDuplicates(added)
      ensures poolAccepting ==>
        && !rejected
        && |added| == |changes| * |hs|
        && (forall t :: t in added <==> t.info in changes && t.handler in hs)
      ensures !poolAccepting ==> added == [] && rejected == (changes != [] && hs != {})
    {
      added := [];
      rejected := false;
      var i := 0;
      while i < |changes|
        invariant 0 <= i <= |changes|
        invariant queue == old(queue) + added
        invariant |added| == i * |hs|
        invariant NoDuplicates(added)
        invariant forall t :: t in added <==> t.info in changes[..i] && t.handler in hs
        invariant !poolAccepting ==> added == [] && (i == 0 || hs == {})
      {
        ghost var row;
        rejected, row := SubmitToHandlers(changes[i], hs);
        if rejected {
          return;
        }
        assert changes[i] !in changes[..i];
        NoDuplicatesConcat(added, row);
        added := added + row;
        assert changes[..i + 1] == changes[..i] + [changes[i]];
        i := i + 1;
      }
      assert changes[..|changes|] == changes;
    }

    /**
     * One pass over one folder: scan it with `listing`, then submit one task
     * per pair of a reported change and an interested handler. `row` is what
     * the pass appended to the queue.
     */
    method SubmitFileChanges(folder: MonitoredFolder, listing: seq<FileInfo>) returns (rejected: bool, ghost row: seq<Task>, ghost owed: set<Task>)
      modifies this`queue, folder`fileInfos
      ensures folder.fileInfos == Snapshot(listing, folder.filePathFilter)
      ensures queue == old(queue) + row
      ensures owed == PassTasks(handlers, old(folder.fileInfos), folder.fileInfos, folder.monitoringStartTime, folder.reportTypes)
      ensures Submitted(row, rejected, poolAccepting, owed)
    {
      var changes := folder.GetNewMonitoredChanges(listing);
      var reportTypes := folder.GetReportTypes();
      var currentHandlers := CurrentHandlers(reportTypes);
      ghost var reported := Changes(old(folder.fileInfos), folder.fileInfos, folder.monitoringStartTime);
      owed := Fanout(reported, currentHandlers);
      ghost var tasks := owed;
      assert PassTasks(handlers, old(folder.fileInfos), folder.fileInfos, folder.monitoringStartTime, folder.reportTypes) == tasks;
      ChangesAreReported(changes, reported);
      FanoutCardinality(reported, currentHandlers);
      rejected, row := SubmitChanges(changes, currentHandlers);
      if poolAccepting {
        forall t
          ensures t in row <==> t in tasks
        {
          FanoutMember(reported, currentHandlers, t);
        }
      } else if changes != [] && currentHandlers != {} {
        var h :| h in currentHandlers;
        FanoutMember(reported, currentHandlers, Task(changes[0], h));
      }
    }

    /**
     * What a pass over every registered folder has done once only the folders
     * of `pending` remain: every other folder's table holds its listing, the
     * queue grew from `start` by `added`, and `tasks` records, folder by
     * folder, the tasks owed for the changes between `before` and the listing.
     */
    ghost predicate PassSoFar(fs: FileSystem, pending: set<Path>, before: map<Path, Table>, start: seq<Task>,
                              added: seq<Task>, tasks: map<Path, set<Task>>)
      reads this`queue, this`handlers, this`monitoredFolders, monitoredFolders.Values
    {
      && pending <= monitoredFolders.Keys
      && monitoredFolders.Keys <= before.Keys
      && queue == start + added
      && tasks.Keys == monitoredFolders.Keys - pending
      && (forall p :: p in tasks ==>
            tasks[p] == PassTasks(handlers, before[p], Snapshot(Listing(fs, p), filePathFilter),
                                  monitoredFolders[p].monitoringStartTime, monitoredFolders[p].reportTypes))
      && (forall q :: q in monitoredFolders ==>
            monitoredFolders[q].fileInfos == (if q in pending then before[q] else Snapshot(Listing(fs, q), filePathFilter)))
    }

    /**
     * The pass over the folder registered under `p`: that folder's table
     * becomes its filtered listing, no other folder's table changes, and
     * `row`, appended to the queue, holds exactly the tasks `owed` for the
     * folder's changes.
     */
    method SubmitRegisteredFolder(p: Path, fs: FileSystem) returns (ghost row: seq<Task>, ghost owed: set<Task>)
      requires FoldersKeyed() && poolAccepting && p in monitoredFolders
      modifies this`queue, monitoredFolders.Values`fileInfos
      ensures queue == old(queue) + row
      ensures forall t :: t in row <==> t in owed
      ensures NoDuplicates(row) && |row| == |owed|
      ensures owed == PassTasks(handlers, old(monitoredFolders[p].fileInfos), Snapshot(Listing(fs, p), filePathFilter),
                                monitoredFolders[p].monitoringStartTime, monitoredFolders[p].reportTypes)
      ensures monitoredFolders[p].fileInfos == Snapshot(Listing(fs, p), filePathFilter)
      ensures forall q :: q in monitoredFolders && q != p ==>
        monitoredFolders[q].fileInfos == old(monitoredFolders[q].fileInfos)
    {
      var folder := monitoredFolders[p];
      var rejected;
      rejected, row, owed := SubmitFileChanges(folder, Listing(fs, folder.folderPath));
      forall q | q in monitoredFolders && q != p
        ensures unchanged(monitoredFolders[q])
      {
        assert old(monitoredFolders[q] != folder);
      }
    }

    /**
     * One step of a pass over every folder: the pass over the folder under
     * `p`, one of those still pending, recorded in the pass so far. Its `row`
     * holds each task `owed` by the folder exactly once.
     */
    method SubmitPendingFolder(p: Path, fs: FileSystem, ghost pending: set<Path>, ghost before: map<Path, Table>,
                               ghost start: seq<Task>, ghost added: seq<Task>, ghost tasks: map<Path, set<Task>>)
      returns (ghost row: seq<Task>, ghost owed: set<Task>, ghost added': seq<Task>, ghost tasks': map<Path, set<Task>>)
      requires FoldersKeyed() && poolAccepting && p in pending
      requires PassSoFar(fs, pending, before, start, added, tasks)
      modifies this`queue, monitoredFolders.Values`fileInfos
      ensures PassSoFar(fs, pending - {p}, before, start, added', tasks')
      ensures added' == added + row && tasks' == tasks[p := owed]
      ensures NoDuplicates(row) && |row| == |owed| && (forall t :: t in row <==> t in owed)
    {
      row, owed := SubmitRegisteredFolder(p, fs);
      added' := added + row;
      tasks' := tasks[p := owed];
      AppendAssociates(start, added, row);
    }

    /** A pass over every registered folder, in an unspecified order; the pool accepts throughout. */
    method SubmitAllFileChanges(fs: FileSystem)
      returns (ghost before: map<Path, Table>, ghost order: seq<Path>, ghost rows: map<Path, seq<Task>>,
               ghost added: seq<Task>, ghost tasks: map<Path, set<Task>>)
      requires FoldersKeyed() && poolAccepting
      modifies this`queue, monitoredFolders.Values`fileInfos
      ensures FoldersKeyed()
      ensures ScannedAll(fs, before, order, rows, added, tasks)
    {
      ghost var start := queue;
      before := map q | q in monitoredFolders :: monitoredFolders[q].fileInfos;
      order, rows, added, tasks := [], map[], [], map[];
      var pending := monitoredFolders.Keys;
      while pending != {}
        invariant FoldersKeyed()
        invariant PassSoFar(fs, pending, before, start, added, tasks)
        invariant Queued(order, rows, tasks, added)
        decreases pending
      {
        var p :| p in pending;
        ghost var row, owed, added', tasks' := SubmitPendingFolder(p, fs, pending, before, start, added, tasks);
        QueuedStep(order, rows, tasks, added, p, owed, row);
        order, rows, added, tasks := order + [p], rows[p := row], added', tasks';
        pending := pending - {p};
      }
    }
  }

  lemma AppendAssociates<T>(a: seq<T>, b: seq<T>, c: seq<T>)
    ensures a + (b + c) == (a + b) + c
  {
  }

  /** `added` holds exactly the tasks of the sets in `tasks`. */
  ghost predicate Collected(added: seq<Task>, tasks: map<Path, set<Task>>)
  {
    forall t :: t in added <==> exists q :: q in tasks && t in tasks[q]
  }

  /** The rows of the folders of `order`, concatenated in that order. */
  ghost function Concat(order: seq<Path>, rows: map<Path, seq<Task>>): seq<Task>
    requires forall q :: q in order ==> q in rows
  {
    if order == [] then []
    else Concat(order[..|order| - 1], rows) + rows[order[|order| - 1]]
  }

  /**
   * How a pass queued its tasks: the folders of `tasks` were visited in the
   * order `order`, each once; `added` is their rows in that order; and each
   * folder's row holds each task it owes exactly once.
   */
  ghost predicate Queued(order: seq<Path>, rows: map<Path, seq<Task>>, tasks: map<Path, set<Task>>, added: seq<Task>)
  {
    && NoDuplicates(order)
    && (forall q :: q in order <==> q in tasks)
    && rows.Keys == tasks.Keys
    && added == Concat(order, rows)
    && (forall q :: q in rows ==>
          && NoDuplicates(rows[q])
          && |rows[q]| == |tasks[q]|
          && (forall t :: t in rows[q] <==> t in tasks[q]))
    && Collected(added, tasks)
  }

  /** Giving a row to a folder that is not in `order` leaves the concatenation of `order`'s rows unchanged. */
  lemma {:induction false} ConcatFrame(order: seq<Path>, rows: map<Path, seq<Task>>, p: Path, row: seq<Task>)
    requires forall q :: q in order ==> q in rows
    requires p !in order
    ensures Concat(order, rows[p := row]) == Concat(order, rows)
  {
    if order != [] {
      var prefix := order[..|order| - 1];
      assert forall q :: q in prefix ==> q in order;
      ConcatFrame(prefix, rows, p, row);
    }
  }

  /** Visiting one more folder appends its row, holding each of its owed tasks once, to the pass. */
  lemma QueuedStep(order: seq<Path>, rows: map<Path, seq<Task>>, tasks: map<Path, set<Task>>, added: seq<Task>,
                   p: Path, own: set<Task>, row: seq<Task>)
    requires Queued(order, rows, tasks, added)
    requires p !in tasks
    requires NoDuplicates(row) && |row| == |own|
    requires forall t :: t in row <==> t in own
    ensures Queued(order + [p], rows[p := row], tasks[p := own], added + row)
  {
    var order', rows' := order + [p], rows[p := row];
    NoDuplicatesAppend(order, p);
    ConcatFrame(order, rows, p, row);
    assert order'[..|order'| - 1] == order;
    assert Concat(order', rows') == Concat(order, rows') + row;
    UnionStep(tasks, added, p, own, row);
  }

  /**
   * Adding one folder's tasks to the tasks collected so far: the collected
   * sequence extended by that folder's tasks holds exactly the tasks of the
   * folders collected so far and of that folder.
   */
  lemma UnionStep(tasks: map<Path, set<Task>>, added: seq<Task>, p: Path, own: set<Task>, row: seq<Task>)
    requires p !in tasks
    requires Collected(added, tasks)
    requires forall t :: t in row <==> t in own
    ensures Collected(added + row, tasks[p := own])
  {
    var tasks' := tasks[p := own];
    forall t
      ensures t in added + row <==> exists q :: q in tasks' && t in tasks'[q]
    {
      if exists q :: q in tasks' && t in tasks'[q] {
        var q :| q in tasks' && t in tasks'[q];
        if q != p {
          assert q in tasks && t in tasks[q];
        }
      }
      if t in added {
        var q :| q in tasks && t in tasks[q];
        assert q in tasks' && t in tasks'[q];
      }
      if t in row {
        assert p in tasks' && t in tasks'[p];
      }
    }
  }

  /** The reported changes, no path twice, are as many as the distinct snapshots reported. */
  lemma ChangesAreReported(changes: seq<FileInfo>, reported: set<FileInfo>)
    requires forall c :: c in changes <==> c in reported
    requires DistinctPaths(changes)
    ensures |changes| == |reported|
    ensures NoDuplicates(changes)
  {
    ElementsOfDistinct(changes);
    ElementsMembers(changes);
    assert Elements(changes) == reported;
  }
}
