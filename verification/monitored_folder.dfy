/**
 * The change detector of one monitored folder: a snapshot table keyed by
 * path, diffed against the current directory listing on every scan, and a
 * monitoring start bound below which detected changes are not reported.
 */
module MonitoredFolders {
  import opened Shared

  /** A folder's snapshot table: the last snapshot observed for each path. */
  type Table = map<Path, FileInfo>

  /** A time is in the monitored window iff it is at or after the start bound (there is no stop bound). */
  function IsTimeInMonitoredWindow(time: Time, start: Time): bool
  {
    time >= start
  }

  /**
   * A snapshot is in the window iff its creation or its modification time is;
   * equivalently, iff the later of the two is at or after the bound.
   */
  function IsInMonitoredWindow(info: FileInfo, start: Time): (r: bool)
    ensures r <==> Max(info.creationTime, info.modificationTime) >= start
    ensures info.creationTime == start || info.modificationTime == start ==> r
  {
    IsTimeInMonitoredWindow(info.creationTime, start) || IsTimeInMonitoredWindow(info.modificationTime, start)
  }

  /**
   * The listing keyed by path, keeping only entries whose path passes the
   * filter; a later entry for a path replaces an earlier one.
   */
  function Snapshot(listing: seq<FileInfo>, filter: Path -> bool): Table
  {
    if listing == [] then map[]
    else
      var rest := Snapshot(listing[..|listing| - 1], filter);
      var last := listing[|listing| - 1];
      if filter(last.filePath) then rest[last.filePath := last] else rest
  }

  /**
   * The snapshot table holds a path iff some listing entry for it passes the
   * filter, and it maps the path to one of those entries.
   */
  lemma {:induction false} SnapshotEntries(listing: seq<FileInfo>, filter: Path -> bool)
    ensures forall p :: p in Snapshot(listing, filter) ==>
      filter(p) && Snapshot(listing, filter)[p].filePath == p && Snapshot(listing, filter)[p] in listing
    ensures forall i :: 0 <= i < |listing| && filter(listing[i].filePath) ==> listing[i].filePath in Snapshot(listing, filter)
  {
    if listing != [] {
      var prefix := listing[..|listing| - 1];
      SnapshotEntries(prefix, filter);
      assert forall i :: 0 <= i < |prefix| ==> prefix[i] == listing[i];
    }
  }

  /**
   * What a scan reports, given the table before it and the table after it:
   * each stored snapshot whose path was absent before or whose snapshot
   * differs from the one stored before, provided it is in the window.
   */
  function Changes(before: Table, after: Table, start: Time): set<FileInfo>
  {
    set p | p in after && (p !in before || before[p] != after[p]) && IsInMonitoredWindow(after[p], start) :: after[p]
  }

  /** Adding one path to the table after a scan adds at most that path's snapshot to the report. */
  lemma ChangesStep(before: Table, after: Table, p: Path, info: FileInfo, start: Time)
    requires p !in after
    ensures Changes(before, after[p := info], start) ==
            Changes(before, after, start) +
            (if (p !in before || before[p] != info) && IsInMonitoredWindow(info, start) then {info} else {})
  {
  }

  /** No two snapshots of `s` are for the same path. */
  predicate DistinctPaths(s: seq<FileInfo>)
  {
    forall i, j :: 0 <= i < j < |s| ==> s[i].filePath != s[j].filePath
  }

  /** Appending a snapshot for a path not yet present keeps the paths distinct. */
  lemma DistinctPathsAppend(s: seq<FileInfo>, x: FileInfo)
    requires DistinctPaths(s)
    requires forall i :: 0 <= i < |s| ==> s[i].filePath != x.filePath
    ensures DistinctPaths(s + [x])
  {
    var t := s + [x];
    forall i, j | 0 <= i < j < |t|
      ensures t[i].filePath != t[j].filePath
    {
      if j < |s| {
        assert t[i] == s[i] && t[j] == s[j];
      } else {
        assert t[i] == s[i] && t[j] == x;
      }
    }
  }

  /** A path that fails the filter is never stored and never reported. */
  lemma FilteredOutPathIsIgnored(before: Table, listing: seq<FileInfo>, filter: Path -> bool, start: Time, p: Path)
    requires !filter(p)
    ensures p !in Snapshot(listing, filter)
    ensures forall c :: c in Changes(before, Snapshot(listing, filter), start) ==> c.filePath != p
  {
    SnapshotEntries(listing, filter);
  }

  /** Scanning a listing that has not changed since the previous scan reports nothing. */
  lemma RescanReportsNothing(listing: seq<FileInfo>, filter: Path -> bool, start: Time)
    ensures Changes(Snapshot(listing, filter), Snapshot(listing, filter), start) == {}
  {
  }

  /**
   * A deleted file is dropped from the table without an event; when it is
   * re-created with a snapshot in the window it is reported again, even if
   * that snapshot equals the one seen before the deletion.
   */
  lemma DeletedThenRecreatedIsReported(
    beforeDeletion: seq<FileInfo>, afterDeletion: seq<FileInfo>, recreated: seq<FileInfo>,
    filter: Path -> bool, start: Time, info: FileInfo)
    requires filter(info.filePath) && info in recreated && IsInMonitoredWindow(info, start)
    requires forall f :: f in afterDeletion ==> f.filePath != info.filePath
    requires forall f :: f in recreated && f.filePath == info.filePath ==> f == info
    ensures info.filePath !in Snapshot(afterDeletion, filter)
    ensures forall c :: c in Changes(Snapshot(beforeDeletion, filter), Snapshot(afterDeletion, filter), start) ==>
              c.filePath != info.filePath
    ensures info in Changes(Snapshot(afterDeletion, filter), Snapshot(recreated, filter), start)
  {
    var p := info.filePath;
    SnapshotEntries(afterDeletion, filter);
    SnapshotEntries(recreated, filter);
    var i :| 0 <= i < |recreated| && recreated[i] == info;
    assert p in Snapshot(recreated, filter);
  }

  /** Raising the start bound can only withhold reports, never add them. */
  lemma LaterStartReportsLess(before: Table, after: Table, earlier: Time, later: Time)
    requires earlier <= later
    ensures Changes(before, after, later) <= Changes(before, after, earlier)
  {
  }

  /** Builds the path-keyed map of the listing entries that pass the filter. */
  method IndexListing(listing: seq<FileInfo>, filter: Path -> bool) returns (newFileInfos: Table)
    ensures newFileInfos == Snapshot(listing, filter)
  {
    newFileInfos := map[];
    for i := 0 to |listing|
      invariant newFileInfos == Snapshot(listing[..i], filter)
    {
      assert listing[..i + 1][..i] == listing[..i];
      if filter(listing[i].filePath) {
        newFileInfos := newFileInfos[listing[i].filePath := listing[i]];
      }
    }
    assert listing[..|listing|] == listing;
  }

  class MonitoredFolder {
    const folderPath: Path
    const filePathFilter: Path -> bool
    const reportTypes: set<ReportType>
    var fileInfos: Table
    var monitoringStartTime: Time

    constructor (folderPath: Path, filePathFilter: Path -> bool, reportTypes: seq<ReportType>, startTime: Time)
      ensures this.folderPath == folderPath && this.filePathFilter == filePathFilter
      ensures forall t :: t in this.reportTypes <==> t in reportTypes
      ensures |this.reportTypes| <= |reportTypes|
      ensures fileInfos == map[] && monitoringStartTime == startTime
    {
      ElementsMembers(reportTypes);
      this.folderPath := folderPath;
      this.filePathFilter := filePathFilter;
      this.reportTypes := Elements(reportTypes);
      fileInfos := map[];
      monitoringStartTime := startTime;
    }

    /** The folder's report types: those given to the constructor, with duplicates collapsed. */
    function GetReportTypes(): set<ReportType>
    {
      reportTypes
    }

    /** Moves the start bound forward to `startTime`; a request to move it backward is ignored. */
    method LimitMonitoringStartTime(startTime: Time)
      modifies this`monitoringStartTime
      ensures monitoringStartTime == Max(old(monitoringStartTime), startTime)
      ensures old(monitoringStartTime) <= monitoringStartTime
      ensures startTime <= old(monitoringStartTime) ==> monitoringStartTime == old(monitoringStartTime)
    {
      if monitoringStartTime < startTime {
        monitoringStartTime := startTime;
      }
    }

    /**
     * One scan: the table becomes the filtered listing keyed by path (vanished
     * paths are dropped without an event, new and changed snapshots are stored
     * whether or not they are in the window), and the result holds each new or
     * changed snapshot that is in the window, no path twice.
     */
    method GetNewMonitoredChanges(listing: seq<FileInfo>) returns (changes: seq<FileInfo>)
      modifies this`fileInfos
      ensures fileInfos == Snapshot(listing, filePathFilter)
      ensures forall c :: c in changes <==> c in Changes(old(fileInfos), fileInfos, monitoringStartTime)
      ensures DistinctPaths(changes)
    {
      var newFileInfos := IndexListing(listing, filePathFilter);
      SnapshotEntries(listing, filePathFilter);
      DropVanishedPaths(newFileInfos);
      changes := StoreNewAndChanged(newFileInfos, old(fileInfos));
    }

    /** Drops every stored path that is absent from the new listing; a deletion reports nothing. */
    method DropVanishedPaths(newFileInfos: Table)
      modifies this`fileInfos
      ensures forall p :: p in fileInfos <==> p in old(fileInfos) && p in newFileInfos
      ensures forall p :: p in fileInfos ==> fileInfos[p] == old(fileInfos)[p]
    {
      var stored := fileInfos.Keys;
      while stored != {}
        invariant stored <= old(fileInfos).Keys
        invariant forall p :: p in fileInfos <==> p in old(fileInfos) && (p in stored || p in newFileInfos)
        invariant forall p :: p in fileInfos ==> fileInfos[p] == old(fileInfos)[p]
        decreases stored
      {
        var p :| p in stored;
        if p !in newFileInfos {
          fileInfos := fileInfos - {p};
        }
        stored := stored - {p};
      }
    }

    /**
     * Stores every snapshot of the new listing that is new or changed with
     * respect to `before` (the table as it was when the scan began), and
     * reports those of them that are in the window.
     */
    method StoreNewAndChanged(newFileInfos: Table, ghost before: Table) returns (changes: seq<FileInfo>)
      requires forall p :: p in newFileInfos ==> newFileInfos[p].filePath == p
      requires forall p :: p in fileInfos <==> p in before && p in newFileInfos
      requires forall p :: p in fileInfos ==> fileInfos[p] == before[p]
      modifies this`fileInfos
      ensures fileInfos == newFileInfos
      ensures forall c :: c in changes <==> c in Changes(before, newFileInfos, monitoringStartTime)
      ensures DistinctPaths(changes)
    {
      changes := [];
      var pending := newFileInfos.Keys;
      while pending != {}
        invariant pending <= newFileInfos.Keys
        invariant forall p :: p in fileInfos <==> p in newFileInfos && (p !in pending || p in before)
        invariant forall p :: p in fileInfos ==> fileInfos[p] == if p in pending then before[p] else newFileInfos[p]
        invariant forall c :: c in changes <==> c in Changes(before, newFileInfos - pending, monitoringStartTime)
        invariant forall i :: 0 <= i < |changes| ==> changes[i].filePath in newFileInfos && changes[i].filePath !in pending
        invariant DistinctPaths(changes)
        decreases pending
      {
        var p :| p in pending;
        var newFileInfo := newFileInfos[p];
        assert newFileInfos - (pending - {p}) == (newFileInfos - pending)[p := newFileInfo];
        ChangesStep(before, newFileInfos - pending, p, newFileInfo, monitoringStartTime);
        if p !in fileInfos || newFileInfo != fileInfos[p] {
          fileInfos := fileInfos[p := newFileInfo];
          if IsInMonitoredWindow(newFileInfo, monitoringStartTime) {
            DistinctPathsAppend(changes, newFileInfo);
            changes := changes + [newFileInfo];
          }
        }
        pending := pending - {p};
      }
      assert newFileInfos - pending == newFileInfos;
      assert fileInfos == newFileInfos;
    }
  }
}
