/**
 * Values shared by the change detector (MonitoredFolder), the handler slot
 * (ReportHandlerWrapper) and the dispatcher (ExecutorReportProcessor).
 */
module Shared {

  /** A file or folder path, compared as text. */
  type Path = string

  /** A label that matches monitored folders to the handlers interested in them. */
  type ReportType = string

  /** A file-system instant, on an unbounded integer time line. */
  type Time = int

  /** The identity of a report handler object: handlers are compared by identity. */
  type HandlerId = nat

  /**
   * An immutable file snapshot. Two snapshots are equal iff path, creation
   * time and modification time are all equal.
   */
  datatype FileInfo = FileInfo(filePath: Path, creationTime: Time, modificationTime: Time)

  function Max(a: int, b: int): int
  {
    if a < b then b else a
  }

  predicate NoDuplicates<T(==)>(s: seq<T>)
  {
    forall i, j :: 0 <= i < j < |s| ==> s[i] != s[j]
  }

  /**
   * The set of the elements of `s`: what collecting an array into a set
   * yields. Duplicates collapse, so the set is never larger than the array.
   */
  function Elements<T>(s: seq<T>): set<T>
  {
    if s == [] then {} else {s[0]} + Elements(s[1..])
  }

  /** The collected set holds exactly the elements of the array, and no more of them than the array has entries. */
  lemma {:induction false} ElementsMembers<T>(s: seq<T>)
    ensures forall x :: x in Elements(s) <==> x in s
    ensures |Elements(s)| <= |s|
  {
    if s != [] {
      ElementsMembers(s[1..]);
      assert s == [s[0]] + s[1..];
    }
  }

  /** Collecting loses nothing exactly when the array holds no duplicate. */
  lemma {:induction false} ElementsOfDistinct<T>(s: seq<T>)
    ensures |Elements(s)| == |s| <==> NoDuplicates(s)
  {
    ElementsMembers(s);
    if s != [] {
      var rest := s[1..];
      ElementsOfDistinct(rest);
      ElementsMembers(rest);
      assert s == [s[0]] + rest;
      NoDuplicatesPrepend(s[0], rest);
      if s[0] in rest {
        assert Elements(s) == Elements(rest);
      } else {
        assert s[0] !in Elements(rest);
        assert |Elements(s)| == |Elements(rest)| + 1;
      }
    }
  }

  /** Prepending keeps a sequence duplicate-free iff the new element is not already in it. */
  lemma NoDuplicatesPrepend<T>(x: T, s: seq<T>)
    ensures NoDuplicates([x] + s) <==> NoDuplicates(s) && x !in s
  {
    var t := [x] + s;
    if x in s {
      var k :| 0 <= k < |s| && s[k] == x;
      assert t[0] == t[k + 1];
    } else if NoDuplicates(s) {
      forall i, j | 0 <= i < j < |t|
        ensures t[i] != t[j]
      {
        if i > 0 {
          assert t[i] == s[i - 1] && t[j] == s[j - 1];
        }
      }
    } else {
      var i, j :| 0 <= i < j < |s| && s[i] == s[j];
      assert t[i + 1] == t[j + 1];
    }
  }

  /** Appending keeps a sequence duplicate-free iff the new element is not already in it. */
  lemma NoDuplicatesAppend<T>(s: seq<T>, x: T)
    ensures NoDuplicates(s + [x]) <==> NoDuplicates(s) && x !in s
  {
    var t := s + [x];
    if x in s {
      var k :| 0 <= k < |s| && s[k] == x;
      assert t[k] == t[|s|];
    } else if NoDuplicates(s) {
      forall i, j | 0 <= i < j < |t|
        ensures t[i] != t[j]
      {
        if j < |s| {
          assert t[i] == s[i] && t[j] == s[j];
        }
      }
    } else {
      var i, j :| 0 <= i < j < |s| && s[i] == s[j];
      assert t[i] == t[j];
    }
  }

  /** Two duplicate-free sequences with no element in common concatenate to a duplicate-free one. */
  lemma NoDuplicatesConcat<T>(s: seq<T>, t: seq<T>)
    requires NoDuplicates(s) && NoDuplicates(t)
    requires forall x :: x in s ==> x !in t
    ensures NoDuplicates(s + t)
  {
    var u := s + t;
    forall i, j | 0 <= i < j < |u|
      ensures u[i] != u[j]
    {
      if j < |s| {
        assert u[i] == s[i] && u[j] == s[j];
      } else if i >= |s| {
        assert u[i] == t[i - |s|] && u[j] == t[j - |s|];
      } else {
        assert u[i] == s[i] && u[j] == t[j - |s|];
        assert s[i] in s && t[j - |s|] in t;
      }
    }
  }
}
