/**
 * The history sidebar (src/components/Sidebar/Sidebar.tsx): the list of reported paths,
 * the selected one, and the handlers that append to, select from, clear and sort it.
 * `uuid.v4()` and `Date.now()` are inputs; the path a handler passes to `onPath` is
 * its result.
 */
module Sidebar {
  import opened Wrappers
  import Segments

  datatype History = History(uuid: string, path: string, time: int)

  /** The nine shortcut digits. */
  const Shortcuts: seq<nat> := [1, 2, 3, 4, 5, 6, 7, 8, 9]

  /** `pathToName`: the text after the last `/`, or the whole path when it has none. */
  function PathToName(path: string): (name: string)
    ensures |name| <= |path| && path[|path| - |name|..] == name
    ensures '/' !in name
    ensures |name| < |path| ==> path[|path| - |name| - 1] == '/'
  {
    Segments.LastIsFinalSegment(path, '/');
    Segments.Last(path, '/')
  }

  /** A path ending in `/` has the empty name. */
  lemma PathToNameOfDirectory(path: string)
    requires path != "" && path[|path| - 1] == '/'
    ensures PathToName(path) == ""
  {
  }

  /** `dropPaths.map(...)`: one history per path, each with its own id and time. */
  function NewHistories(paths: seq<string>, uuids: seq<string>, times: seq<int>): (hs: seq<History>)
    requires |uuids| == |paths| && |times| == |paths|
    ensures |hs| == |paths|
    ensures forall i :: 0 <= i < |paths| ==> hs[i].path == paths[i]
  {
    seq(|paths|, i requires 0 <= i < |paths| => History(uuids[i], paths[i], times[i]))
  }

  // ---------------------------------------------------------------- ordering

  /** Newest first. */
  predicate NewestFirst(hs: seq<History>) {
    forall i, j :: 0 <= i < j < |hs| ==> hs[i].time >= hs[j].time
  }

  /** Puts `h` before the first history that is not newer than it. */
  function InsertByTime(h: History, hs: seq<History>): seq<History> {
    if |hs| == 0 || hs[0].time <= h.time then [h] + hs
    else [hs[0]] + InsertByTime(h, hs[1..])
  }

  /** `histories.sort((a, b) => b.time - a.time)`: `Array.prototype.sort` is stable, so
      this is the insertion sort that keeps equal times in their order. */
  function SortedByTime(hs: seq<History>): seq<History> {
    if |hs| == 0 then [] else InsertByTime(hs[0], SortedByTime(hs[1..]))
  }

  /** The histories of one time, in order. */
  function AtTime(hs: seq<History>, t: int): seq<History> {
    if |hs| == 0 then [] else (if hs[0].time == t then [hs[0]] else []) + AtTime(hs[1..], t)
  }

  lemma {:induction false} InsertByTimeElements(h: History, hs: seq<History>)
    ensures multiset(InsertByTime(h, hs)) == multiset(hs) + multiset{h}
  {
    if |hs| > 0 && hs[0].time > h.time {
      InsertByTimeElements(h, hs[1..]);
      assert hs == [hs[0]] + hs[1..];
    }
  }

  lemma {:induction false} InsertByTimeNewestFirst(h: History, hs: seq<History>)
    requires NewestFirst(hs)
    ensures NewestFirst(InsertByTime(h, hs))
  {
    if |hs| > 0 && hs[0].time > h.time {
      InsertByTimeNewestFirst(h, hs[1..]);
      var rest := InsertByTime(h, hs[1..]);
      InsertByTimeElements(h, hs[1..]);
      forall x | x in rest ensures hs[0].time >= x.time {
        assert x in multiset(rest);
        assert x == h || x in multiset(hs[1..]);
      }
      assert InsertByTime(h, hs) == [hs[0]] + rest;
    }
  }

  /** The sort puts the newest first ... */
  lemma {:induction false} SortedByTimeIsNewestFirst(hs: seq<History>)
    ensures NewestFirst(SortedByTime(hs))
  {
    if |hs| > 0 {
      SortedByTimeIsNewestFirst(hs[1..]);
      InsertByTimeNewestFirst(hs[0], SortedByTime(hs[1..]));
    }
  }

  /** ... loses and gains nothing ... */
  lemma {:induction false} SortedByTimeIsPermutation(hs: seq<History>)
    ensures multiset(SortedByTime(hs)) == multiset(hs)
  {
    if |hs| > 0 {
      SortedByTimeIsPermutation(hs[1..]);
      InsertByTimeElements(hs[0], SortedByTime(hs[1..]));
      assert hs == [hs[0]] + hs[1..];
    }
  }

  lemma AtTimeCons(x: History, hs: seq<History>, t: int)
    ensures AtTime([x] + hs, t) == (if x.time == t then [x] else []) + AtTime(hs, t)
  {
    assert ([x] + hs)[1..] == hs;
  }

  lemma {:induction false} InsertByTimeAtTime(h: History, hs: seq<History>, t: int)
    ensures AtTime(InsertByTime(h, hs), t) == (if h.time == t then [h] else []) + AtTime(hs, t)
  {
    if |hs| > 0 && hs[0].time > h.time {
      InsertByTimeAtTime(h, hs[1..], t);
      AtTimeCons(hs[0], InsertByTime(h, hs[1..]), t);
      AtTimeCons(hs[0], hs[1..], t);
      assert [hs[0]] + hs[1..] == hs;
    } else {
      AtTimeCons(h, hs, t);
    }
  }

  /** ... and keeps histories of equal times in their previous order. */
  lemma {:induction false} SortedByTimeIsStable(hs: seq<History>, t: int)
    ensures AtTime(SortedByTime(hs), t) == AtTime(hs, t)
  {
    if |hs| > 0 {
      SortedByTimeIsStable(hs[1..], t);
      InsertByTimeAtTime(hs[0], SortedByTime(hs[1..]), t);
    }
  }

  // ---------------------------------------------------------------- the component

  class HistoryList {
    var histories: seq<History>
    var selected: Option<History>

    constructor ()
      ensures histories == [] && selected == None
    {
      histories := [];
      selected := None;
    }

    /** The effect on a new `dropPaths` prop: nothing for an empty list; otherwise one
        new history per path after the existing ones, the first selected and reported. */
    method OnDropPaths(dropPaths: seq<string>, uuids: seq<string>, times: seq<int>) returns (reported: Option<string>)
      requires |uuids| == |dropPaths| && |times| == |dropPaths|
      modifies this
      ensures dropPaths == [] ==> histories == old(histories) && selected == old(selected) && reported == None
      ensures dropPaths != [] ==>
        var added := NewHistories(dropPaths, uuids, times);
        && histories == old(histories) + added
        && selected == Some(added[0])
        && reported == Some(dropPaths[0])
    {
      if |dropPaths| == 0 {
        return None;
      }
      var added := NewHistories(dropPaths, uuids, times);
      reported := Some(added[0].path);
      histories := histories + added;
      selected := Some(added[0]);
    }

    /** `openFile` after the dialog: `filePaths` is `None` when the dialog gave back
        `undefined` or no `filePaths`; an empty list is ignored as well. */
    method OpenFile(filePaths: Option<seq<string>>, uuid: string, time: int) returns (reported: Option<string>)
      modifies this
      ensures filePaths == None || filePaths == Some([]) ==>
        histories == old(histories) && selected == old(selected) && reported == None
      ensures filePaths != None && filePaths != Some([]) ==>
        var h := History(uuid, filePaths.value[0], time);
        && histories == old(histories) + [h]
        && selected == Some(h)
        && reported == Some(filePaths.value[0])
    {
      if filePaths == None || |filePaths.value| == 0 {
        return None;
      }
      var filePath := filePaths.value[0];
      reported := Some(filePath);
      var h := History(uuid, filePath, time);
      histories := histories + [h];
      selected := Some(h);
    }

    /** `handleHistory`: `undefined` is ignored; otherwise the history is selected and reported. */
    method HandleHistory(history: Option<History>) returns (reported: Option<string>)
      modifies this
      ensures histories == old(histories)
      ensures history == None ==> selected == old(selected) && reported == None
      ensures history != None ==> selected == history && reported == Some(history.value.path)
      ensures history != None ==> IsHighlighted(history.value)
    {
      if history == None {
        return None;
      }
      reported := Some(history.value.path);
      selected := history;
    }

    /** `deleteHistory` */
    method DeleteHistory()
      modifies this
      ensures histories == [] && selected == None
    {
      histories := [];
      selected := None;
    }

    /** The handler bound to shortcut `n`: `handleHistory(histories[n - 1])`, where an
        index past the end reads `undefined`. */
    method Shortcut(n: nat) returns (reported: Option<string>)
      requires n in Shortcuts
      modifies this
      ensures histories == old(histories)
      ensures n - 1 >= |histories| ==> selected == old(selected) && reported == None
      ensures n - 1 < |histories| ==>
        selected == Some(histories[n - 1]) && reported == Some(histories[n - 1].path)
    {
      var history := if n - 1 < |histories| then Some(histories[n - 1]) else None;
      reported := HandleHistory(history);
    }

    /** The render sorts the state's array in place, newest first. */
    method SortForDisplay()
      modifies this
      ensures histories == SortedByTime(old(histories))
      ensures NewestFirst(histories) && multiset(histories) == multiset(old(histories))
      ensures selected == old(selected)
    {
      SortedByTimeIsNewestFirst(histories);
      SortedByTimeIsPermutation(histories);
      histories := SortedByTime(histories);
    }

    /** The entry drawn as selected: the one with the selected history's id. */
    predicate IsHighlighted(h: History)
      reads this
    {
      selected != None && selected.value.uuid == h.uuid
    }
  }
}
