/**
 * The window (src/App.tsx): the drop overlay flag and the list of dropped `.har`
 * paths handed to the sidebar.
 */
module App {
  import opened Wrappers
  import opened Patterns

  /** A dropped file: its base name and its full path. */
  datatype DroppedFile = DroppedFile(name: string, path: string)

  /** `/\.har$/i` */
  predicate IsHarName(name: string) {
    EndsWithIgnoreCase(name, ".har")
  }

  /** `files.filter(file => /\.har$/i.test(file.name)).map(file => file.path)` */
  function HarPaths(files: seq<DroppedFile>): (paths: seq<string>)
    ensures |paths| <= |files|
  {
    if |files| == 0 then []
    else (if IsHarName(files[0].name) then [files[0].path] else []) + HarPaths(files[1..])
  }

  /** The filter works file by file, so the paths keep the files' order. */
  lemma {:induction false} HarPathsConcat(a: seq<DroppedFile>, b: seq<DroppedFile>)
    ensures HarPaths(a + b) == HarPaths(a) + HarPaths(b)
  {
    if |a| > 0 {
      assert (a + b)[1..] == a[1..] + b;
      HarPathsConcat(a[1..], b);
    } else {
      assert a + b == b;
    }
  }

  /** A path is kept exactly when some dropped file with a `.har` name has it. */
  lemma {:induction false} HarPathsMembers(files: seq<DroppedFile>, path: string)
    ensures path in HarPaths(files) <==> exists i :: 0 <= i < |files| && files[i].path == path && IsHarName(files[i].name)
  {
    if |files| > 0 {
      HarPathsMembers(files[1..], path);
      if path in HarPaths(files[1..]) {
        var i :| 0 <= i < |files[1..]| && files[1..][i].path == path && IsHarName(files[1..][i].name);
        assert files[i + 1] == files[1..][i];
      }
      if exists i :: 0 <= i < |files| && files[i].path == path && IsHarName(files[i].name) {
        var i :| 0 <= i < |files| && files[i].path == path && IsHarName(files[i].name);
        if i > 0 {
          assert files[1..][i - 1] == files[i];
        }
      }
    }
  }

  /** When every dropped file is a `.har` file, every path is kept, in order. */
  lemma {:induction false} HarPathsAllHar(files: seq<DroppedFile>)
    requires forall i :: 0 <= i < |files| ==> IsHarName(files[i].name)
    ensures |HarPaths(files)| == |files|
    ensures forall i :: 0 <= i < |files| ==> HarPaths(files)[i] == files[i].path
  {
    if |files| > 0 {
      HarPathsAllHar(files[1..]);
    }
  }

  /** The name test ignores case and wants the dot. */
  lemma HarNameExamples()
    ensures IsHarName("a.har") && IsHarName("B.HAR")
    ensures !IsHarName("har") && !IsHarName("a.har.json")
  {
    var json := "a.har.json";
    assert json[|json| - 4] == 'j';
    assert !SameIgnoringCase(json[|json| - 4 + 0], ".har"[0]);
  }

  /** The component's state. */
  class Window {
    var showDrop: bool
    var dropPaths: seq<string>
    var path: Option<string>

    constructor ()
      ensures !showDrop && dropPaths == [] && path == None
    {
      showDrop := false;
      dropPaths := [];
      path := None;
    }

    /** `handleDragEnter` */
    method DragEnter()
      modifies this
      ensures showDrop && dropPaths == old(dropPaths) && path == old(path)
    {
      showDrop := true;
    }

    /** `handleDragLeave` */
    method DragLeave()
      modifies this
      ensures !showDrop && dropPaths == old(dropPaths) && path == old(path)
    {
      showDrop := false;
    }

    /** `handleDrop`: the overlay always goes; an empty drop keeps the paths; otherwise
        the paths of the `.har` files replace them, even when there are none. */
    method Drop(files: seq<DroppedFile>)
      modifies this
      ensures !showDrop && path == old(path)
      ensures files == [] ==> dropPaths == old(dropPaths)
      ensures files != [] ==> dropPaths == HarPaths(files)
    {
      showDrop := false;
      if |files| == 0 {
        return;
      }
      dropPaths := HarPaths(files);
    }

    /** The sidebar's `onPath` callback. */
    method OnPath(v: string)
      modifies this
      ensures path == Some(v) && showDrop == old(showDrop) && dropPaths == old(dropPaths)
    {
      path := Some(v);
    }
  }
}
