/**
 * JavaScript's `String.prototype.split` with a one-character separator, and the
 * `join` that undoes it. Both URL and file names in the viewer are taken from the
 * pieces `split('/')` returns.
 */
module Segments {

  /** `s.split([sep])`: the pieces between separators, in order; never empty. */
  function Split(s: string, sep: char): (parts: seq<string>)
    ensures |parts| >= 1
    ensures forall i :: 0 <= i < |parts| ==> sep !in parts[i]
    decreases |s|
  {
    if |s| == 0 then [""]
    else
      var rest := Split(s[1..], sep);
      if s[0] == sep then [""] + rest
      else [[s[0]] + rest[0]] + rest[1..]
  }

  /** `parts.join([sep])` */
  function Join(parts: seq<string>, sep: char): string
    requires |parts| >= 1
  {
    if |parts| == 1 then parts[0] else parts[0] + [sep] + Join(parts[1..], sep)
  }

  /** The last piece of `s.split([sep])`. */
  function Last(s: string, sep: char): string {
    var parts := Split(s, sep);
    parts[|parts| - 1]
  }

  /** Joining the pieces gives the string back. */
  lemma {:induction false} JoinSplit(s: string, sep: char)
    ensures Join(Split(s, sep), sep) == s
    decreases |s|
  {
    if |s| > 0 {
      JoinSplit(s[1..], sep);
      var rest := Split(s[1..], sep);
      if s[0] != sep {
        if |rest| > 1 {
          assert rest[1..][1..] == rest[2..];
          calc {
            Join(Split(s, sep), sep);
            ([s[0]] + rest[0]) + [sep] + Join(rest[1..], sep);
            [s[0]] + (rest[0] + [sep] + Join(rest[1..], sep));
            [s[0]] + Join(rest, sep);
          }
        }
        assert s == [s[0]] + s[1..];
      } else {
        assert ([""] + rest)[1..] == rest;
        assert s == [sep] + s[1..];
      }
    }
  }

  /** Splitting a join of separator-free pieces gives the pieces back. */
  lemma {:induction false} SplitJoin(parts: seq<string>, sep: char)
    requires |parts| >= 1
    requires forall i :: 0 <= i < |parts| ==> sep !in parts[i]
    ensures Split(Join(parts, sep), sep) == parts
    decreases |parts|, |parts[0]|
  {
    var p := parts[0];
    if |p| == 0 {
      if |parts| > 1 {
        var tail := Join(parts[1..], sep);
        SplitJoin(parts[1..], sep);
        assert Join(parts, sep) == [sep] + tail;
        assert ([sep] + tail)[1..] == tail;
        assert parts == [""] + parts[1..];
      }
    } else {
      var shorter := parts[0 := p[1..]];
      assert shorter[1..] == parts[1..];
      SplitJoin(shorter, sep);
      var s := Join(parts, sep);
      assert s == [p[0]] + Join(shorter, sep);
      assert s[1..] == Join(shorter, sep);
      assert p[0] in p;
      assert [p[0]] + p[1..] == p;
      assert parts == [[p[0]] + shorter[0]] + shorter[1..];
    }
  }

  /** A separator appended to a string adds one empty piece at the end. */
  lemma {:induction false} SplitSnoc(s: string, sep: char)
    ensures Split(s + [sep], sep) == Split(s, sep) + [""]
    decreases |s|
  {
    if |s| == 0 {
      assert ([sep] + [])[1..] == [];
    } else {
      assert (s + [sep])[1..] == s[1..] + [sep];
      SplitSnoc(s[1..], sep);
      var rest := Split(s[1..], sep);
      if s[0] != sep {
        assert (rest + [""])[1..] == rest[1..] + [""];
      }
    }
  }

  /** The join of two or more pieces ends in a separator followed by the last piece. */
  lemma {:induction false} JoinLast(parts: seq<string>, sep: char)
    requires |parts| >= 2
    ensures Join(parts, sep) == Join(parts[..|parts| - 1], sep) + [sep] + parts[|parts| - 1]
    decreases |parts|
  {
    if |parts| > 2 {
      JoinLast(parts[1..], sep);
      assert parts[1..][..|parts| - 2] == parts[..|parts| - 1][1..];
    }
  }

  /** The last piece is the longest separator-free suffix: it ends `s`, holds no
      separator, and is either all of `s` or preceded by a separator. */
  lemma LastIsFinalSegment(s: string, sep: char)
    ensures var last := Last(s, sep);
      && |last| <= |s| && s[|s| - |last|..] == last
      && sep !in last
      && (|last| < |s| ==> s[|s| - |last| - 1] == sep)
  {
    var parts := Split(s, sep);
    var last := parts[|parts| - 1];
    JoinSplit(s, sep);
    if |parts| >= 2 {
      JoinLast(parts, sep);
      var init := Join(parts[..|parts| - 1], sep);
      assert s == init + [sep] + last;
      assert s[|s| - |last|..] == last;
    }
  }

  /** The last piece is empty exactly when `s` is empty or ends in the separator. */
  lemma LastEmpty(s: string, sep: char)
    ensures Last(s, sep) == "" <==> (s == "" || s[|s| - 1] == sep)
  {
    LastIsFinalSegment(s, sep);
    if s != "" && s[|s| - 1] == sep {
      SplitSnoc(s[..|s| - 1], sep);
      assert s[..|s| - 1] + [sep] == s;
    }
  }

  /** The last piece is what follows the last separator, or all of `s` when it has none. */
  lemma LastAfterFinalSeparator(s: string, sep: char, k: int)
    requires -1 <= k < |s| && (k >= 0 ==> s[k] == sep) && sep !in s[k + 1..]
    ensures Last(s, sep) == s[k + 1..]
  {
    LastIsFinalSegment(s, sep);
  }
}
