/**
 The rotating log file. File 0 is the current one, file i the one with suffix .i; renames of files
 that exist succeed, as do writes.
 */
module LogFile {
  import opened Basics

  /** Whole lines; `rotated` records that a rotation started the file. */
  datatype File = File(lines: seq<string>, rotated: bool)

  function Size(lines: seq<string>): nat
  {
    if lines == [] then 0 else Size(lines[..|lines| - 1]) + |lines[|lines| - 1]|
  }

  function Lines(file: Option<File>): seq<string>
  {
    if file.Some? then file.value.lines else []
  }

  /** Everything kept, oldest file first. */
  function Kept(files: seq<Option<File>>): seq<string>
  {
    if files == [] then [] else Kept(files[1..]) + Lines(files[0])
  }

  /** One rename: the target becomes the source, if there is one. */
  function Renamed(files: seq<Option<File>>, from: nat, to: nat): (r: seq<Option<File>>)
    requires from < |files| && to < |files| && from != to
    ensures |r| == |files|
  {
    if files[from].Some? then files[to := files[from]][from := None] else files
  }

  /** The renames of one rotation, from the oldest suffix on. */
  function Shifted(files: seq<Option<File>>, index: nat): (r: seq<Option<File>>)
    requires index < |files|
    ensures |r| == |files|
    decreases index
  {
    if index == 0 then files else Shifted(Renamed(files, index - 1, index), index - 1)
  }

  function Reopened(files: seq<Option<File>>): (r: seq<Option<File>>)
    requires files != []
    ensures |r| == |files| && r[0].Some?
  {
    if files[0].Some? then files else files[0 := Some(File([], true))]
  }

  /** The files a line is written to: rotated if the current one has no room left. */
  function Ready(files: seq<Option<File>>, line: string, maxBytes: nat): (r: seq<Option<File>>)
    requires files != [] && files[0].Some?
    ensures |r| == |files| && r[0].Some?
  {
    var size := Size(files[0].value.lines);
    if size + |line| > maxBytes && size > 0 then Reopened(Shifted(files, |files| - 1)) else files
  }

  /** The files after one line more. */
  function Wrote(files: seq<Option<File>>, line: string, maxBytes: nat): (r: seq<Option<File>>)
    requires files != [] && files[0].Some?
    ensures |r| == |files| && r[0].Some?
  {
    var ready := Ready(files, line, maxBytes);
    ready[0 := Some(ready[0].value.(lines := ready[0].value.lines + [line]))]
  }

  class RotatingLogFile {
    const maxBytes: nat
    const keep: nat
    var files: seq<Option<File>>
    var size: nat

    ghost predicate Valid()
      reads this
    {
      |files| == keep + 1 && files[0].Some? && size == Size(files[0].value.lines)
    }

    constructor (found: seq<Option<File>>, maxBytes: nat, keep: nat)
      requires |found| == keep + 1
      ensures Valid() && this.maxBytes == maxBytes && this.keep == keep
      ensures files == if found[0].Some? then found else found[0 := Some(File([], false))]
    {
      this.maxBytes := maxBytes;
      this.keep := keep;
      this.files := if found[0].Some? then found else found[0 := Some(File([], false))];
      this.size := Size(Lines(found[0]));
    }

    method Write(line: string)
      requires Valid()
      modifies this
      ensures Valid() && files == Wrote(old(files), line, maxBytes)
    {
      hide Size, Renamed;
      if size + |line| > maxBytes && size > 0 {
        var index: nat := keep;
        while index > 0
          invariant index <= keep && |files| == keep + 1
          invariant Shifted(files, index) == Shifted(old(files), keep)
        {
          files := Renamed(files, index - 1, index);
          index := index - 1;
        }
        if files[0].None? {
          files := files[0 := Some(File([], true))];
        }
        size := Size(files[0].value.lines);
      }
      var current := files[0].value;
      SizeGrows(current.lines, line);
      files := files[0 := Some(current.(lines := current.lines + [line]))];
      size := size + |line|;
    }
  }

  lemma SizeGrows(lines: seq<string>, line: string)
    ensures Size(lines + [line]) == Size(lines) + |line|
  {
    assert (lines + [line])[..|lines|] == lines;
  }

  // ---- rotation ----

  /** A rotation moves every file one suffix up; the oldest gives way if there is one to replace it. */
  lemma {:induction false} ShiftedIs(files: seq<Option<File>>, index: nat)
    requires index < |files|
    ensures var r := Shifted(files, index);
      && (forall i :: index < i < |files| ==> r[i] == files[i])
      && (index > 0 ==> r[0] == None && r[index] == if files[index - 1].Some? then files[index - 1] else files[index])
      && (forall i :: 0 < i < index ==> r[i] == files[i - 1])
      && (index == 0 ==> r == files)
    decreases index
  {
    if index > 0 {
      var once := Renamed(files, index - 1, index);
      ShiftedIs(once, index - 1);
      if index > 1 {
        assert once[index - 1] == None && once[index - 2] == files[index - 2];
      }
    }
  }

  lemma {:induction false} KeptLast(files: seq<Option<File>>)
    requires files != []
    ensures Kept(files) == Lines(files[|files| - 1]) + Kept(files[..|files| - 1])
  {
    hide Kept, Lines;
    KeptFirst(files);
    if |files| > 1 {
      var last, first := Lines(files[|files| - 1]), Lines(files[0]);
      KeptLast(files[1..]);
      KeptFirst(files[..|files| - 1]);
      assert files[1..][..|files| - 2] == files[..|files| - 1][1..];
      Associative(last, Kept(files[..|files| - 1][1..]), first);
    } else {
      KeptNone(files[1..], files[..0]);
    }
  }

  lemma KeptNone(after: seq<Option<File>>, before: seq<Option<File>>)
    requires |after| == |before| == 0
    ensures Kept(after) == Kept(before) == []
  {
  }

  ghost predicate SuffixOf(part: seq<string>, whole: seq<string>)
  {
    |part| <= |whole| && part == whole[|whole| - |part|..]
  }

  /** The files after a rotation. */
  lemma RotatedIs(files: seq<Option<File>>)
    requires |files| >= 2
    ensures var n, r := |files|, Reopened(Shifted(files, |files| - 1));
      && r[0] == Some(File([], true)) && r[1..n - 1] == files[..n - 2]
      && r[n - 1] == if files[n - 2].Some? then files[n - 2] else files[n - 1]
  {
    hide Shifted, Reopened;
    ShiftedIs(files, |files| - 1);
    MiddleIs(files, Shifted(files, |files| - 1));
  }

  lemma MiddleIs(files: seq<Option<File>>, moved: seq<Option<File>>)
    requires |files| >= 2 && |moved| == |files| && moved[0] == None
    requires forall i :: 0 < i < |files| - 1 ==> moved[i] == files[i - 1]
    ensures Reopened(moved)[0] == Some(File([], true)) && Reopened(moved)[1..|files| - 1] == files[..|files| - 2]
    ensures Reopened(moved)[|files| - 1] == moved[|files| - 1]
  {
    var n := |files|;
    var middle := Reopened(moved)[1..n - 1];
    forall i | 0 <= i < n - 2 ensures middle[i] == files[i] {
      assert moved[i + 1] == files[i];
    }
    assert middle == files[..n - 2];
  }

  /** With at least one file kept, a rotation loses at most the oldest file, and empties the current one. */
  lemma RotationKeeps(files: seq<Option<File>>)
    requires |files| >= 2
    ensures var r := Reopened(Shifted(files, |files| - 1));
      Kept(r) == if files[|files| - 2].Some? then Kept(files[..|files| - 1]) else Kept(files)
    ensures SuffixOf(Kept(Reopened(Shifted(files, |files| - 1))), Kept(files))
  {
    hide Shifted, Kept, Reopened;
    var n := |files|;
    var r := Reopened(Shifted(files, n - 1));
    RotatedIs(files);
    KeptLast(files);
    KeptLast(files[..n - 1]);
    KeptLast(r[1..]);
    assert r[1..][..n - 2] == files[..n - 2];
    assert files[..n - 1][..n - 2] == files[..n - 2];
    KeptFirst(r);
    assert Lines(r[0]) == [];
    assert Kept(r) == Lines(r[n - 1]) + Kept(files[..n - 2]);
    if files[n - 2].Some? {
      assert Kept(files) == Lines(files[n - 1]) + Kept(r);
    } else {
      assert Kept(files[..n - 1]) == Kept(files[..n - 2]);
    }
  }

  lemma KeptFirst(files: seq<Option<File>>)
    requires files != []
    ensures Kept(files) == Kept(files[1..]) + Lines(files[0])
  {
  }

  // ---- runs ----

  function Run(files: seq<Option<File>>, lines: seq<string>, maxBytes: nat): (r: seq<Option<File>>)
    requires files != [] && files[0].Some?
    ensures |r| == |files| && r[0].Some?
  {
    if lines == [] then files else Wrote(Run(files, lines[..|lines| - 1], maxBytes), lines[|lines| - 1], maxBytes)
  }

  lemma WroteKeeps(files: seq<Option<File>>, line: string, maxBytes: nat)
    requires |files| >= 2 && files[0].Some?
    ensures SuffixOf(Kept(Wrote(files, line, maxBytes)), Kept(files) + [line])
  {
    hide Shifted, Kept, Size, SuffixOf;
    RotationKeeps(files);
    WholeIsSuffix(Kept(files));
    var ready := Ready(files, line, maxBytes);
    var r := Wrote(files, line, maxBytes);
    assert r[1..] == ready[1..];
    KeptFirst(r);
    KeptFirst(ready);
    OneMoreLine(Kept(ready[1..]), Lines(ready[0]), Kept(files), line);
  }

  lemma WholeIsSuffix(whole: seq<string>)
    ensures SuffixOf(whole, whole)
  {
  }

  lemma OneMoreLine(older: seq<string>, current: seq<string>, whole: seq<string>, line: string)
    requires SuffixOf(older + current, whole)
    ensures SuffixOf(older + (current + [line]), whole + [line])
  {
    var part := older + current;
    assert older + (current + [line]) == part + [line];
    assert (whole + [line])[|whole| - |part|..] == whole[|whole| - |part|..] + [line];
  }

  /** Whatever is written, the files hold the latest lines, oldest first, with no gap and no line cut. */
  lemma {:induction false} KeptIsSuffix(files: seq<Option<File>>, lines: seq<string>, maxBytes: nat)
    requires |files| >= 2 && files[0].Some?
    ensures SuffixOf(Kept(Run(files, lines, maxBytes)), Kept(files) + lines)
  {
    hide Wrote, Kept;
    if lines == [] {
      assert Kept(files) + lines == Kept(files);
    } else {
      var init, line := lines[..|lines| - 1], lines[|lines| - 1];
      KeptIsSuffix(files, init, maxBytes);
      var before := Run(files, init, maxBytes);
      WroteKeeps(before, line, maxBytes);
      assert Kept(files) + lines == (Kept(files) + init) + [line];
      LongerSuffix(Kept(Wrote(before, line, maxBytes)), Kept(before), Kept(files) + init, line);
    }
  }

  lemma LongerSuffix(part: seq<string>, middle: seq<string>, whole: seq<string>, line: string)
    requires SuffixOf(part, middle + [line]) && SuffixOf(middle, whole)
    ensures SuffixOf(part, whole + [line])
  {
    assert middle + [line] == (whole + [line])[|whole| - |middle|..];
  }

  /** Within the limit, or one line that is over it by itself. */
  predicate Bounded(lines: seq<string>, maxBytes: nat)
  {
    Size(lines) <= maxBytes || exists i :: 0 <= i < |lines| && Size(lines) == |lines[i]|
  }

  ghost predicate AllBounded(files: seq<Option<File>>, maxBytes: nat)
  {
    forall i :: 0 <= i < |files| && files[i].Some? && files[i].value.rotated ==> Bounded(files[i].value.lines, maxBytes)
  }

  lemma WroteBounded(files: seq<Option<File>>, line: string, maxBytes: nat)
    requires |files| >= 2 && files[0].Some? && AllBounded(files, maxBytes)
    ensures AllBounded(Wrote(files, line, maxBytes), maxBytes)
  {
    hide Shifted, Bounded, Reopened;
    var ready := Ready(files, line, maxBytes);
    RotatedIs(files);
    NothingBounded(maxBytes);
    var n := |files|;
    forall i | 0 <= i < n && ready != files && ready[i].Some? && ready[i].value.rotated
      ensures Bounded(ready[i].value.lines, maxBytes)
    {
      if 0 < i < n - 1 {
        assert ready[i] == ready[1..n - 1][i - 1] == files[i - 1];
      }
    }
    LineBounded(ready[0].value.lines, line, maxBytes);
  }

  lemma NothingBounded(maxBytes: nat)
    ensures Bounded([], maxBytes)
  {
  }

  lemma LineBounded(lines: seq<string>, line: string, maxBytes: nat)
    requires Size(lines) + |line| <= maxBytes || Size(lines) == 0
    ensures Bounded(lines + [line], maxBytes)
  {
    SizeGrows(lines, line);
    var all := lines + [line];
    assert all[|all| - 1] == line;
  }

  /** Every file a rotation started stays within the limit, or holds a single line that is over it. */
  lemma {:induction false} RotatedFilesAreBounded(files: seq<Option<File>>, lines: seq<string>, maxBytes: nat)
    requires |files| >= 2 && files[0].Some? && AllBounded(files, maxBytes)
    ensures AllBounded(Run(files, lines, maxBytes), maxBytes)
  {
    hide Wrote, AllBounded;
    if lines != [] {
      RotatedFilesAreBounded(files, lines[..|lines| - 1], maxBytes);
      WroteBounded(Run(files, lines[..|lines| - 1], maxBytes), lines[|lines| - 1], maxBytes);
    }
  }

  /** The bytes of some lines. */
  function Bytes(lines: seq<string>): nat
  {
    if lines == [] then 0 else |lines[0]| + Bytes(lines[1..])
  }

  lemma {:induction false} SizeIsBytes(lines: seq<string>)
    ensures Size(lines) == Bytes(lines)
  {
    if lines != [] {
      SizeIsBytes(lines[..|lines| - 1]);
      BytesGrow(lines[..|lines| - 1], lines[|lines| - 1]);
      assert lines == lines[..|lines| - 1] + [lines[|lines| - 1]];
    }
  }

  lemma {:induction false} BytesGrow(lines: seq<string>, line: string)
    ensures Bytes(lines + [line]) == Bytes(lines) + |line|
  {
    if lines != [] {
      assert (lines + [line])[1..] == lines[1..] + [line];
      BytesGrow(lines[1..], line);
    }
  }

  /**
   A line that fits behind what is there, or finds nothing there, is appended and nothing else changes.
   Any other line begins a file of its own: every file moves one suffix up, and only the last one kept
   may go, where there is one to take its place.
   */
  lemma RotatesExactly(files: seq<Option<File>>, line: string, maxBytes: nat)
    requires |files| >= 2 && files[0].Some?
    ensures var current, last, r := files[0].value, |files| - 1, Wrote(files, line, maxBytes);
      if Bytes(current.lines) + |line| <= maxBytes || Bytes(current.lines) == 0 then
        r == files[0 := Some(File(current.lines + [line], current.rotated))]
      else
        && r[0] == Some(File([line], true)) && (forall i :: 0 < i < last ==> r[i] == files[i - 1])
        && r[last] == if files[last - 1].Some? then files[last - 1] else files[last]
  {
    hide Size, Shifted, Reopened;
    SizeIsBytes(files[0].value.lines);
    RotatedIs(files);
    var rotated := Reopened(Shifted(files, |files| - 1));
    assert [] + [line] == [line];
    forall i | 0 < i < |files| - 1 ensures rotated[i] == files[i - 1] {
      assert rotated[1..|files| - 1][i - 1] == files[..|files| - 2][i - 1];
    }
  }

  /** Keeping no file, a rotation changes nothing: the current file grows without end. */
  lemma {:induction false} KeepNoneGrows(files: seq<Option<File>>, lines: seq<string>, maxBytes: nat)
    requires |files| == 1 && files[0].Some?
    ensures Run(files, lines, maxBytes)[0].value.lines == files[0].value.lines + lines
  {
    if lines != [] {
      KeepNoneGrows(files, lines[..|lines| - 1], maxBytes);
      assert lines == lines[..|lines| - 1] + [lines[|lines| - 1]];
    }
  }
}
