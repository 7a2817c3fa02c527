/** The transcript trimmer `extract_content`: a forward scan for the first
    content line, a backward scan for the last, and the slice between. */
module Trimmer {
  import opened Text
  import opened Lexicon
  import opened Classifier
  import opened Timestamp

  /** The first half of the content test, after which the forward scan
      binds `course_keywords`: the line is non-empty and not noise. */
  predicate IsNoiseFree(content: string)
  {
    content != [] && !IsNoiseLine(content)
  }

  /** The test both scans apply to a line once its timestamp is gone: it is
      non-empty, not noise, and names a course topic or runs past twenty
      characters. */
  predicate IsContentText(content: string)
  {
    IsNoiseFree(content)
    && (ContainsAny(content, CourseKeywords) || |content| > 20)
  }

  predicate IsContentLine(line: string)
  {
    IsContentText(StripTimestamp(line))
  }

  predicate HasContent(lines: seq<string>)
  {
    exists i {:trigger IsContentLine(lines[i])} :: 0 <= i < |lines| && IsContentLine(lines[i])
  }

  /** The verdict of the content test on each line, built line by line so
      that the verifier looks at one line's verdict only when asked to. */
  function Verdicts(lines: seq<string>): (v: seq<bool>)
    ensures |v| == |lines|
  {
    if lines == [] then []
    else Verdicts(lines[..|lines| - 1]) + [IsContentLine(lines[|lines| - 1])]
  }

  /** The verdict recorded for line `i` is the test both scans apply. */
  lemma {:induction false} VerdictAt(lines: seq<string>, i: int)
    requires 0 <= i < |lines|
    ensures Verdicts(lines)[i] == IsContentLine(lines[i])
    ensures Verdicts(lines)[i] == IsContentText(StripTimestamp(lines[i]))
    decreases |lines|
  {
    if i < |lines| - 1 {
      var init := lines[..|lines| - 1];
      VerdictAt(init, i);
      assert init[i] == lines[i];
    }
  }

  /** Index of the first `true` at or after `from`; `|v|` when there is
      none. */
  function FirstTrueFrom(v: seq<bool>, from: nat): (r: nat)
    requires from <= |v|
    ensures from <= r <= |v|
    ensures r < |v| ==> v[r]
    ensures forall i :: from <= i < r ==> !v[i]
    decreases |v| - from
  {
    if from == |v| then |v|
    else if v[from] then from
    else FirstTrueFrom(v, from + 1)
  }

  /** One past the last `true` before `upto`; 0 when there is none. */
  function LastTrueBefore(v: seq<bool>, upto: nat): (r: nat)
    requires upto <= |v|
    ensures r <= upto
    ensures r > 0 ==> v[r - 1]
    ensures forall i :: r <= i < upto ==> !v[i]
  {
    if upto == 0 then 0
    else if v[upto - 1] then upto
    else LastTrueBefore(v, upto - 1)
  }

  /** Where the window over a verdict sequence opens: the first `true`, or
      0 when there is none. */
  function Start(v: seq<bool>): (r: nat)
    ensures r <= |v|
    ensures v != [] ==> r < |v|
  {
    var f := FirstTrueFrom(v, 0);
    if f < |v| then f else 0
  }

  /** Where the window over a verdict sequence closes: one past the last
      `true`, or `|v|` when there is none. */
  function End(v: seq<bool>): (r: nat)
    ensures r <= |v|
    ensures v != [] ==> r > 0
  {
    var e := LastTrueBefore(v, |v|);
    if e > 0 then e else |v|
  }

  /** The window bounds are ordered, and the window is empty only over an
      empty sequence. */
  lemma StartBeforeEnd(v: seq<bool>)
    ensures Start(v) <= End(v)
    ensures v != [] ==> Start(v) < End(v)
  {
    var f := FirstTrueFrom(v, 0);
    var e := LastTrueBefore(v, |v|);
    assert f < |v| <==> e > 0;
    if f < |v| {
      assert f < e;
    }
  }

  /** Over a sequence with a `true` at `i`, the window opens at the first
      `true`, closes after the last one, and holds `i`. */
  lemma WindowAroundTrue(v: seq<bool>, i: int)
    requires 0 <= i < |v| && v[i]
    ensures Start(v) <= i < End(v)
    ensures v[Start(v)] && v[End(v) - 1]
    ensures forall j :: 0 <= j < Start(v) ==> !v[j]
    ensures forall j :: End(v) <= j < |v| ==> !v[j]
  {
  }

  /** Whatever the sequence, no `true` lies outside the window. */
  lemma OutsideWindowFalse(v: seq<bool>)
    ensures forall j :: 0 <= j < Start(v) ==> !v[j]
    ensures forall j :: End(v) <= j < |v| ==> !v[j]
  {
  }

  /** Over a sequence with no `true`, the window is the whole sequence. */
  lemma WindowOfAllFalse(v: seq<bool>)
    requires forall j :: 0 <= j < |v| ==> !v[j]
    ensures Start(v) == 0 && End(v) == |v|
  {
  }

  /** A `true` at `i` with none before it is where the window opens; with
      none at all, the window opens at 0. */
  lemma StartIs(v: seq<bool>, i: int)
    requires 0 <= i <= |v|
    requires forall j :: 0 <= j < i ==> !v[j]
    requires i < |v| ==> v[i]
    ensures Start(v) == if i < |v| then i else 0
  {
    if i < |v| {
      WindowAroundTrue(v, i);
    } else {
      WindowOfAllFalse(v);
    }
  }

  /** A `true` at `k - 1` with none after it is where the window closes;
      with none at all, the window closes at `|v|`. */
  lemma EndIs(v: seq<bool>, k: int)
    requires 0 <= k <= |v|
    requires forall j :: k <= j < |v| ==> !v[j]
    requires k > 0 ==> v[k - 1]
    ensures End(v) == if k > 0 then k else |v|
  {
    if k > 0 {
      WindowAroundTrue(v, k - 1);
    } else {
      WindowOfAllFalse(v);
    }
  }

  /** `start_idx` after the forward scan: it keeps its initial 0 when no
      line passes. */
  function WindowStart(lines: seq<string>): nat
  {
    Start(Verdicts(lines))
  }

  /** `end_idx` after the backward scan: it keeps its initial `len(lines)`
      when no line passes. */
  function WindowEnd(lines: seq<string>): nat
  {
    End(Verdicts(lines))
  }

  /** What `extract_content` returns. */
  function ContentWindow(lines: seq<string>): seq<string>
  {
    StartBeforeEnd(Verdicts(lines));
    lines[WindowStart(lines)..WindowEnd(lines)]
  }

  /** The body of either scan (process_lectures.py:123-127 and 134-137)
      for line `i`: strip the timestamp, then apply the content test. It
      computes the verdict `Verdicts` records for that line. */
  method CheckLine(lines: seq<string>, i: int) returns (passes: bool)
    requires 0 <= i < |lines|
    ensures passes == Verdicts(lines)[i]
  {
    var content := StripTimestamp(lines[i]);
    VerdictAt(lines, i);
    passes := IsContentText(content);
  }

  /** The forward scan of `extract_content`: the index of the first line
      that passes, 0 when none does. */
  method ScanForward(lines: seq<string>) returns (startIdx: nat)
    ensures startIdx == WindowStart(lines)
  {
    ghost var v := Verdicts(lines);
    startIdx := 0;
    var i := 0;
    while i < |lines|
      invariant 0 <= i <= |lines|
      invariant forall j :: 0 <= j < i ==> !v[j]
    {
      var passes := CheckLine(lines, i);
      if passes {
        startIdx := i;
        break;
      }
      i := i + 1;
    }
    assert i < |lines| ==> v[i] && startIdx == i;
    StartIs(v, i);
  }

  /** The backward scan of `extract_content`: one past the last line that
      passes, `len(lines)` when none does. */
  method ScanBackward(lines: seq<string>) returns (endIdx: nat)
    ensures endIdx == WindowEnd(lines)
  {
    ghost var v := Verdicts(lines);
    endIdx := |lines|;
    var k := |lines|;
    while k > 0
      invariant 0 <= k <= |lines|
      invariant forall j :: k <= j < |lines| ==> !v[j]
    {
      var passes := CheckLine(lines, k - 1);
      if passes {
        endIdx := k;
        break;
      }
      k := k - 1;
    }
    assert k > 0 ==> v[k - 1] && endIdx == k;
    EndIs(v, k);
  }

  /** `extract_content`: the two scans, then the slice. */
  method ExtractContent(lines: seq<string>) returns (window: seq<string>)
    ensures window == ContentWindow(lines)
  {
    if lines == [] {
      return [];
    }
    var startIdx := ScanForward(lines);
    var endIdx := ScanBackward(lines);
    StartBeforeEnd(Verdicts(lines));
    window := lines[startIdx..endIdx];
  }

  /** An empty transcript gives an empty window; any other gives a
      non-empty, contiguous slice of the untouched input lines. */
  lemma WindowIsSlice(lines: seq<string>)
    ensures lines == [] ==> ContentWindow(lines) == []
    ensures lines != [] ==> 0 <= WindowStart(lines) < WindowEnd(lines) <= |lines|
  {
    StartBeforeEnd(Verdicts(lines));
  }

  /** When line `k` passes the content test, the window opens at or before
      it, on a line that passes too. */
  lemma WindowOpensOnContent(lines: seq<string>, k: int)
    requires 0 <= k < |lines| && IsContentLine(lines[k])
    ensures WindowStart(lines) <= k
    ensures IsContentLine(lines[WindowStart(lines)])
  {
    var v := Verdicts(lines);
    VerdictAt(lines, k);
    WindowAroundTrue(v, k);
    VerdictAt(lines, Start(v));
  }

  /** When line `k` passes the content test, the window closes after it,
      just after a line that passes too. */
  lemma WindowClosesOnContent(lines: seq<string>, k: int)
    requires 0 <= k < |lines| && IsContentLine(lines[k])
    ensures k < WindowEnd(lines) <= |lines|
    ensures IsContentLine(lines[WindowEnd(lines) - 1])
  {
    var v := Verdicts(lines);
    VerdictAt(lines, k);
    WindowAroundTrue(v, k);
    VerdictAt(lines, End(v) - 1);
  }

  /** No line outside the window passes the content test: the window runs
      from the first passing line to the last. */
  lemma NothingPassesOutside(lines: seq<string>)
    ensures forall i {:trigger IsContentLine(lines[i])} :: 0 <= i < WindowStart(lines) ==> !IsContentLine(lines[i])
    ensures forall i {:trigger IsContentLine(lines[i])} :: WindowEnd(lines) <= i < |lines| ==> !IsContentLine(lines[i])
  {
    var v := Verdicts(lines);
    OutsideWindowFalse(v);
    forall j | 0 <= j < Start(v) ensures !IsContentLine(lines[j]) {
      VerdictAt(lines, j);
    }
    forall j | End(v) <= j < |lines| ensures !IsContentLine(lines[j]) {
      VerdictAt(lines, j);
    }
  }

  /** When no line passes, the whole transcript is returned. */
  lemma NoContentKeepsAll(lines: seq<string>)
    requires !HasContent(lines)
    ensures ContentWindow(lines) == lines
  {
    var v := Verdicts(lines);
    forall j | 0 <= j < |v| ensures !v[j] {
      VerdictAt(lines, j);
    }
    WindowOfAllFalse(v);
  }

  /** The last index the forward scan looks at: where it breaks, or the
      last line when it never does. */
  function ForwardReach(lines: seq<string>): int
  {
    if HasContent(lines) then WindowStart(lines) else |lines| - 1
  }

  /** `course_keywords` is always bound before the backward scan reads it:
      a line that reaches the keyword test of the backward scan is
      non-empty and not noise, and then the forward scan met such a line
      by the time it stopped and bound the list there. */
  lemma CourseKeywordsBoundBeforeUse(lines: seq<string>, k: int)
    requires 0 <= k < |lines| && IsNoiseFree(StripTimestamp(lines[k]))
    ensures exists j :: 0 <= j <= ForwardReach(lines) && IsNoiseFree(StripTimestamp(lines[j]))
  {
    if HasContent(lines) {
      var i :| 0 <= i < |lines| && IsContentLine(lines[i]);
      WindowOpensOnContent(lines, i);
      var j := WindowStart(lines);
      assert IsNoiseFree(StripTimestamp(lines[j]));
    } else {
      assert IsNoiseFree(StripTimestamp(lines[k]));
    }
  }
}
