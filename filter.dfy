/** The per-line filter of `process_lecture_file`: every line of the
    trimmed window loses its timestamp, is cleaned, and is kept when what
    is left is non-empty and not noise. */
module Filter {
  import opened Text
  import opened Classifier
  import opened Normalizer
  import opened Timestamp

  /** What the filter makes of one window line: the cleaned text when the
      line is kept. */
  function CleanedLine(line: string): Option<string>
  {
    var content := StripTimestamp(line);
    if content == [] then None
    else
      var cleaned := CleanText(content);
      if cleaned != [] && !IsNoiseLine(cleaned) then Some(cleaned) else None
  }

  /** A kept line is `clean_text` of its timestamp-stripped source line and
      is not noise, so it has at least ten characters and no noise phrase;
      being normalised, it holds no line feed. */
  lemma KeptLineShape(line: string)
    requires CleanedLine(line).Some?
    ensures CleanedLine(line).value == CleanText(StripTimestamp(line))
    ensures !IsNoiseLine(CleanedLine(line).value)
    ensures |CleanedLine(line).value| >= 10
    ensures !HasNoiseKeyword(CleanedLine(line).value)
    ensures IsNormalized(CleanedLine(line).value)
    ensures NoLineBreak(CleanedLine(line).value)
  {
    var c := CleanedLine(line).value;
    assert IsSpace('\n');
    forall i | 0 <= i < |c| ensures c[i] != '\n' {
      assert IsSpace(c[i]) ==> c[i] == ' ';
    }
  }

  /** The filter's verdict on every line of the window, built line by line. */
  function Outcomes(window: seq<string>): (o: seq<Option<string>>)
    ensures |o| == |window|
  {
    if window == [] then []
    else Outcomes(window[..|window| - 1]) + [CleanedLine(window[|window| - 1])]
  }

  /** The verdict recorded for line `i` is the filter applied to it. */
  lemma {:induction false} OutcomeAt(window: seq<string>, i: int)
    requires 0 <= i < |window|
    ensures Outcomes(window)[i] == CleanedLine(window[i])
    decreases |window|
  {
    if i < |window| - 1 {
      var init := window[..|window| - 1];
      OutcomeAt(init, i);
      assert init[i] == window[i];
    }
  }

  /** The one-element list of a present value, the empty list otherwise. */
  function Listed(o: Option<string>): seq<string>
  {
    if o.Some? then [o.value] else []
  }

  /** The present values, in order. */
  function Somes(o: seq<Option<string>>): (r: seq<string>)
    ensures |r| <= |o|
  {
    if o == [] then [] else Somes(o[..|o| - 1]) + Listed(o[|o| - 1])
  }

  /** The positions of the present values, in order. */
  function SomeIndices(o: seq<Option<string>>): (r: seq<nat>)
    ensures |r| == |Somes(o)|
    ensures forall j :: 0 <= j < |r| ==> r[j] < |o|
  {
    if o == [] then []
    else SomeIndices(o[..|o| - 1]) + (if o[|o| - 1].Some? then [|o| - 1] else [])
  }

  /** One more verdict adds its value, if any, at the end. */
  lemma SomesSnoc(o: seq<Option<string>>, i: int)
    requires 0 <= i < |o|
    ensures Somes(o[..i + 1]) == Somes(o[..i]) + Listed(o[i])
  {
    assert o[..i + 1][..i] == o[..i];
  }

  /** `SomeIndices` lists, in increasing order, exactly the positions that
      hold a value, and `Somes` holds those values. */
  lemma {:induction false} SomeIndicesExact(o: seq<Option<string>>)
    ensures forall j :: 0 <= j < |SomeIndices(o)| ==> o[SomeIndices(o)[j]] == Some(Somes(o)[j])
    ensures forall j, k :: 0 <= j < k < |SomeIndices(o)| ==> SomeIndices(o)[j] < SomeIndices(o)[k]
    ensures forall i :: 0 <= i < |o| && o[i].Some? ==> i in SomeIndices(o)
    decreases |o|
  {
    if o != [] {
      var init := o[..|o| - 1];
      SomeIndicesExact(init);
      assert forall i :: 0 <= i < |init| ==> init[i] == o[i];
    }
  }

  /** `processed_lines` once the loop has run over `window`. */
  function KeptLines(window: seq<string>): seq<string>
  {
    Somes(Outcomes(window))
  }

  /** The window position each kept line comes from. */
  function KeptSources(window: seq<string>): seq<nat>
  {
    SomeIndices(Outcomes(window))
  }

  /** The body of the loop at process_lectures.py:160-166 for line `i`:
      strip the timestamp, clean what is left, and keep it unless it is
      empty or noise. It spells out `CleanedLine` step by step and is
      checked against it. */
  method FilterOne(window: seq<string>, i: int) returns (kept: Option<string>)
    requires 0 <= i < |window|
    ensures kept == Outcomes(window)[i]
  {
    OutcomeAt(window, i);
    kept := None;
    var content := StripTimestamp(window[i]);
    if content != [] {
      var cleaned := CleanText(content);
      if cleaned != [] && !IsNoiseLine(cleaned) {
        kept := Some(cleaned);
      }
    }
  }

  /** The loop of `process_lecture_file` that builds `processed_lines`. */
  method FilterLines(window: seq<string>) returns (processed: seq<string>)
    ensures processed == KeptLines(window)
  {
    ghost var o := Outcomes(window);
    processed := [];
    for i := 0 to |window|
      invariant processed == Somes(o[..i])
    {
      SomesSnoc(o, i);
      var kept := FilterOne(window, i);
      if kept.Some? {
        processed := processed + [kept.value];
      }
    }
    assert o[..|window|] == o;
  }

  /** The filter never adds a line, and keeps lines in window order. */
  lemma KeptLinesInOrder(window: seq<string>)
    ensures |KeptLines(window)| <= |window|
    ensures |KeptSources(window)| == |KeptLines(window)|
    ensures forall j :: 0 <= j < |KeptSources(window)| ==> KeptSources(window)[j] < |window|
    ensures forall j, k :: 0 <= j < k < |KeptSources(window)| ==> KeptSources(window)[j] < KeptSources(window)[k]
  {
    SomeIndicesExact(Outcomes(window));
  }

  /** Each kept line is what the filter makes of its source line. */
  lemma KeptLinesFromSources(window: seq<string>)
    ensures forall j :: 0 <= j < |KeptSources(window)| ==>
              CleanedLine(window[KeptSources(window)[j]]) == Some(KeptLines(window)[j])
  {
    var o := Outcomes(window);
    SomeIndicesExact(o);
    forall j | 0 <= j < |KeptSources(window)|
      ensures CleanedLine(window[KeptSources(window)[j]]) == Some(KeptLines(window)[j])
    {
      OutcomeAt(window, KeptSources(window)[j]);
    }
  }

  /** Every window line the filter keeps is the source of a kept line. */
  lemma NoKeptLineLost(window: seq<string>)
    ensures forall i :: 0 <= i < |window| && CleanedLine(window[i]).Some? ==> i in KeptSources(window)
  {
    var o := Outcomes(window);
    SomeIndicesExact(o);
    forall i | 0 <= i < |window| && CleanedLine(window[i]).Some?
      ensures i in KeptSources(window)
    {
      OutcomeAt(window, i);
    }
  }

  /** Every kept line is `clean_text` of its stripped source line, is not
      noise, has at least ten characters, holds no noise phrase, is
      normalised and holds no line feed. */
  lemma KeptLinesClean(window: seq<string>)
    ensures forall j :: 0 <= j < |KeptLines(window)| ==>
              KeptLines(window)[j] == CleanText(StripTimestamp(window[KeptSources(window)[j]]))
    ensures forall j :: 0 <= j < |KeptLines(window)| ==>
              !IsNoiseLine(KeptLines(window)[j]) && |KeptLines(window)[j]| >= 10
              && !HasNoiseKeyword(KeptLines(window)[j])
              && IsNormalized(KeptLines(window)[j]) && NoLineBreak(KeptLines(window)[j])
  {
    KeptLinesFromSources(window);
    forall j | 0 <= j < |KeptLines(window)|
      ensures KeptLines(window)[j] == CleanText(StripTimestamp(window[KeptSources(window)[j]]))
      ensures !IsNoiseLine(KeptLines(window)[j]) && |KeptLines(window)[j]| >= 10
              && !HasNoiseKeyword(KeptLines(window)[j])
              && IsNormalized(KeptLines(window)[j]) && NoLineBreak(KeptLines(window)[j])
    {
      KeptLineShape(window[KeptSources(window)[j]]);
    }
  }
}
