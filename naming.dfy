/** The lecture number `re.search(r'节次(\d+)', stem).group(1)` and the
    output file name `process_lecture_file` builds from it. */
module Naming {
  import opened Text

  /** `节次` followed by a digit starts at `p`: where the pattern can match. */
  predicate MarkerAt(s: string, p: int)
  {
    0 <= p && p + 2 < |s| && s[p] == '节' && s[p + 1] == '次' && IsDigit(s[p + 2])
  }

  /** The leftmost match position at or after `from`; `|s|` when there is
      none. */
  function FirstMarkerFrom(s: string, from: nat): (p: nat)
    requires from <= |s|
    ensures from <= p <= |s|
    ensures p < |s| ==> MarkerAt(s, p)
    decreases |s| - from
  {
    if from == |s| then |s|
    else if MarkerAt(s, from) then from
    else FirstMarkerFrom(s, from + 1)
  }

  /** The match `FirstMarkerFrom` finds is the leftmost one. */
  lemma {:induction false} FirstMarkerIsLeftmost(s: string, from: nat)
    requires from <= |s|
    ensures forall q :: from <= q < FirstMarkerFrom(s, from) ==> !MarkerAt(s, q)
    decreases |s| - from
  {
    if from < |s| && !MarkerAt(s, from) {
      FirstMarkerIsLeftmost(s, from + 1);
    }
  }

  /** `match.group(1)`: the whole digit run after the leftmost `节次`
      that a digit follows, leading zeros included; `None` when the stem
      has no match. */
  function LectureNumber(stem: string): Option<string>
  {
    var p := FirstMarkerFrom(stem, 0);
    if p < |stem| then
      var digits := stem[p + 2..];
      Some(digits[..DigitSpan(digits)])
    else None
  }

  /** The search fails exactly when no position of the stem matches. */
  lemma NoMarkerNoNumber(stem: string)
    ensures LectureNumber(stem).None? <==> forall p :: 0 <= p < |stem| ==> !MarkerAt(stem, p)
  {
    FirstMarkerIsLeftmost(stem, 0);
  }

  /** At the leftmost match the number is the maximal, non-empty digit run
      that follows `节次`. */
  lemma NumberAtLeftmostMarker(stem: string, p: int)
    requires MarkerAt(stem, p)
    requires forall q :: 0 <= q < p ==> !MarkerAt(stem, q)
    ensures LectureNumber(stem).Some?
    ensures var n := LectureNumber(stem).value;
      n != [] && AllDigits(n) && p + 2 + |n| <= |stem| && stem[p + 2..p + 2 + |n|] == n
      && (p + 2 + |n| == |stem| || !IsDigit(stem[p + 2 + |n|]))
  {
    FirstMarkerIsLeftmost(stem, 0);
    var f := FirstMarkerFrom(stem, 0);
    assert f == p;
    var digits := stem[p + 2..];
    var k := DigitSpan(digits);
    DigitSpanIsRun(digits);
    assert k > 0 by {
      assert IsDigit(digits[0]);
    }
    assert digits[..k] == stem[p + 2..p + 2 + k];
    assert p + 2 + k < |stem| ==> stem[p + 2 + k] == digits[k];
  }

  /** Leading zeros stay: `节次01` yields `01`. */
  lemma LeadingZerosKept()
    ensures LectureNumber("节次01_课堂语音转文字记录") == Some("01")
  {
    var stem := "节次01_课堂语音转文字记录";
    assert MarkerAt(stem, 0);
    var digits := stem[2..];
    assert digits == "01_课堂语音转文字记录";
    assert digits[1..] == "1_课堂语音转文字记录";
    assert digits[1..][1..] == "_课堂语音转文字记录";
    assert DigitSpan(digits[1..][1..]) == 0;
    assert DigitSpan(digits[1..]) == 1;
    assert DigitSpan(digits) == 2;
    assert digits[..2] == "01";
  }

  /** The stem of the output file. */
  function OutputName(stem: string): string
  {
    match LectureNumber(stem)
    case Some(n) => "节次" + n + "_笔记.txt"
    case None => stem + "_笔记.txt"
  }

  /** No position from `from` on matching means the scan finds none. */
  lemma {:induction false} NoMarkerFrom(s: string, from: nat)
    requires from <= |s|
    requires forall q :: from <= q < |s| ==> !MarkerAt(s, q)
    ensures FirstMarkerFrom(s, from) == |s|
    decreases |s| - from
  {
    if from < |s| {
      NoMarkerFrom(s, from + 1);
    }
  }

  /** The output name carries the same lecture number as the input stem:
      searching it for `节次(\d+)` gives back what the stem gave. */
  lemma OutputNameKeepsNumber(stem: string)
    ensures LectureNumber(OutputName(stem)) == LectureNumber(stem)
  {
    var suffix := "_笔记.txt";
    match LectureNumber(stem)
    case Some(n) =>
      FirstMarkerIsLeftmost(stem, 0);
      var p := FirstMarkerFrom(stem, 0);
      NumberAtLeftmostMarker(stem, p);
      var name := "节次" + n + suffix;
      assert MarkerAt(name, 0);
      assert name[2..] == n + suffix;
      DigitSpanOfDigits(n, suffix);
      assert (n + suffix)[..|n|] == n;
    case None =>
      NoMarkerNoNumber(stem);
      var name := stem + suffix;
      forall q | 0 <= q < |name| ensures !MarkerAt(name, q) {
        if q + 2 < |stem| {
          assert name[q] == stem[q] && name[q + 1] == stem[q + 1] && name[q + 2] == stem[q + 2];
          assert !MarkerAt(stem, q);
        } else if q + 2 == |stem| {
          assert name[q + 2] == '_';
        } else if q + 1 == |stem| {
          assert name[q + 1] == '_';
        } else {
          assert name[q] == suffix[q - |stem|];
        }
      }
      NoMarkerFrom(name, 0);
  }
}
