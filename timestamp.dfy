/** The timestamp stripper `re.sub(r'^\d+:\d+\s*', '', line).strip()`,
    used by both scans of the trimmer and by the line filter. */
module Timestamp {
  import opened Text

  /** The line opens with `\d+:\d` (the least the pattern needs to match). */
  predicate HasTimestamp(line: string)
  {
    exists a :: 0 < a && a + 1 < |line| && line[a] == ':' && IsDigit(line[a + 1]) && DigitsIn(line, 0, a)
  }

  /** Every character of `line[lo..hi]` is an ASCII digit. */
  predicate DigitsIn(line: string, lo: int, hi: int)
    requires 0 <= lo <= hi <= |line|
  {
    forall i :: lo <= i < hi ==> IsDigit(line[i])
  }

  /** Every character of `line[lo..hi]` is whitespace. */
  predicate SpacesIn(line: string, lo: int, hi: int)
    requires 0 <= lo <= hi <= |line|
  {
    forall i :: lo <= i < hi ==> IsSpace(line[i])
  }

  /** Length of the prefix that `^\d+:\d+\s*` matches, 0 when it does not
      match. */
  function TimestampLength(line: string): (k: nat)
    ensures k <= |line|
  {
    var a := DigitSpan(line);
    if a == 0 || a + 1 >= |line| || line[a] != ':' || !IsDigit(line[a + 1]) then 0
    else
      var b := DigitSpan(line[a + 1..]);
      a + 1 + b + SpaceSpan(line[a + 1 + b..])
  }

  /** The pattern matches exactly the lines that open with `\d+:\d`. */
  lemma TimestampDetected(line: string)
    ensures TimestampLength(line) > 0 <==> HasTimestamp(line)
  {
    var a := DigitSpan(line);
    DigitSpanIsRun(line);
    if a == 0 {
      assert !HasTimestamp(line);
    } else if a + 1 >= |line| {
      assert !HasTimestamp(line);
    } else if line[a] != ':' {
      assert !HasTimestamp(line);
    } else if !IsDigit(line[a + 1]) {
      assert !HasTimestamp(line);
    } else {
      assert DigitsIn(line, 0, a);
      var b := DigitSpan(line[a + 1..]);
      assert b > 0;
    }
  }

  /** When the pattern matches, what it removes is one maximal digit run, a
      colon, one maximal digit run and one maximal whitespace run. */
  lemma TimestampShape(line: string)
    requires HasTimestamp(line)
    ensures exists a, b :: 0 < a && a + 1 < b <= TimestampLength(line)
              && DigitsIn(line, 0, a) && line[a] == ':' && DigitsIn(line, a + 1, b)
              && (b == |line| || !IsDigit(line[b]))
              && SpacesIn(line, b, TimestampLength(line))
              && (TimestampLength(line) == |line| || !IsSpace(line[TimestampLength(line)]))
  {
    TimestampDetected(line);
    var a := DigitSpan(line);
    var rest := line[a + 1..];
    var d := DigitSpan(rest);
    var b := a + 1 + d;
    var tail := line[b..];
    var w := SpaceSpan(tail);
    var k := TimestampLength(line);
    DigitSpanIsRun(line);
    DigitSpanIsRun(rest);
    SpaceSpanIsRun(tail);
    assert k == b + w;
    assert forall i :: a + 1 <= i < b ==> line[i] == rest[i - (a + 1)];
    assert forall i :: b <= i < k ==> line[i] == tail[i - b];
    assert DigitsIn(line, 0, a) && DigitsIn(line, a + 1, b) && SpacesIn(line, b, k);
    assert b < |line| ==> line[b] == rest[d];
    assert k < |line| ==> line[k] == tail[w];
  }

  /** `re.sub(r'^\d+:\d+\s*', '', line).strip()`. */
  function StripTimestamp(line: string): string
  {
    Strip(line[TimestampLength(line)..])
  }

  /** The result is a stripped suffix of the line, and a line that does not
      open with `digits:digit` is only stripped. */
  lemma StripTimestampSuffix(line: string)
    ensures !HasTimestamp(line) ==> StripTimestamp(line) == Strip(line)
    ensures exists k :: 0 <= k <= |line| && StripTimestamp(line) == Strip(line[k..])
  {
    TimestampDetected(line);
    var k := TimestampLength(line);
    assert k == 0 ==> line[k..] == line;
  }

  /** Only the first `digits:digits` group goes: the rest of a longer
      clock reading stays. */
  lemma StripOneGroupOnly()
    ensures StripTimestamp("1:02:03 x") == ":03 x"
  {
    var line := "1:02:03 x";
    assert line[1..] == ":02:03 x";
    assert DigitSpan(":02:03 x") == 0;
    assert DigitSpan(line) == 1;
    assert line[2..] == "02:03 x";
    assert "02:03 x"[1..] == "2:03 x";
    assert "2:03 x"[1..] == ":03 x";
    assert DigitSpan(":03 x") == 0;
    assert DigitSpan("2:03 x") == 1;
    assert DigitSpan("02:03 x") == 2;
    assert line[4..] == ":03 x";
    assert SpaceSpan(":03 x") == 0;
    assert TimestampLength(line) == 4;
    var t := ":03 x";
    assert t[0..] == t;
    assert TrailingSpaceSpan(t) == 0;
    assert t[..|t|] == t;
    assert Strip(t) == t;
  }
}
