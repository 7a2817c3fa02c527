/** The text normaliser: the correction table applied as a left fold of
    `str.replace`, then every whitespace run collapsed to one space, then
    the ends stripped. */
module Normalizer {
  import opened Text
  import opened Lexicon

  /** Every key of the table is non-empty, so `str.replace` over it is the
      left-to-right scan of `ReplaceAll`. */
  predicate KeysNonEmpty(table: seq<(string, string)>)
  {
    forall i :: 0 <= i < |table| ==> |table[i].0| > 0
  }

  lemma CorrectionKeysNonEmpty()
    ensures KeysNonEmpty(Corrections)
  {
  }

  /** `for wrong, correct in table: text = text.replace(wrong, correct)`. */
  function ApplyCorrections(s: string, table: seq<(string, string)>): string
    requires KeysNonEmpty(table)
    decreases |table|
  {
    if table == [] then s
    else ApplyCorrections(ReplaceAll(s, table[0].0, table[0].1), table[1..])
  }

  /** Corrections apply in declaration order: a table split in two is the
      first part applied, then the second. */
  lemma {:induction false} ApplyCorrectionsInOrder(s: string, first: seq<(string, string)>, second: seq<(string, string)>)
    requires KeysNonEmpty(first) && KeysNonEmpty(second)
    ensures KeysNonEmpty(first + second)
    ensures ApplyCorrections(s, first + second) == ApplyCorrections(ApplyCorrections(s, first), second)
    decreases |first|
  {
    if first != [] {
      assert (first + second)[0] == first[0];
      assert (first + second)[1..] == first[1..] + second;
      ApplyCorrectionsInOrder(ReplaceAll(s, first[0].0, first[0].1), first[1..], second);
    } else {
      assert first + second == second;
    }
  }

  /** A string that contains no key of the table is left unchanged. */
  lemma {:induction false} ApplyCorrectionsAbsent(s: string, table: seq<(string, string)>)
    requires KeysNonEmpty(table)
    requires forall i :: 0 <= i < |table| ==> !Contains(s, table[i].0)
    ensures ApplyCorrections(s, table) == s
    decreases |table|
  {
    if table != [] {
      ReplaceAllAbsent(s, table[0].0, table[0].1);
      assert forall i :: 0 <= i < |table[1..]| ==> table[1..][i] == table[i + 1];
      ApplyCorrectionsAbsent(s, table[1..]);
    }
  }

  /** `re.sub(r'\s+', ' ', s)`: every maximal whitespace run becomes one
      space. What it yields is stated by `CollapseShape` and
      `CollapseSeparates`, kept out of the contract so that callers do not
      pay for them. */
  function CollapseWhitespace(s: string): (r: string)
    ensures |r| <= |s|
    decreases |s|
  {
    if s == [] then []
    else if IsSpace(s[0]) then
      var n := SpaceSpan(s);
      [' '] + CollapseWhitespace(s[n..])
    else [s[0]] + CollapseWhitespace(s[1..])
  }

  /** No whitespace but `' '`, and never two whitespace characters in a
      row. */
  predicate SingleSpaced(r: string)
  {
    && (forall i :: 0 <= i < |r| && IsSpace(r[i]) ==> r[i] == ' ')
    && (forall i :: 0 <= i < |r| - 1 ==> !IsSpace(r[i]) || !IsSpace(r[i + 1]))
  }

  /** A character in front of a single-spaced string keeps it single-spaced
      when it is a space the string does not open with, or no whitespace. */
  lemma SingleSpacedCons(x: char, c: string)
    requires SingleSpaced(c)
    requires IsSpace(x) ==> x == ' ' && (c == [] || !IsSpace(c[0]))
    ensures SingleSpaced([x] + c)
  {
    var r := [x] + c;
    assert forall i :: 1 <= i < |r| ==> r[i] == c[i - 1];
  }

  /** The collapse is single-spaced, is empty only for the empty string,
      and keeps whether each end is whitespace. */
  lemma {:induction false} CollapseShape(s: string)
    ensures |CollapseWhitespace(s)| == 0 <==> |s| == 0
    ensures |s| > 0 ==> (IsSpace(CollapseWhitespace(s)[0]) <==> IsSpace(s[0]))
    ensures |s| > 0 ==> (IsSpace(CollapseWhitespace(s)[|CollapseWhitespace(s)| - 1]) <==> IsSpace(s[|s| - 1]))
    ensures SingleSpaced(CollapseWhitespace(s))
    decreases |s|
  {
    if s != [] {
      if IsSpace(s[0]) {
        var n := SpaceSpan(s);
        SpaceSpanIsRun(s);
        var t := s[n..];
        assert s == s[..n] + t;
        CollapseRun(s[..n], t);
        CollapseShape(t);
        SingleSpacedCons(' ', CollapseWhitespace(t));
        if t == [] {
          assert IsSpace(s[|s| - 1]);
        } else {
          assert t[|t| - 1] == s[|s| - 1];
        }
      } else {
        var t := s[1..];
        ConsSplit(s);
        CollapseKeepsChar(s[0], t);
        CollapseShape(t);
        SingleSpacedCons(s[0], CollapseWhitespace(t));
        if t != [] {
          assert t[|t| - 1] == s[|s| - 1];
        }
      }
    }
  }

  /** Collapsing whitespace keeps every other character, in order. */
  lemma {:induction false} CollapseKeepsText(s: string)
    ensures NonSpace(CollapseWhitespace(s)) == NonSpace(s)
    decreases |s|
  {
    if s != [] {
      if IsSpace(s[0]) {
        var n := SpaceSpan(s);
        SpaceSpanIsRun(s);
        CollapseKeepsText(s[n..]);
        NonSpaceAppend([' '], CollapseWhitespace(s[n..]));
        assert s == s[..n] + s[n..];
        NonSpaceAppend(s[..n], s[n..]);
        NonSpaceOfSpaces(s[..n]);
      } else {
        CollapseKeepsText(s[1..]);
        NonSpaceAppend([s[0]], CollapseWhitespace(s[1..]));
      }
    }
  }

  /** A whitespace run ends where `a` ends with a non-whitespace
      character, so the collapse handles `a` and what follows it apart. */
  lemma {:induction false} CollapseAfterText(a: string, b: string)
    requires a == [] || !IsSpace(a[|a| - 1])
    ensures CollapseWhitespace(a + b) == CollapseWhitespace(a) + CollapseWhitespace(b)
    decreases |a|
  {
    if a == [] {
      assert a + b == b;
    } else {
      var head, rest: string;
      if IsSpace(a[0]) {
        var n := SpaceSpan(a);
        SpaceSpanIsRun(a);
        head, rest := a[..n], a[n..];
        assert a == head + rest;
        CollapseAfterText(rest, b);
        AppendAssoc(head, rest, b);
        assert (rest + b)[0] == rest[0];
        CollapseRun(head, rest);
        CollapseRun(head, rest + b);
        AppendAssoc(" ", CollapseWhitespace(rest), CollapseWhitespace(b));
      } else {
        head, rest := [a[0]], a[1..];
        ConsSplit(a);
        CollapseAfterText(rest, b);
        AppendAssoc(head, rest, b);
        CollapseKeepsChar(a[0], rest);
        CollapseKeepsChar(a[0], rest + b);
        AppendAssoc(head, CollapseWhitespace(rest), CollapseWhitespace(b));
      }
    }
  }

  /** A whole run of whitespace becomes exactly one space. */
  lemma {:induction false} CollapseRun(w: string, b: string)
    requires w != [] && AllSpace(w)
    requires b == [] || !IsSpace(b[0])
    ensures CollapseWhitespace(w + b) == " " + CollapseWhitespace(b)
  {
    SpaceSpanOfRun(w, b);
    assert (w + b)[|w|..] == b;
  }

  /** The opening whitespace run of `w + b` is all of `w`. */
  lemma {:induction false} SpaceSpanOfRun(w: string, b: string)
    requires AllSpace(w)
    requires b == [] || !IsSpace(b[0])
    ensures SpaceSpan(w + b) == |w|
    decreases |w|
  {
    if w == [] {
      assert w + b == b;
    } else {
      assert (w + b)[1..] == w[1..] + b;
      SpaceSpanOfRun(w[1..], b);
    }
  }

  /** `re.sub(r'\s+', ' ', ...)` turns each whitespace run between two
      pieces of text into exactly one space, and collapses the pieces on
      either side on their own. */
  lemma CollapseSeparates(a: string, w: string, b: string)
    requires a == [] || !IsSpace(a[|a| - 1])
    requires w != [] && AllSpace(w)
    requires b == [] || !IsSpace(b[0])
    ensures CollapseWhitespace(a + w + b) == CollapseWhitespace(a) + " " + CollapseWhitespace(b)
  {
    AppendAssoc(a, w, b);
    CollapseAfterText(a, w + b);
    CollapseRun(w, b);
    AppendAssoc(CollapseWhitespace(a), " ", CollapseWhitespace(b));
  }

  /** Two spaces between words become one: `"a  b"` collapses to `"a b"`. */
  lemma CollapseOneSpace()
    ensures CollapseWhitespace("a  b") == "a b"
  {
    assert "a  b" == "a" + "  " + "b";
    CollapseSeparates("a", "  ", "b");
    CollapseKeepsChar('a', []);
    CollapseKeepsChar('b', []);
    assert "a" == ['a'] + [] && "b" == ['b'] + [];
  }

  /** A character that is not whitespace is kept as it is. */
  lemma CollapseKeepsChar(c: char, b: string)
    requires !IsSpace(c)
    ensures CollapseWhitespace([c] + b) == [c] + CollapseWhitespace(b)
  {
    assert ([c] + b)[1..] == b;
  }

  /** The shape `clean_text` promises: no whitespace at either end, no two
      whitespace characters in a row, and no whitespace but `' '`. */
  predicate IsNormalized(r: string)
  {
    && (|r| == 0 || (!IsSpace(r[0]) && !IsSpace(r[|r| - 1])))
    && SingleSpaced(r)
  }

  /** Stripping a collapsed string keeps it collapsed. */
  lemma StripKeepsCollapsed(c: string)
    requires SingleSpaced(c)
    ensures IsNormalized(Strip(c))
  {
    var r := Strip(c);
    StripIsSlice(c);
    var i, j :| 0 <= i <= j <= |c| && r == c[i..j];
    assert forall k :: 0 <= k < |r| ==> r[k] == c[i + k];
  }

  /** The collapse followed by `str.strip()`. */
  function NormalizeWhitespace(s: string): (r: string)
    ensures IsNormalized(r)
    ensures |r| <= |s|
  {
    CollapseShape(s);
    StripKeepsCollapsed(CollapseWhitespace(s));
    Strip(CollapseWhitespace(s))
  }

  /** Normalising keeps the non-whitespace text, in order. */
  lemma NormalizeKeepsText(s: string)
    ensures NonSpace(NormalizeWhitespace(s)) == NonSpace(s)
  {
    CollapseKeepsText(s);
    StripKeepsText(CollapseWhitespace(s));
  }

  /** Collapse then strip turns each whitespace run between two pieces of
      text into exactly one space: `clean_text` never glues words together
      nor drops the gap between them. */
  lemma NormalizeSeparates(a: string, w: string, b: string)
    requires a != [] && !IsSpace(a[|a| - 1])
    requires w != [] && AllSpace(w)
    requires b != [] && !IsSpace(b[0])
    ensures NormalizeWhitespace(a + w + b) == NormalizeWhitespace(a) + " " + NormalizeWhitespace(b)
  {
    CollapseSeparates(a, w, b);
    CollapseShape(a);
    CollapseShape(b);
    StripAround(CollapseWhitespace(a), " ", CollapseWhitespace(b));
  }

  /** A string already collapsed is left alone by the collapse. */
  lemma {:induction false} CollapseFixpoint(s: string)
    requires SingleSpaced(s)
    ensures CollapseWhitespace(s) == s
    decreases |s|
  {
    if s != [] {
      if IsSpace(s[0]) {
        assert SpaceSpan(s) == 1 by {
          if |s| > 1 {
            assert !IsSpace(s[1]);
            assert SpaceSpan(s[1..]) == 0;
          }
        }
      }
      CollapseFixpoint(s[1..]);
      assert s == [s[0]] + s[1..];
    }
  }

  /** Whitespace normalisation (unlike the whole of `clean_text`) is
      idempotent: a normalised string is its own normal form. */
  lemma NormalizeFixpoint(s: string)
    requires IsNormalized(s)
    ensures NormalizeWhitespace(s) == s
  {
    CollapseFixpoint(s);
    assert SpaceSpan(s) == 0;
    assert TrailingSpaceSpan(s) == 0;
  }

  /** `clean_text`. */
  function CleanText(s: string): (r: string)
    ensures IsNormalized(r)
  {
    CorrectionKeysNonEmpty();
    NormalizeWhitespace(ApplyCorrections(s, Corrections))
  }

  /** A line holding no misrecognised term is changed only by whitespace
      normalisation. */
  lemma CleanTextWithoutKeys(s: string)
    requires forall i :: 0 <= i < |Corrections| ==> !Contains(s, Corrections[i].0)
    ensures CleanText(s) == NormalizeWhitespace(s)
  {
    CorrectionKeysNonEmpty();
    ApplyCorrectionsAbsent(s, Corrections);
  }

  /** Apart from whitespace, `clean_text` yields exactly the corrected text. */
  lemma CleanTextKeepsCorrectedText(s: string)
    ensures KeysNonEmpty(Corrections)
    ensures NonSpace(CleanText(s)) == NonSpace(ApplyCorrections(s, Corrections))
  {
    CorrectionKeysNonEmpty();
    NormalizeKeepsText(ApplyCorrections(s, Corrections));
  }

  /** Whitespace runs between two pieces of the corrected text come out of
      `clean_text` as exactly one space. */
  lemma CleanTextSeparates(s: string, a: string, w: string, b: string)
    requires KeysNonEmpty(Corrections)
    requires ApplyCorrections(s, Corrections) == a + w + b
    requires a != [] && !IsSpace(a[|a| - 1])
    requires w != [] && AllSpace(w)
    requires b != [] && !IsSpace(b[0])
    ensures CleanText(s) == NormalizeWhitespace(a) + " " + NormalizeWhitespace(b)
  {
    NormalizeSeparates(a, w, b);
  }
}
