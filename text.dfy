/** String helpers with the meaning Python gives them for `str` values:
    substring search (`in`), `str.replace`, `str.count`, `str.strip` and the
    whitespace and digit classes used by the regular expressions. */
module Text {

  datatype Option<T> = None | Some(value: T)

  /** Python's `str.isspace` set, which is also what `\s` and `str.strip()`
      use for `str` values. */
  predicate IsSpace(c: char)
  {
    var n := c as int;
    (9 <= n <= 13) || (28 <= n <= 32) || n == 0x85 || n == 0xA0 || n == 0x1680
    || (0x2000 <= n <= 0x200A) || n == 0x2028 || n == 0x2029 || n == 0x202F
    || n == 0x205F || n == 0x3000
  }

  /** `\d`, restricted to the ASCII digits. */
  predicate IsDigit(c: char)
  {
    '0' <= c <= '9'
  }

  predicate AllSpace(s: string)
  {
    forall i :: 0 <= i < |s| ==> IsSpace(s[i])
  }

  predicate AllDigits(s: string)
  {
    forall i :: 0 <= i < |s| ==> IsDigit(s[i])
  }

  /** No character of `s` is a line feed. */
  predicate NoLineBreak(s: string)
  {
    forall i :: 0 <= i < |s| ==> s[i] != '\n'
  }

  predicate StartsWith(s: string, prefix: string)
  {
    |prefix| <= |s| && s[..|prefix|] == prefix
  }

  /** `sub` occurs in `s` starting at index `i`. */
  predicate OccursAt(s: string, sub: string, i: int)
  {
    0 <= i && i + |sub| <= |s| && s[i..i + |sub|] == sub
  }

  /** Python's `sub in s`, as a left-to-right scan. */
  predicate Contains(s: string, sub: string)
    decreases |s|
  {
    StartsWith(s, sub) || (|s| > 0 && Contains(s[1..], sub))
  }

  /** An occurrence at any index is found by the scan. */
  lemma {:induction false} ContainsAt(s: string, sub: string, i: int)
    requires OccursAt(s, sub, i)
    ensures Contains(s, sub)
    decreases i
  {
    if i == 0 {
      assert s[..|sub|] == s[0..|sub|];
    } else {
      assert s[1..][i - 1..i - 1 + |sub|] == s[i..i + |sub|];
      ContainsAt(s[1..], sub, i - 1);
    }
  }

  /** The scan finds `sub` only where some position holds it. */
  lemma {:induction false} ContainsWitness(s: string, sub: string) returns (i: int)
    requires Contains(s, sub)
    ensures OccursAt(s, sub, i)
    decreases |s|
  {
    if StartsWith(s, sub) {
      i := 0;
    } else {
      var j := ContainsWitness(s[1..], sub);
      assert s[1..][j..j + |sub|] == s[j + 1..j + 1 + |sub|];
      i := j + 1;
    }
  }

  /** The scan finds `sub` exactly when some position holds it. */
  lemma ContainsIff(s: string, sub: string)
    ensures Contains(s, sub) <==> exists i :: OccursAt(s, sub, i)
  {
    if Contains(s, sub) {
      var i := ContainsWitness(s, sub);
    }
    forall i | OccursAt(s, sub, i) ensures Contains(s, sub) {
      ContainsAt(s, sub, i);
    }
  }

  /** Whatever a string contains, so does any string that contains it. */
  lemma ContainsTransitive(s: string, mid: string, sub: string)
    requires Contains(s, mid) && Contains(mid, sub)
    ensures Contains(s, sub)
  {
    var i := ContainsWitness(s, mid);
    var j := ContainsWitness(mid, sub);
    assert forall k :: 0 <= k < |mid| ==> s[i + k] == mid[k];
    assert forall k :: 0 <= k < |sub| ==> s[i + j + k] == sub[k];
    assert s[i + j..i + j + |sub|] == sub;
    ContainsAt(s, sub, i + j);
  }

  /** Python's `s.count(c)` for a one-character argument. */
  function CountChar(s: string, c: char): nat
  {
    if s == [] then 0 else (if s[0] == c then 1 else 0) + CountChar(s[1..], c)
  }

  /** A character counted at least once is contained. */
  lemma {:induction false} CountCharContains(s: string, c: char)
    requires CountChar(s, c) > 0
    ensures Contains(s, [c])
  {
    if s[0] == c {
      assert StartsWith(s, [c]);
    } else {
      CountCharContains(s[1..], c);
    }
  }

  /** Length of the run of whitespace that opens `s`. Its facts are in
      `SpaceSpanIsRun`, kept out of the contract so that callers do not
      pay for them. */
  function SpaceSpan(s: string): (n: nat)
    ensures n <= |s|
  {
    if s != [] && IsSpace(s[0]) then 1 + SpaceSpan(s[1..]) else 0
  }

  /** Concatenation is associative. */
  lemma AppendAssoc(x: string, y: string, z: string)
    ensures x + (y + z) == (x + y) + z
  {
  }

  /** A non-empty string is its first character followed by the rest. */
  lemma ConsSplit(s: string)
    requires s != []
    ensures s == [s[0]] + s[1..]
  {
  }

  /** `SpaceSpan` measures a maximal opening run of whitespace. */
  lemma {:induction false} SpaceSpanIsRun(s: string)
    ensures forall i :: 0 <= i < SpaceSpan(s) ==> IsSpace(s[i])
    ensures SpaceSpan(s) == |s| || !IsSpace(s[SpaceSpan(s)])
    decreases |s|
  {
    if s != [] && IsSpace(s[0]) {
      SpaceSpanIsRun(s[1..]);
      assert forall i :: 1 <= i < |s| ==> s[i] == s[1..][i - 1];
    }
  }

  /** Length of the run of ASCII digits that opens `s` (a greedy `\d+`). */
  function DigitSpan(s: string): (n: nat)
    ensures n <= |s|
  {
    if s != [] && IsDigit(s[0]) then 1 + DigitSpan(s[1..]) else 0
  }

  /** `DigitSpan` measures a maximal opening run of digits. */
  lemma {:induction false} DigitSpanIsRun(s: string)
    ensures forall i :: 0 <= i < DigitSpan(s) ==> IsDigit(s[i])
    ensures DigitSpan(s) == |s| || !IsDigit(s[DigitSpan(s)])
    decreases |s|
  {
    if s != [] && IsDigit(s[0]) {
      DigitSpanIsRun(s[1..]);
      assert forall i :: 1 <= i < |s| ==> s[i] == s[1..][i - 1];
    }
  }

  /** A digit run followed by a non-digit is read back whole. */
  lemma {:induction false} DigitSpanOfDigits(n: string, t: string)
    requires AllDigits(n)
    requires t == [] || !IsDigit(t[0])
    ensures DigitSpan(n + t) == |n|
    decreases |n|
  {
    if n == [] {
      assert n + t == t;
    } else {
      assert (n + t)[1..] == n[1..] + t;
      DigitSpanOfDigits(n[1..], t);
    }
  }

  /** Length of the run of whitespace that closes `s`. */
  function TrailingSpaceSpan(s: string): (n: nat)
    ensures n <= |s|
    decreases |s|
  {
    if s != [] && IsSpace(s[|s| - 1]) then 1 + TrailingSpaceSpan(s[..|s| - 1]) else 0
  }

  /** `TrailingSpaceSpan` measures a maximal closing run of whitespace. */
  lemma {:induction false} TrailingSpaceSpanIsRun(s: string)
    ensures forall j :: |s| - TrailingSpaceSpan(s) <= j < |s| ==> IsSpace(s[j])
    ensures TrailingSpaceSpan(s) == |s| || !IsSpace(s[|s| - TrailingSpaceSpan(s) - 1])
    decreases |s|
  {
    if s != [] && IsSpace(s[|s| - 1]) {
      var init := s[..|s| - 1];
      TrailingSpaceSpanIsRun(init);
      assert forall j :: 0 <= j < |init| ==> init[j] == s[j];
    }
  }

  /** Python's `s.strip()`. */
  function Strip(s: string): (r: string)
    ensures |r| <= |s|
    ensures |r| == 0 || (!IsSpace(r[0]) && !IsSpace(r[|r| - 1]))
  {
    var t := s[SpaceSpan(s)..];
    SpaceSpanIsRun(s);
    TrailingSpaceSpanIsRun(t);
    t[..|t| - TrailingSpaceSpan(t)]
  }

  /** The bounds `Strip` cuts at: the whitespace before `lo` and from `hi`
      on is what goes. */
  lemma StripBounds(s: string) returns (lo: nat, hi: nat)
    ensures lo <= hi <= |s| && Strip(s) == s[lo..hi]
    ensures forall j :: 0 <= j < lo ==> IsSpace(s[j])
    ensures forall j :: hi <= j < |s| ==> IsSpace(s[j])
  {
    lo := SpaceSpan(s);
    var t := s[lo..];
    var k := TrailingSpaceSpan(t);
    SpaceSpanIsRun(s);
    TrailingSpaceSpanIsRun(t);
    hi := |s| - k;
    assert t[..|t| - k] == s[lo..hi];
    forall j | hi <= j < |s| ensures IsSpace(s[j]) {
      assert s[j] == t[j - lo];
    }
  }

  /** Stripping removes a whitespace prefix and a whitespace suffix and
      keeps what lies between. */
  lemma StripIsSlice(s: string)
    ensures exists i, j :: 0 <= i <= j <= |s| && Strip(s) == s[i..j]
                           && AllSpace(s[..i]) && AllSpace(s[j..])
  {
    var i, j := StripBounds(s);
    assert AllSpace(s[..i]) by {
      assert forall m :: 0 <= m < i ==> s[..i][m] == s[m];
    }
    assert AllSpace(s[j..]) by {
      assert forall m :: 0 <= m < |s| - j ==> s[j..][m] == s[j + m];
    }
  }

  /** Whitespace on either side of `mid` leaves no mark on its
      non-whitespace text. */
  lemma NonSpaceBetweenSpaces(pre: string, mid: string, post: string)
    requires AllSpace(pre) && AllSpace(post)
    ensures NonSpace(pre + mid + post) == NonSpace(mid)
  {
    NonSpaceAppend(pre + mid, post);
    NonSpaceAppend(pre, mid);
    NonSpaceOfSpaces(pre);
    NonSpaceOfSpaces(post);
  }

  /** Stripping removes whitespace only. */
  lemma StripKeepsText(s: string)
    ensures NonSpace(Strip(s)) == NonSpace(s)
  {
    var i, j := StripBounds(s);
    var pre, mid, post := s[..i], s[i..j], s[j..];
    assert AllSpace(pre) by {
      assert forall m :: 0 <= m < i ==> pre[m] == s[m];
    }
    assert AllSpace(post) by {
      assert forall m :: 0 <= m < |post| ==> post[m] == s[j + m];
    }
    assert s == pre + mid + post;
    NonSpaceBetweenSpaces(pre, mid, post);
  }

  /** A whitespace run that ends inside `a` is not lengthened by what
      follows `a`. */
  lemma {:induction false} SpaceSpanPrefix(a: string, b: string)
    requires SpaceSpan(a) < |a|
    ensures SpaceSpan(a + b) == SpaceSpan(a)
    decreases |a|
  {
    if IsSpace(a[0]) {
      assert (a + b)[1..] == a[1..] + b;
      SpaceSpanPrefix(a[1..], b);
    }
  }

  /** A closing whitespace run that starts inside `b` is not lengthened by
      what precedes `b`. */
  lemma {:induction false} TrailingSpaceSpanSuffix(a: string, b: string)
    requires TrailingSpaceSpan(b) < |b|
    ensures TrailingSpaceSpan(a + b) == TrailingSpaceSpan(b)
    decreases |b|
  {
    if IsSpace(b[|b| - 1]) {
      assert (a + b)[..|a + b| - 1] == a + b[..|b| - 1];
      TrailingSpaceSpanSuffix(a, b[..|b| - 1]);
    }
  }

  /** Stripping `x + m + y`, where `x` ends and `y` starts with
      non-whitespace, strips `x` at its start and `y` at its end and keeps
      `m` as it is. */
  lemma StripAround(x: string, m: string, y: string)
    requires x != [] && !IsSpace(x[|x| - 1])
    requires y != [] && !IsSpace(y[0])
    ensures Strip(x + m + y) == Strip(x) + m + Strip(y)
  {
    var lo := SpaceSpan(x);
    SpaceSpanIsRun(x);
    assert lo < |x|;
    var u := x[lo..];
    AppendAssoc(x, m, y);
    SpaceSpanPrefix(x, m + y);
    DropAppend(x, m + y, lo);
    AppendAssoc(u, m, y);
    var k := TrailingSpaceSpan(y);
    TrailingSpaceSpanIsRun(y);
    assert k < |y|;
    TrailingSpaceSpanSuffix(u + m, y);
    TakeAppend(u + m, y, |y| - k);
    assert TrailingSpaceSpan(u) == 0;
    assert u[..|u|] == u;
    assert y[0..] == y;
  }

  /** Dropping a prefix of the first part of a concatenation. */
  lemma DropAppend(a: string, b: string, i: nat)
    requires i <= |a|
    ensures (a + b)[i..] == a[i..] + b
  {
  }

  /** Taking all of the first part of a concatenation and a prefix of the
      second. */
  lemma TakeAppend(a: string, b: string, j: nat)
    requires j <= |b|
    ensures (a + b)[..|a| + j] == a + b[..j]
  {
  }

  /** Python's `s.replace(pat, rep)` for a non-empty `pat`: occurrences are
      found left to right and do not overlap. */
  function ReplaceAll(s: string, pat: string, rep: string): string
    requires |pat| > 0
    decreases |s|
  {
    if |s| < |pat| then s
    else if s[..|pat|] == pat then rep + ReplaceAll(s[|pat|..], pat, rep)
    else [s[0]] + ReplaceAll(s[1..], pat, rep)
  }

  /** Python's `s.count(pat)` for a non-empty `pat`: the occurrences the
      same left-to-right scan finds. */
  function CountOccurrences(s: string, pat: string): nat
    requires |pat| > 0
    decreases |s|
  {
    if |s| < |pat| then 0
    else if s[..|pat|] == pat then 1 + CountOccurrences(s[|pat|..], pat)
    else CountOccurrences(s[1..], pat)
  }

  /** A string without the pattern is left unchanged. */
  lemma {:induction false} ReplaceAllAbsent(s: string, pat: string, rep: string)
    requires |pat| > 0 && !Contains(s, pat)
    ensures ReplaceAll(s, pat, rep) == s
    decreases |s|
  {
    if |s| >= |pat| {
      assert !StartsWith(s, pat);
      ReplaceAllAbsent(s[1..], pat, rep);
    }
  }

  /** Replacing a pattern by itself changes nothing. */
  lemma {:induction false} ReplaceAllSelf(s: string, pat: string)
    requires |pat| > 0
    ensures ReplaceAll(s, pat, pat) == s
    decreases |s|
  {
    if |s| >= |pat| {
      if s[..|pat|] == pat {
        ReplaceAllSelf(s[|pat|..], pat);
        assert s == pat + s[|pat|..];
      } else {
        ReplaceAllSelf(s[1..], pat);
        assert s == [s[0]] + s[1..];
      }
    }
  }

  /** Each replaced occurrence changes the length by `|rep| - |pat|`, and
      the occurrences replaced are the ones `str.count` counts. */
  lemma {:induction false} ReplaceAllLength(s: string, pat: string, rep: string)
    requires |pat| > 0
    ensures |ReplaceAll(s, pat, rep)| == |s| + CountOccurrences(s, pat) * (|rep| - |pat|)
    decreases |s|
  {
    if |s| >= |pat| {
      if s[..|pat|] == pat {
        var t := s[|pat|..];
        ReplaceAllLength(t, pat, rep);
        OneMoreTimes(CountOccurrences(t, pat), |rep| - |pat|);
      } else {
        ReplaceAllLength(s[1..], pat, rep);
      }
    }
  }

  lemma OneMoreTimes(c: int, d: int)
    ensures (c + 1) * d == c * d + d
  {
  }

  /** A string counts no occurrence of a pattern it does not contain, and
      at least one of a pattern it does. */
  lemma {:induction false} CountOccurrencesContains(s: string, pat: string)
    requires |pat| > 0
    ensures CountOccurrences(s, pat) > 0 <==> Contains(s, pat)
    decreases |s|
  {
    if |s| >= |pat| {
      if s[..|pat|] == pat {
        assert StartsWith(s, pat);
      } else {
        CountOccurrencesContains(s[1..], pat);
      }
    } else {
      if Contains(s, pat) {
        var i := ContainsWitness(s, pat);
      }
    }
  }

  /** A replacement whose two sides differ in length changes the length
      of `s` exactly when the pattern occurs in it. */
  lemma ReplaceAllChangesLength(s: string, pat: string, rep: string)
    requires |pat| > 0 && |rep| != |pat|
    ensures |ReplaceAll(s, pat, rep)| != |s| <==> Contains(s, pat)
  {
    ReplaceAllLength(s, pat, rep);
    CountOccurrencesContains(s, pat);
    NonZeroProduct(CountOccurrences(s, pat), |rep| - |pat|);
  }

  lemma NonZeroProduct(c: int, d: int)
    requires d != 0
    ensures c * d != 0 <==> c != 0
  {
  }

  /** The characters of `s` that are not whitespace, in order. */
  function NonSpace(s: string): string
  {
    if s == [] then [] else (if IsSpace(s[0]) then [] else [s[0]]) + NonSpace(s[1..])
  }

  lemma {:induction false} NonSpaceAppend(a: string, b: string)
    ensures NonSpace(a + b) == NonSpace(a) + NonSpace(b)
    decreases |a|
  {
    if a == [] {
      assert a + b == b;
    } else {
      assert (a + b)[0] == a[0];
      assert (a + b)[1..] == a[1..] + b;
      NonSpaceAppend(a[1..], b);
    }
  }

  lemma {:induction false} NonSpaceOfSpaces(s: string)
    requires AllSpace(s)
    ensures NonSpace(s) == []
    decreases |s|
  {
    if s != [] {
      NonSpaceOfSpaces(s[1..]);
    }
  }
}
