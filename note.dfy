/** The text `process_lecture_file` writes into a note: a header naming
    the lecture, then every kept line followed by a blank line. A reader of
    that format is given too, and reads every note back. */
module Note {
  import opened Text

  const HeaderOpen := "# CSP课程第"
  const HeaderClose := "节笔记\n\n"

  /** `f"# CSP课程第{lecture_num}节笔记\n\n"`. */
  function Header(n: string): string
  {
    HeaderOpen + n + HeaderClose
  }

  /** What `f.write(line + '\n\n')` writes over all the lines. */
  function NoteBody(lines: seq<string>): string
  {
    if lines == [] then [] else lines[0] + "\n\n" + NoteBody(lines[1..])
  }

  /** The body of two lists is the two bodies, one after the other. */
  lemma {:induction false} NoteBodyAppend(a: seq<string>, b: seq<string>)
    ensures NoteBody(a + b) == NoteBody(a) + NoteBody(b)
    decreases |a|
  {
    if a == [] {
      assert a + b == b;
    } else {
      assert (a + b)[0] == a[0];
      assert (a + b)[1..] == a[1..] + b;
      NoteBodyAppend(a[1..], b);
    }
  }

  /** The writes of `process_lecture_file`: the header, then each line and
      a blank line. */
  method WriteNote(n: string, lines: seq<string>) returns (text: string)
    ensures text == Header(n) + NoteBody(lines)
  {
    text := Header(n);
    for i := 0 to |lines|
      invariant text == Header(n) + NoteBody(lines[..i])
    {
      NoteBodyAppend(lines[..i], [lines[i]]);
      assert lines[..i + 1] == lines[..i] + [lines[i]];
      assert NoteBody([lines[i]]) == lines[i] + "\n\n" by {
        assert [lines[i]][1..] == [];
      }
      text := text + (lines[i] + "\n\n");
    }
    assert lines[..|lines|] == lines;
  }

  /** Index of the first line feed in `t`; `|t|` when there is none. */
  function LineEnd(t: string): (i: nat)
    ensures i <= |t|
  {
    if t == [] || t[0] == '\n' then 0 else 1 + LineEnd(t[1..])
  }

  /** A line with no line feed ends where the line feed after it is. */
  lemma {:induction false} LineEndAfter(line: string, rest: string)
    requires NoLineBreak(line)
    requires rest != [] && rest[0] == '\n'
    ensures LineEnd(line + rest) == |line|
    decreases |line|
  {
    if line == [] {
      assert line + rest == rest;
    } else {
      assert (line + rest)[1..] == line[1..] + rest;
      LineEndAfter(line[1..], rest);
    }
  }

  /** Splits a note body into its lines: each runs up to a line feed, and
      the blank line after it is skipped. */
  function ParseBody(t: string): seq<string>
    decreases |t|
  {
    if t == [] then []
    else
      var i := LineEnd(t);
      if i + 2 <= |t| then [t[..i]] + ParseBody(t[i + 2..]) else [t]
  }

  /** Reads a note back: the lecture number from the header and the lines
      from the body; `None` when the header is not there. */
  function ParseNote(text: string): Option<(string, seq<string>)>
  {
    if !StartsWith(text, HeaderOpen) then None
    else
      var rest := text[|HeaderOpen|..];
      var k := DigitSpan(rest);
      if k == 0 || !StartsWith(rest[k..], HeaderClose) then None
      else Some((rest[..k], ParseBody(rest[k..][|HeaderClose|..])))
  }

  /** Lines without line feeds are read back from their body. */
  lemma {:induction false} ParseNoteBody(lines: seq<string>)
    requires forall j :: 0 <= j < |lines| ==> NoLineBreak(lines[j])
    ensures ParseBody(NoteBody(lines)) == lines
    decreases |lines|
  {
    if lines != [] {
      var rest := NoteBody(lines[1..]);
      var t := lines[0] + ("\n\n" + rest);
      assert NoteBody(lines) == t;
      LineEndAfter(lines[0], "\n\n" + rest);
      assert t[..|lines[0]|] == lines[0];
      assert t[|lines[0]| + 2..] == rest;
      ParseNoteBody(lines[1..]);
      assert [lines[0]] + lines[1..] == lines;
    }
  }

  /** The two halves of a concatenation are read back by slicing. */
  lemma SplitConcat(a: string, b: string)
    ensures StartsWith(a + b, a)
    ensures (a + b)[|a|..] == b
  {
    assert (a + b)[..|a|] == a;
  }

  /** Behind the header of a lecture number the reader finds that number,
      then reads the body. */
  lemma ParseHeader(n: string, body: string)
    requires n != [] && AllDigits(n)
    ensures ParseNote(Header(n) + body) == Some((n, ParseBody(body)))
  {
    var tail := HeaderClose + body;
    var rest := n + tail;
    var text := Header(n) + body;
    assert text == HeaderOpen + rest;
    SplitConcat(HeaderOpen, rest);
    assert text[|HeaderOpen|..] == rest;
    assert tail[0] == '节';
    DigitSpanOfDigits(n, tail);
    SplitConcat(n, tail);
    assert rest[..|n|] == n;
    SplitConcat(HeaderClose, body);
  }

  /** Every note written for a lecture number is read back as that number
      and exactly the lines written, when no line holds a line feed. */
  lemma ParseWrittenNote(n: string, lines: seq<string>)
    requires n != [] && AllDigits(n)
    requires forall j :: 0 <= j < |lines| ==> NoLineBreak(lines[j])
    ensures ParseNote(Header(n) + NoteBody(lines)) == Some((n, lines))
  {
    ParseHeader(n, NoteBody(lines));
    ParseNoteBody(lines);
  }
}
