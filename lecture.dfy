/** `process_lecture_file` without its file I/O: the transcript's lines
    and the input file's stem in, the note it writes (or what stops it)
    out. */
module Lecture {
  import opened Text
  import opened Trimmer
  import opened Filter
  import opened Naming
  import opened Note

  /** How a call ends. */
  datatype Outcome =
    /** The trimmed window is empty: a warning, and no file. */
    | NoContent
    /** The note file `name` now holds `text`. */
    | Written(name: string, text: string)
    /** The file `name` was opened, and so emptied, before the header
        raised `NameError` for the unbound `lecture_num`. */
    | HeaderFailed(name: string)

  /** What `process_lecture_file` does with a transcript. */
  function LectureOutcome(stem: string, lines: seq<string>): Outcome
  {
    var window := ContentWindow(lines);
    if window == [] then NoContent
    else
      match LectureNumber(stem)
      case Some(n) => Written(OutputName(stem), Header(n) + NoteBody(KeptLines(window)))
      case None => HeaderFailed(OutputName(stem))
  }

  /** `process_lecture_file`, step by step. */
  method ProcessLecture(stem: string, lines: seq<string>) returns (outcome: Outcome)
    ensures outcome == LectureOutcome(stem, lines)
  {
    var window := ExtractContent(lines);
    if window == [] {
      return NoContent;
    }
    var processed := FilterLines(window);
    var number := LectureNumber(stem);
    var name: string;
    if number.Some? {
      name := "节次" + number.value + "_笔记.txt";
    } else {
      name := stem + "_笔记.txt";
    }
    if number.None? {
      return HeaderFailed(name);
    }
    var text := WriteNote(number.value, processed);
    outcome := Written(name, text);
  }

  /** Only an empty transcript gives no note; any other fails at the header
      exactly when its stem carries no lecture number. */
  lemma OutcomeCases(stem: string, lines: seq<string>)
    ensures LectureOutcome(stem, lines).NoContent? <==> lines == []
    ensures LectureOutcome(stem, lines).HeaderFailed? <==> lines != [] && LectureNumber(stem).None?
    ensures LectureOutcome(stem, lines).Written? <==> lines != [] && LectureNumber(stem).Some?
  {
    WindowIsSlice(lines);
  }

  /** A written note reads back as the stem's lecture number, which its file
      name carries too, and as exactly the lines the filter kept from the
      window. */
  lemma WrittenNoteReadsBack(stem: string, lines: seq<string>)
    requires LectureOutcome(stem, lines).Written?
    ensures LectureNumber(stem).Some?
    ensures LectureOutcome(stem, lines).name == "节次" + LectureNumber(stem).value + "_笔记.txt"
    ensures LectureNumber(LectureOutcome(stem, lines).name) == LectureNumber(stem)
    ensures ParseNote(LectureOutcome(stem, lines).text)
            == Some((LectureNumber(stem).value, KeptLines(ContentWindow(lines))))
  {
    var window := ContentWindow(lines);
    var kept := KeptLines(window);
    var n := LectureNumber(stem).value;
    OutputNameKeepsNumber(stem);
    FirstMarkerIsLeftmost(stem, 0);
    NumberAtLeftmostMarker(stem, FirstMarkerFrom(stem, 0));
    KeptLinesClean(window);
    ParseWrittenNote(n, kept);
  }
}
