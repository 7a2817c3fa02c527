# Lecture transcript cleaner, modelled in Dafny

`process_lectures.py` turns speech-to-text transcripts of CSP lectures into
notes. Each transcript line may open with a `MM:SS` timestamp. The script
trims the noisy opening and closing chatter from the transcript, corrects
misrecognised technical terms, drops noise lines, and writes a note named
after the lecture number.

This project models the decision logic of that script and proves what it
promises. The modules follow the script's parts:

- `Text` (text.dfy): the meaning Python gives to `in`, `str.replace`,
  `str.count`, `str.strip`, and the `\s` and `\d` classes.
- `Lexicon` (lexicon.dfy): `CORRECTIONS`, `NOISE_KEYWORDS` and the course
  keyword list, in declaration order.
- `Classifier` (classifier.dfy): `is_noise_line`.
- `Normalizer` (normalizer.dfy): `clean_text`.
- `Timestamp` (timestamp.dfy): `re.sub(r'^\d+:\d+\s*', '', line).strip()`.
- `Trimmer` (trimmer.dfy): `extract_content`. It is two scanning methods with
  loop invariants, proved against the functions `WindowStart` and `WindowEnd`.
- `Filter` (filter.dfy): the loop of `process_lecture_file` that builds
  `processed_lines`. It is a method proved against `KeptLines`.
- `Naming` (naming.dfy): the lecture number found by `re.search(r'节次(\d+)', stem)`,
  and the output file name.
- `Note` (note.dfy): the header and body written to the note, together with a
  reader for that format that serves as the writer's inverse.
- `Lecture` (lecture.dfy): `process_lecture_file` as a whole, from lines
  and stem to an `Outcome`.

Where the code's behaviour differs from what its comments and names
suggest, the model follows the code:

- When no line passes the content test, `extract_content` returns the whole
  input, not an empty list (`NoContentKeepsAll`).
- Only an empty window skips the note. A window whose lines are all filtered
  away still gets a note that holds only the header (`Lecture.OutcomeCases`).
- `clean_text` is not idempotent: `"on  line"` becomes `"on line"` and then
  `"unsigned"`. No idempotence is claimed. Only whitespace normalisation is a
  fixpoint (`NormalizeFixpoint`).
- The backward scan never reads an unbound `course_keywords`
  (`CourseKeywordsBoundBeforeUse`).
- A stem with no lecture number fails at the header. The output file has
  already been opened, and so emptied, at that point (`Outcome.HeaderFailed`).

## Model

| member | source | states |
|---|---|---|
| Text.ContainsIff | process_lectures.py:80 | `keyword in line`, modelled as a left-to-right scan, holds exactly when the keyword occurs at some position |
| Text.ContainsTransitive | process_lectures.py:80 | a line that contains a string also contains everything that string contains |
| Text.CountCharContains | process_lectures.py:88 | `line.count(c) > 0` means `c` occurs in the line |
| Text.StripBounds | process_lectures.py:112 | `strip()` returns `s[lo..hi]`, with only whitespace before `lo` and from `hi` on |
| Text.Strip | process_lectures.py:112 | `strip()` leaves no whitespace at either end and never lengthens a string |
| Text.StripIsSlice | process_lectures.py:123 | the stripped string is a contiguous slice of the input |
| Text.StripKeepsText | process_lectures.py:112 | stripping removes whitespace only: the other characters stay, in order |
| Text.StripAround | process_lectures.py:112 | `strip()` only touches the ends: between a first and a last non-whitespace piece everything is kept as it is |
| Text.SpaceSpanPrefix | process_lectures.py:110 | a whitespace run that ends inside a string is not lengthened by what follows |
| Text.TrailingSpaceSpanSuffix | process_lectures.py:112 | a trailing whitespace run that starts inside a string is not lengthened by what precedes |
| Text.ReplaceAllAbsent | process_lectures.py:107 | `str.replace` leaves a string without the key unchanged |
| Text.ReplaceAllSelf | process_lectures.py:46 | replacing a key by itself (the `migration` entry) changes nothing |
| Text.ReplaceAllLength | process_lectures.py:107 | each replaced occurrence changes the length by the difference of the lengths |
| Text.CountOccurrencesContains | process_lectures.py:107 | `str.replace` finds an occurrence exactly when the key is contained |
| Text.ReplaceAllChangesLength | process_lectures.py:107 | a correction whose two sides differ in length changes the length of the text exactly when the key occurs in it |
| Text.DigitSpanIsRun | process_lectures.py:123 | the greedy `\d+` takes a maximal run of digits |
| Text.SpaceSpanIsRun | process_lectures.py:110 | the greedy `\s+` / `\s*` takes a maximal run of whitespace |
| Text.TrailingSpaceSpanIsRun | process_lectures.py:112 | the whitespace `strip()` drops from the end is a maximal run |
| Text.DigitSpanOfDigits | process_lectures.py:172 | a digit string followed by a non-digit is matched by `\d+` in full |
| Classifier.ShadowedKeyword | process_lectures.py:56-81 | every line holding `随便的眼睛` holds `随便`, which the keyword loop tries earlier, so the longer entry never decides a verdict |
| Classifier.ContainsAnyIff | process_lectures.py:79-81 | the early-return keyword loop answers true exactly when some keyword occurs in the line |
| Classifier.ShortLineIsNoise | process_lectures.py:84-85 | every line of fewer than 10 characters is noise |
| Classifier.KeywordLineIsNoise | process_lectures.py:79-81 | every line holding any noise keyword is noise, whatever its length |
| Classifier.NoiseLineSimplified | process_lectures.py:56-99 | the repetition test and the `加油加油` and `嗯嗯嗯` patterns never change the verdict: noise is exactly keyword, or shorter than 10, or digits/colons then fillers |
| Classifier.LongCleanLineIsNotNoise | process_lectures.py:75-101 | a line of 10 or more characters, with no keyword and not a timestamp-with-fillers, is not noise |
| Classifier.ExtraNoiseCase | process_lectures.py:93 | beyond keywords and length, a noise line consists of digits and colons, then only 这 and 那, with an optional final newline |
| Classifier.DigitColonSpan | process_lectures.py:93 | `[0-9:]+` takes a maximal run of digits and colons |
| Normalizer.CorrectionKeysNonEmpty | process_lectures.py:12-53 | no correction key is empty, so each `str.replace` is a left-to-right scan |
| Normalizer.ApplyCorrectionsInOrder | process_lectures.py:106-107 | corrections apply in declaration order: a split table is its first part applied, then its second |
| Normalizer.ApplyCorrectionsAbsent | process_lectures.py:106-107 | a string holding no key is left unchanged by the correction loop |
| Normalizer.CollapseWhitespace | process_lectures.py:110 | `re.sub(r'\s+', ' ', s)` never lengthens the string |
| Normalizer.CollapseShape | process_lectures.py:110 | after `re.sub(r'\s+', ' ', s)` the only whitespace left is `' '`, never two in a row; the result is empty only for an empty input, and each end keeps its whitespace-ness |
| Normalizer.CollapseKeepsChar | process_lectures.py:110 | a non-whitespace character is copied to the output unchanged |
| Normalizer.CollapseRun | process_lectures.py:110 | a whole maximal whitespace run becomes exactly one `' '` |
| Normalizer.CollapseAfterText | process_lectures.py:110 | no match spans a non-whitespace character, so the text before and after one is collapsed independently |
| Normalizer.CollapseSeparates | process_lectures.py:110 | each whitespace run between two pieces of text becomes one space, and each piece is collapsed on its own |
| Normalizer.CollapseOneSpace | process_lectures.py:110 | `"a  b"` collapses to `"a b"` |
| Normalizer.CollapseKeepsText | process_lectures.py:110 | collapsing keeps every non-whitespace character, in order |
| Normalizer.NormalizeWhitespace | process_lectures.py:110-112 | collapse then strip gives a normalised string no longer than the input |
| Normalizer.NormalizeSeparates | process_lectures.py:110-112 | collapse then strip turns each whitespace run between two pieces of text into one space and normalises each piece on its own, so words are neither glued together nor pulled apart |
| Normalizer.NormalizeKeepsText | process_lectures.py:110-112 | normalising whitespace keeps every non-whitespace character, in order |
| Normalizer.StripKeepsCollapsed | process_lectures.py:112 | stripping a collapsed string leaves it normalised |
| Normalizer.CollapseFixpoint | process_lectures.py:110 | a string already collapsed is unchanged by the collapse |
| Normalizer.NormalizeFixpoint | process_lectures.py:110-112 | whitespace normalisation of a normalised string is the identity |
| Normalizer.CleanText | process_lectures.py:103-112 | the output of `clean_text` has no whitespace at either end, no two whitespace characters in a row, and no whitespace other than `' '` |
| Normalizer.CleanTextWithoutKeys | process_lectures.py:106-112 | a line without any correction key is changed only by whitespace normalisation |
| Normalizer.CleanTextKeepsCorrectedText | process_lectures.py:106-112 | apart from whitespace, `clean_text` yields exactly the corrected text |
| Normalizer.CleanTextSeparates | process_lectures.py:103-112 | a whitespace run between two pieces of the corrected text comes out of `clean_text` as exactly one space between the normalised pieces |
| Timestamp.TimestampLength | process_lectures.py:123 | the pattern's match never runs past the line |
| Timestamp.TimestampDetected | process_lectures.py:123 | the pattern matches exactly the lines that open with digits, `:`, digit |
| Timestamp.TimestampShape | process_lectures.py:123 | a match removes one maximal digit run, `:`, one maximal digit run and one maximal whitespace run |
| Timestamp.StripTimestampSuffix | process_lectures.py:123 | the result is the strip of a suffix of the line, and a line without a timestamp is only stripped |
| Timestamp.StripOneGroupOnly | process_lectures.py:123 | only one group goes: `"1:02:03 x"` becomes `":03 x"` |
| Trimmer.VerdictAt | process_lectures.py:123-127 | the recorded verdict on line `i` is the content test applied to that line after its timestamp is stripped |
| Trimmer.FirstTrueFrom | process_lectures.py:121-129 | the forward search stops at the first passing line and passes over only failing lines |
| Trimmer.LastTrueBefore | process_lectures.py:133-139 | the backward search stops just after the last passing line and passes over only failing lines |
| Trimmer.StartBeforeEnd | process_lectures.py:120-141 | the window bounds are ordered, and the window is empty only for an empty input |
| Trimmer.CheckLine | process_lectures.py:123-137 | one scan step computes the verdict `Verdicts` records for the line |
| Trimmer.ScanForward | process_lectures.py:120-129 | the forward loop ends with `start_idx` at the first passing line, or 0 when none passes |
| Trimmer.ScanBackward | process_lectures.py:132-139 | the backward loop ends with `end_idx` one past the last passing line, or `len(lines)` when none passes |
| Trimmer.ExtractContent | process_lectures.py:114-141 | `extract_content` returns `ContentWindow(lines)` |
| Trimmer.WindowIsSlice | process_lectures.py:116-141 | an empty input gives `[]`; any other gives a non-empty slice `lines[start:end]` of the untouched lines |
| Trimmer.WindowOpensOnContent | process_lectures.py:120-129 | when some line passes, the window opens at or before it, on a passing line |
| Trimmer.WindowClosesOnContent | process_lectures.py:132-139 | when some line passes, the window closes after it, just after a passing line |
| Trimmer.NothingPassesOutside | process_lectures.py:120-141 | no line outside the window passes the content test |
| Trimmer.NoContentKeepsAll | process_lectures.py:120-141 | when no line passes, the whole input is returned |
| Trimmer.CourseKeywordsBoundBeforeUse | process_lectures.py:124-137 | every line that reaches the backward keyword test was preceded, in the forward scan, by a line that bound `course_keywords` |
| Filter.KeptLineShape | process_lectures.py:161-166 | a kept line is `clean_text` of its stripped source line, is not noise, has at least 10 characters, no keyword, normalised whitespace and no line feed |
| Filter.OutcomeAt | process_lectures.py:160-166 | the recorded outcome for window line `i` is the filter applied to that line |
| Filter.SomeIndicesExact | process_lectures.py:158-166 | the source positions of the kept lines, in increasing order, are exactly the positions whose line is kept |
| Filter.FilterOne | process_lectures.py:159-166 | one loop step computes the outcome `CleanedLine` gives for the line |
| Filter.FilterLines | process_lectures.py:158-166 | the loop builds exactly `KeptLines(window)` |
| Filter.KeptLinesInOrder | process_lectures.py:158-166 | the output is no longer than the window, and its lines come from strictly increasing window positions |
| Filter.KeptLinesFromSources | process_lectures.py:161-166 | every kept line is the filter's output for its source line |
| Filter.NoKeptLineLost | process_lectures.py:161-166 | every window line that the filter keeps appears in the output |
| Filter.KeptLinesClean | process_lectures.py:161-166 | every kept line equals `clean_text` of its stripped source, is not noise, has at least 10 characters and has no keyword |
| Naming.FirstMarkerFrom | process_lectures.py:172 | the search stops at a position where `节次` and a digit start, or at the end |
| Naming.FirstMarkerIsLeftmost | process_lectures.py:172 | no earlier position matches |
| Naming.NoMarkerNoNumber | process_lectures.py:172-173 | the search fails exactly when no position of the stem matches |
| Naming.NumberAtLeftmostMarker | process_lectures.py:172-174 | at the leftmost match, the number is the maximal non-empty digit run after `节次` |
| Naming.LeadingZerosKept | process_lectures.py:174 | the number is kept as a string: `节次01` gives `01` |
| Naming.NoMarkerFrom | process_lectures.py:172 | a stem with no match from some position on makes the search run to the end |
| Naming.OutputNameKeepsNumber | process_lectures.py:172-177 | searching the output name for a lecture number gives the same result as searching the stem |
| Note.NoteBodyAppend | process_lectures.py:181-182 | the writes for two lists of lines are the writes for the first followed by the writes for the second |
| Note.WriteNote | process_lectures.py:180-182 | the text written is the header followed by each line and a blank line |
| Note.LineEndAfter | process_lectures.py:182 | a line with no line feed ends where the line feed written after it is |
| Note.ParseNoteBody | process_lectures.py:181-182 | lines without line feeds are read back exactly from the body written for them |
| Note.ParseHeader | process_lectures.py:180 | the header `# CSP课程第{n}节笔记\n\n` is read back as the number `n` |
| Note.ParseWrittenNote | process_lectures.py:180-182 | a written note reads back as its lecture number and exactly its lines |
| Lecture.ProcessLecture | process_lectures.py:143-184 | `process_lecture_file` ends in `LectureOutcome(stem, lines)` |
| Lecture.OutcomeCases | process_lectures.py:150-180 | no note exactly for an empty transcript; a header failure exactly when a non-empty transcript's stem has no lecture number |
| Lecture.WrittenNoteReadsBack | process_lectures.py:169-182 | a written note is named `节次{n}_笔记.txt` for the stem's number `n`, the name carries `n`, and the text reads back as `n` and exactly the kept lines |

## Left out

- File reading and writing, `Path` handling, `mkdir`, `glob`, sorting of the input files, `print` logging, and the per-file `try/except` of `main`. These are I/O and error plumbing. The model takes a file's lines and stem as values and returns an `Outcome`, and the path of the output directory is not modelled.
- A `NameError` raised at the header is reported as `Outcome.HeaderFailed`. What `main` does after that, which is to log the error and carry on, is not modelled.
- tmp.py is not part of this model. It only lists a directory and renames files.
- Regular expressions are modelled as fixed predicates, not by a regex engine. `\d` is the ASCII digits, where Python's `\d` also takes other Unicode digits. `\s` and `strip()` use Python's `str.isspace` set.
- Python's `$` is modelled, including that it matches just before a final newline. `re.match` is modelled as anchored at the start.
- `line_lower` in `is_noise_line` is computed and never used, so the model leaves it out.
- No idempotence of `clean_text` is claimed, because it does not hold.
- The four-line worked example, in which only the third line survives as `今天讲 CSE 系统的 unsigned 类型`, is not stated as a lemma. It would mean evaluating 79 keyword searches and 40 replacements on literal lines inside the verifier.
