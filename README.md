# PollyScript line filter and chunker, modelled in Dafny

PollyScript turns a plain-text book into an audio book. It has four steps:

1. `format_book_to_temp_file` copies the book into a temporary file. On the way it strips every line, drops blank lines and, by default, drops page-number lines. It is meant to skip everything up to a start-page marker and to stop at an end-page marker; as written, either option makes it raise (see "## Findings").
2. `create_audio_book` rewinds that file.
3. `get_polly_chunk` cuts the file into chunks of whole lines. A chunk ends just after the line that takes it past 1150 characters. Its quotes are escaped and its newlines become spaces.
4. Each chunk is handed to `aws polly synthesize-speech`, and the audio segments are appended to the output file.

The project models steps 1 to 3 and the order in which chunks reach step 4:

- `Text`: the Python 2 string operations the script relies on. These are `strip`, `split`, `isdigit`, `in`, `replace`, and iteration over a file, which splits the text after each newline.
- `PageNumbers`: `is_page_number_line`.
- `LineFilter`: the `write_lines` loop. A specification function, `Scan`, works over the kind of each line (blank, stop marker, page marker, plain). A reference function, `Formatted`, states the output as a filter and map. The method `WriteLines` is proved equal to `Scan`.
- `Chunker`: `get_polly_chunk`. It is specified by `ChunkEnd`, the position where a chunk stops, and by `Escape`.
- `Polly`: `skip_to_start_line`, `format_book_to_temp_file` and the main loop of `create_audio_book`. Start and end pages are the decimal text of the integer option (`str(n)`).
- `AsWritten`: the two calls whose arguments do not have the types `write_lines` needs, exactly as the script makes them. See "## Findings".

The book is a string and the temporary file is the concatenation of the lines written to it. The synthesis command is a sink that receives the chunks in order. A `RuntimeError` is a `Failure` carrying its message.

Where the option help and the code differ, the model follows the code. `--end-page` is documented as stopping "after the endpage number is detected". With the page passed as text (`str(n)`), the code stops at the first page marker whose stripped text contains the page, and does not write that marker. It also stops at a marker such as `17` when the end page is 7, because `in` is a substring test.

## Model

| member | source | states |
|---|---|---|
| Text.IsDigits | polly.py:97 | `str.isdigit()` on a byte string: non-empty and ASCII digits only, as its definition states |
| PageNumbers.IsPageNumberLine | polly.py:95-97 | `is_page_number_line` on a non-blank line; `PageNumberLineIsSplitTest` and `PageNumberLineByChars` state its meaning |
| PageNumbers.PageNumberLineIsSplitTest | polly.py:95-97 | `split()` of a non-blank line has a first and a last token, and the line is a page marker exactly when one of them is all digits |
| PageNumbers.PageNumberLineByChars | polly.py:95-97 | on a stripped, non-empty line, the test holds exactly when the line starts or ends with a run of digits standing as a word of its own |
| Text.Tokens | polly.py:96 | `str.split()`; `TokensFromBlank` and `TokensFromWord` give its two defining equations, `TokensAreWords`, `TokensEmpty` and `SplitEnds` its consequences; the script reads only the first and last elements |
| Text.TokensFromBlank | polly.py:96 | from any position, `split()` yields nothing exactly when only whitespace is left |
| Text.TokensFromWord | polly.py:96 | after a whitespace run, the next element of `split()` is the maximal whitespace-free run that follows, and the rest is split after it |
| Text.TokensAreWords | polly.py:96 | every element of `split()` is a non-empty run without whitespace |
| Text.TokensEmpty | polly.py:96-97 | `split()` returns no element exactly when the line is all whitespace, the case where `line_list[0]` would raise |
| Text.SplitEnds | polly.py:96-97 | the first and last elements of `split()` are the first and last words of the line |
| Text.Strip | polly.py:75 | `str.strip()`: the result has no whitespace at either end and is at most as long as the line; `StripTrims` and `StripBlank` state what it keeps |
| Text.StripTrims | polly.py:75 | the stripped line is a slice of the line with only whitespace before and after it, so `strip()` removes whitespace from the ends and nothing else |
| Text.StripBlank | polly.py:75-78 | a line strips to `""` exactly when it is all whitespace |
| Text.StripFileLine | polly.py:74-75 | a stripped file line holds no newline |
| Text.Contains | polly.py:81 | `sub in s`, the substring test; `ContainsAt` states its meaning |
| Text.ContainsAt | polly.py:81 | `page in line` holds exactly when the page occurs at some offset of the line |
| Text.FileLines | polly.py:74 | the lines that iterating over a file yields; `FileLinesSplit`, `FileLinesUnique` and `FileLinesOfWritten` state their meaning |
| Text.FileLinesSplit | polly.py:74 | iterating over a file yields non-empty lines, each with a newline only at its end and every one but the last ending with one, that join back into the file's text |
| Text.FileLinesUnique | polly.py:74 | any split of the text with those properties is exactly the lines iteration yields |
| Text.FileLinesOfWritten | polly.py:88 | a file made of newline-terminated lines reads back as exactly those lines |
| LineFilter.Classify | polly.py:75-86 | the decision the loop body makes on one line; `ClassifyMeaning` and `ClassifyLine` state its meaning |
| LineFilter.ClassifyMeaning | polly.py:74-88 | blank means all whitespace; a stop marker is a page marker that contains the stop page; every other kind carries the stripped, non-empty line, newline-free for a file line, and records whether it is a page marker |
| LineFilter.ClassifyLine | polly.py:77-88 | a line ends the scan exactly when it is a marker containing the stop page; otherwise it is written exactly when it is non-blank and, with page numbers removed, not a marker; what is written is the stripped line |
| LineFilter.KindAt | polly.py:75-83 | the kind of line `i` is given by the loop body's three tests on that line, in order |
| LineFilter.WriteLines | polly.py:71-91 | the loop writes, leaves the iterator and raises exactly as `Scan` says; it raises the not-found message only when a stop page was given and never met |
| LineFilter.Scan | polly.py:74-88 | the `for` loop over the kinds of the lines from `i` on; the iterator never moves backwards or past the end; `ScanStopsAtFirstMarker`, `ScanWithoutMarker` and `ScanFound` relate it to `Formatted` |
| LineFilter.Formatted | polly.py:77-88 | the reference output: one written line per kept line, so as many lines as `CountKept`; `FormattedSound` and `FormattedComplete` state which lines, in which order |
| LineFilter.ScanStopsAtFirstMarker | polly.py:80-83 | the scan ends at the first stop marker, leaves the iterator just past it, writes the kept lines before it and reports the page found |
| LineFilter.ScanWithoutMarker | polly.py:74-88 | with no stop marker ahead, the scan writes every kept line, consumes every line and reports the page not found |
| LineFilter.ScanFound | polly.py:72-91 | `found_stop_page` is set exactly when a stop marker lies ahead; otherwise the whole file is consumed |
| LineFilter.StopsAtFirstStopLine | polly.py:80-83 | the same as ScanStopsAtFirstMarker, stated on the lines of the file and the stop page |
| LineFilter.RunsToEnd | polly.py:74-91 | the same as ScanWithoutMarker, stated on the lines of the file |
| LineFilter.FormattedSound | polly.py:88 | the `k`-th written line is the `k`-th kept line followed by a newline |
| LineFilter.FormattedComplete | polly.py:88 | every kept line is written, at the position given by the number of kept lines before it |
| LineFilter.WrittenWithoutMarkers | polly.py:80-88 | with page numbers removed, every written line is a non-blank, non-marker line of the scanned range, stripped and terminated |
| LineFilter.WrittenKeepsEveryLine | polly.py:77-88 | with page numbers kept, every non-blank line that is not a stop line is written, in input order |
| LineFilter.ScanWritesLines | polly.py:88 | every line written holds a newline only at its end |
| LineFilter.ScanErrorMeaning | polly.py:90-91 | a run from `pos` raises exactly when it was given a stop page and no line from `pos` on is a page marker containing it; the message is "Could not find supplied page number " followed by the page |
| Chunker.EscapeMeaning | polly.py:51 | an escaped chunk holds no newline, has a backslash before every quote, and is longer than the raw text by its number of quotes |
| Chunker.Escape | polly.py:51 | `replace('"', '\\"').replace('\n', ' ')`; `EscapeAt`, `EscapeMeaning` and `EscapeEmpty` state its meaning |
| Chunker.EscapeAt | polly.py:51 | every character of the raw text survives at its position plus the number of quotes before it: as itself, as a space when it was a newline, or as a backslash and the quote when it was a quote |
| Chunker.EscapeEmpty | polly.py:51 | a chunk is empty exactly when its raw text is empty |
| Chunker.ChunkEnd | polly.py:46-49 | a chunk stops just after the first line that takes its text past 1150 characters, or at the end of the file; it takes at least one line when any is left |
| Chunker.ChunkEndUnique | polly.py:46-49 | any end point with those properties is `ChunkEnd`: the stopping rule has one answer |
| Chunker.GetPollyChunk | polly.py:43-53 | the method returns the escaped text of the lines up to `ChunkEnd` and leaves the iterator there; the text without its last line fits in 1150 characters; when no line is empty, the chunk is empty exactly at end of file |
| Chunker.RawChunks | polly.py:35-40 | the raw texts of the chunks the main loop sends, until an empty one; there are at most as many chunks as lines left; `RawChunksCover` and `RawChunksBounded` state their meaning |
| Chunker.RawChunksCover | polly.py:35-49 | when no line is empty, the chunks joined in order are exactly the rest of the file: nothing is lost or repeated |
| Chunker.RawChunksBounded | polly.py:45-49 | every chunk is non-empty and at most 1150 characters plus the longest line |
| Chunker.EscapedChunks | polly.py:51 | no chunk handed to the synthesis command holds a newline, and every quote in it is escaped |
| Polly.NatTextValue | polly.py:81 | the decimal text used for a non-negative page number reads back as that number |
| Polly.PageText | polly.py:19-21 | `str(n)` for the integer page option, negative pages included; it is non-empty, starts with a minus sign exactly when the page is negative, and its digits have no leading zero; `PageTextCanonical`, `PageTextValue` and `NatTextUnique` state its meaning |
| Polly.NatText | polly.py:81 | the decimal text of a page number: digits only, with no leading zero, starting with '0' only for zero itself |
| Polly.NatTextUnique | polly.py:81 | any decimal text without leading zeros that reads back as `n` is the text `str(n)` gives |
| Polly.PageTextValue | polly.py:19-21 | the text used for any page number, with a minus sign for a negative one, reads back as that number |
| Polly.SkipToStartLine | polly.py:65-68 | the skip is a discarded scan for the start page with page numbers removed; it returns where the scan leaves the iterator, or the not-found error |
| Polly.FormatBookToTempFile | polly.py:56-62 | the method writes `Formatting`: the start-page skip when a start page is given, then a scan to the end page |
| Polly.Formatting | polly.py:56-62 | what `format_book_to_temp_file` writes, or the error it raises; `StartPageSkipsAhead`, `StartPageMissing`, `LastPageStops`, `LastPageMissing` and `NoLastPage` state its meaning |
| Polly.StartPageSkipsAhead | polly.py:59-68 | with a start page, formatting begins just after the first marker containing it, as if the file began there |
| Polly.StartPageMissing | polly.py:65-68 | a start page that no marker contains raises the not-found error |
| Polly.LastPageStops | polly.py:80-83 | with an end page, the temp file gets the kept lines up to the first marker containing it, and not that marker |
| Polly.LastPageMissing | polly.py:90-91 | an end page that no remaining marker contains raises the not-found error |
| Polly.NoLastPage | polly.py:62 | without an end page nothing is raised and every kept line is written |
| Polly.FinalScan | polly.py:62 | the second `write_lines` run of `format_book_to_temp_file`; `LastPageStops`, `LastPageMissing` and `NoLastPage` state its meaning |
| Polly.TempFileReadsBack | polly.py:28-31 | every line written to the temp file is terminated, so reading it back yields exactly the written lines |
| Polly.SendChunks | polly.py:35-40 | the main loop sends every chunk, in order, until `get_polly_chunk` returns an empty one |
| Polly.CreateAudioBook | polly.py:25-40 | the chunks sent for a book, or the error raised while formatting it, before any chunk is sent |
| Polly.AudioBookCoversText | polly.py:25-53 | on success, the chunks joined are exactly the temp file's text, and no chunk sent holds a newline |
| AsWritten.WriteLinesAsWritten | polly.py:71-91 | the `write_lines` loop as written, with dynamically typed `out_file` and `stop_page_num`; `AsWrittenAgrees`, `AsWrittenStep`, `SkipAsWrittenAlwaysRaises` and `IntEndPageRaises` state its meaning |
| AsWritten.AsWrittenAgrees | polly.py:71-91 | called with a file to write to and a string stop page, the loop as written is exactly the modelled scan, including when it raises |
| AsWritten.AsWrittenStep | polly.py:74-88 | one iteration of the loop as written: it returns at a stop marker, moves on past a skipped line, and puts the stripped line in front of what the rest writes |
| AsWritten.SkipAsWrittenAlwaysRaises | polly.py:65-68 | `write_lines(file, start_page_num, dev_null)` raises whatever the file holds |
| AsWritten.IntEndPageRaises | polly.py:80-91 | an integer end page makes `write_lines` raise whatever the file holds |
| AsWritten.FormattingAsWritten | polly.py:56-68 | `format_book_to_temp_file` as written, passing the integer page options unchanged and the start-page arguments swapped; `PageOptionsAlwaysRaise` states its meaning |
| AsWritten.PageOptionsAlwaysRaise | polly.py:56-68 | as written, every run with a start page or an end page raises; a run with neither writes what `Polly.Formatting` writes |
| AsWritten.StartPageCounterexample | polly.py:65-68 | `--start-page 7` on a three-line book raises AttributeError at its heading |
| AsWritten.EndPageCounterexample | polly.py:81 | `--end-page 7` on the page-7 marker raises TypeError |

## Left out

- The `click` command line and option parsing. Pages arrive as `Option<int>`; the `--input-file` and `--output-file` names are not modelled.
- File I/O: opening the input file, the temporary files, `seek(0)`, the null device, and writing the audio to the output file. The book is a string and the temp file is the sequence of lines written to it.
- `subprocess.call` and the `aws polly` command. The model records the chunks handed to it, in order. The command string itself, the voice and output format, and the audio are left out.
- Shell quoting. Only the `"` escape that `get_polly_chunk` performs is modelled. Backticks, `$` and backslashes already in the text are not.
- Chunker.Escape: the UTF-8 `decode(..., errors='ignore')`/`encode` round trip is taken as the identity. This holds on valid UTF-8 text but drops invalid bytes in the source.
- Text.Strip: Python 2 `str` is a byte string, and one character stands for one byte. Whitespace is the ASCII set `" \t\n\r\x0b\x0c"`, with no Unicode whitespace or digits.
- Chunker.GetPollyChunk: an empty line cannot come out of file iteration. For an arbitrary line sequence, the chunk-empty-at-end property is stated only for sequences without empty lines.
- PageNumbers.IsPageNumberLine requires a non-blank line. Python raises IndexError on a blank line, but every caller skips blank lines first.

## Findings

| source | as written | input that shows it | evidently intended | confidence | as-written member | corrected member |
|---|---|---|---|---|---|---|
| polly.py:65-68 | `write_lines(file, start_page_num, dev_null)` passes the start page as `out_file` and the null device as `stop_page_num` | `--start-page 7` on the book "Chapter One", "7", "It was a dark night.": the heading is not a marker, so `start_page_num.write` raises AttributeError | `write_lines(file, dev_null, start_page_num)`, which skips to just after the page-7 marker | high; not executed | AsWritten.StartPageCounterexample | Polly.StartPageSkipsAhead |
| polly.py:19-23 | `--start-page`/`--end-page` are parsed as `int`, and `stop_page_num in formatted_line` needs a string | `--end-page 7` on a book whose line is "7": `7 in "7"` raises TypeError | `str(stop_page_num) in formatted_line`, which stops at that marker | high; not executed | AsWritten.EndPageCounterexample | Polly.LastPageStops |
