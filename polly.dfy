/**
 * `Polly.create_audio_book` and `Polly.format_book_to_temp_file`, with the
 * start-page skip as it is evidently meant: a discarded `write_lines` run
 * that stops at the start-page marker. The book is the text of the input
 * file; the temp file is the concatenation of the lines written to it; the
 * synthesis command is a sink that receives each chunk in order.
 */
module Polly {
  import opened Wrappers
  import opened Text
  import opened LineFilter
  import opened Chunker

  /** The character of a decimal digit. */
  function Digit(d: nat): (c: char)
    requires d < 10
    ensures '0' <= c <= '9'
  {
    ('0' as int + d) as char
  }

  /** The value of a string of decimal digits. */
  function DigitsValue(s: string): (v: nat) {
    if s == [] then 0
    else
      var c := s[|s| - 1];
      DigitsValue(s[..|s| - 1]) * 10 + (if '0' <= c <= '9' then c as int - '0' as int else 0)
  }

  /** Decimal digits as `str` writes them: no leading zero unless the number is zero itself. */
  predicate IsCanonicalDigits(s: string) {
    IsDigits(s) && (s[0] == '0' ==> |s| == 1)
  }

  /** Python's `str(n)` for a natural number: its decimal digits, most significant first. */
  function NatText(n: nat): (s: string)
    ensures IsCanonicalDigits(s)
    ensures s[0] == '0' <==> n == 0
    decreases n
  {
    if n < 10 then [Digit(n)] else NatText(n / 10) + [Digit(n % 10)]
  }

  /** `str(n)` reads back as `n`. */
  lemma {:induction false} NatTextValue(n: nat)
    ensures DigitsValue(NatText(n)) == n
    decreases n
  {
    var s := NatText(n);
    if n < 10 {
      assert s[..0] == [];
    } else {
      NatTextValue(n / 10);
      assert s[..|s| - 1] == NatText(n / 10);
    }
  }

  /** Python's `str(n)` for a page number as `--start-page`/`--end-page` parse it. */
  function PageText(n: int): (t: string)
    ensures t != [] && (t[0] == '-' <==> n < 0)
  {
    if n < 0 then "-" + NatText(-n) else NatText(n)
  }

  /** The digits of `str(n)`, after the minus sign of a negative page, have no leading zero. */
  lemma PageTextCanonical(n: int)
    ensures var t := PageText(n); IsCanonicalDigits(if n < 0 then t[1..] else t)
  {
    if n < 0 {
      assert PageText(n)[1..] == NatText(-n);
    }
  }

  /** A string of digits with a non-zero first digit is worth at least one. */
  lemma {:induction false} LeadingDigitPositive(s: string)
    requires IsDigits(s) && s[0] != '0'
    ensures DigitsValue(s) >= 1
    decreases |s|
  {
    if |s| > 1 {
      LeadingDigitPositive(s[..|s| - 1]);
    }
  }

  /**
   * `str(n)` is the only way of writing `n` in decimal without leading zeros:
   * any such digit string worth `n` is `NatText(n)`.
   */
  lemma {:induction false} NatTextUnique(s: string, n: nat)
    requires IsCanonicalDigits(s) && DigitsValue(s) == n
    ensures s == NatText(n)
    decreases |s|
  {
    var c := s[|s| - 1];
    var init := s[..|s| - 1];
    if |s| == 1 {
      assert init == [];
      assert s == [Digit(n)];
    } else {
      assert init[0] == s[0];
      LeadingDigitPositive(init);
      NatTextUnique(init, n / 10);
      assert s == init + [c];
    }
  }

  /** The value of a page number's text: an optional minus sign, then decimal digits. */
  function PageValue(s: string): (v: int) {
    if s != [] && s[0] == '-' then -(DigitsValue(s[1..]) as int) else DigitsValue(s)
  }

  /** `str(n)` reads back as `n`, negative page numbers included. */
  lemma PageTextValue(n: int)
    ensures PageValue(PageText(n)) == n
  {
    var t := PageText(n);
    if n < 0 {
      var d := NatText(-n);
      NatTextValue(-n);
      assert t == "-" + d;
      assert t[1..] == d;
    } else {
      NatTextValue(n);
      assert t == NatText(n);
    }
  }

  /** The stop page `write_lines` is given for an optional page number. */
  function PageStop(page: Option<int>): (stop: Option<string>)
    ensures stop.Some? <==> page.Some?
  {
    if page.Some? then Some(PageText(page.value)) else None
  }

  /**
   * `skip_to_start_line(file, start_page_num)`: a `write_lines` run whose
   * output goes to the null device and whose stop page is the start page.
   * Returns where it leaves the iterator and the RuntimeError it raises when
   * the start page is never found.
   */
  method SkipToStartLine(lines: seq<string>, pos: nat, startPage: string) returns (next: nat, error: Option<string>)
    requires pos <= |lines|
    ensures var r := Scan(Classified(lines, Some(startPage)), pos, true);
      next == r.next && error == ScanError(r, Some(startPage))
  {
    var discarded;
    discarded, next, error := WriteLines(lines, pos, Some(startPage), true);
  }

  /** The second `write_lines` run of `format_book_to_temp_file`, from iterator position `pos`. */
  function FinalScan(lines: seq<string>, lastPage: Option<int>, pos: nat, removePageNumbers: bool): (res: Result<seq<string>>)
    requires pos <= |lines|
  {
    var stop := PageStop(lastPage);
    var r := Scan(Classified(lines, stop), pos, removePageNumbers);
    if stop.Some? && !r.found then Failure(NotFoundMessage(stop.value)) else Success(r.written)
  }

  /** What `format_book_to_temp_file` writes to the temp file, or the RuntimeError it raises. */
  function Formatting(lines: seq<string>, startPage: Option<int>, lastPage: Option<int>, removePageNumbers: bool)
    : (res: Result<seq<string>>)
  {
    if startPage.None? then FinalScan(lines, lastPage, 0, removePageNumbers)
    else
      var skip := Scan(Classified(lines, Some(PageText(startPage.value))), 0, true);
      if !skip.found then Failure(NotFoundMessage(PageText(startPage.value)))
      else FinalScan(lines, lastPage, skip.next, removePageNumbers)
  }

  /**
   * `format_book_to_temp_file(file_name, out_file, start_page, last_page,
   * remove_page_numbers)` over the lines of the input file.
   */
  method FormatBookToTempFile(lines: seq<string>, startPage: Option<int>, lastPage: Option<int>, removePageNumbers: bool)
    returns (result: Result<seq<string>>)
    ensures result == Formatting(lines, startPage, lastPage, removePageNumbers)
  {
    var pos := 0;
    if startPage.Some? {
      var error;
      pos, error := SkipToStartLine(lines, 0, PageText(startPage.value));
      if error.Some? {
        return Failure(error.value);
      }
    }
    var written, next, error := WriteLines(lines, pos, PageStop(lastPage), removePageNumbers);
    if error.Some? {
      return Failure(error.value);
    }
    result := Success(written);
  }

  /**
   * With a start page, formatting begins just after the first marker that
   * contains it, exactly as if the file began there; the marker itself and
   * everything before it are dropped.
   */
  lemma StartPageSkipsAhead(lines: seq<string>, startPage: int, lastPage: Option<int>, removePageNumbers: bool, j: nat)
    requires j < |lines| && IsStopLine(lines[j], PageText(startPage))
    requires forall m :: 0 <= m < j ==> !IsStopLine(lines[m], PageText(startPage))
    ensures Formatting(lines, Some(startPage), lastPage, removePageNumbers)
      == FinalScan(lines, lastPage, j + 1, removePageNumbers)
  {
    SkipStopsAfter(lines, PageText(startPage), j);
    FormattingAfterSkip(lines, startPage, lastPage, removePageNumbers);
  }

  /** The discarded skip run finds the page at its first marker `j` and leaves the iterator just past it. */
  lemma SkipStopsAfter(lines: seq<string>, page: string, j: nat)
    requires j < |lines| && IsStopLine(lines[j], page)
    requires forall m :: 0 <= m < j ==> !IsStopLine(lines[m], page)
    ensures var r := Scan(Classified(lines, Some(page)), 0, true); r.found && r.next == j + 1
  {
    StopsAtFirstStopLine(lines, page, 0, true, j);
  }

  /** Once the skip finds the start page, formatting is the final scan from where the skip stopped. */
  lemma FormattingAfterSkip(lines: seq<string>, startPage: int, lastPage: Option<int>, removePageNumbers: bool)
    requires Scan(Classified(lines, Some(PageText(startPage))), 0, true).found
    ensures Formatting(lines, Some(startPage), lastPage, removePageNumbers)
      == FinalScan(lines, lastPage, Scan(Classified(lines, Some(PageText(startPage))), 0, true).next, removePageNumbers)
  {
  }

  /** A start page that no marker contains raises "Could not find supplied page number". */
  lemma StartPageMissing(lines: seq<string>, startPage: int, lastPage: Option<int>, removePageNumbers: bool)
    requires forall m :: 0 <= m < |lines| ==> !IsStopLine(lines[m], PageText(startPage))
    ensures Formatting(lines, Some(startPage), lastPage, removePageNumbers)
      == Failure("Could not find supplied page number " + PageText(startPage))
  {
    RunsToEnd(lines, Some(PageText(startPage)), 0, true);
  }

  /**
   * With an end page, the temp file receives the kept lines up to the first
   * marker that contains it, and that marker is not written.
   */
  lemma LastPageStops(lines: seq<string>, lastPage: int, pos: nat, removePageNumbers: bool, k: nat)
    requires pos <= k < |lines| && IsStopLine(lines[k], PageText(lastPage))
    requires forall m :: pos <= m < k ==> !IsStopLine(lines[m], PageText(lastPage))
    ensures FinalScan(lines, Some(lastPage), pos, removePageNumbers)
      == Success(Formatted(Classified(lines, Some(PageText(lastPage)))[pos..k], removePageNumbers))
  {
    StopsAtFirstStopLine(lines, PageText(lastPage), pos, removePageNumbers, k);
  }

  /** An end page that no remaining marker contains raises "Could not find supplied page number". */
  lemma LastPageMissing(lines: seq<string>, lastPage: int, pos: nat, removePageNumbers: bool)
    requires pos <= |lines|
    requires forall m :: pos <= m < |lines| ==> !IsStopLine(lines[m], PageText(lastPage))
    ensures FinalScan(lines, Some(lastPage), pos, removePageNumbers)
      == Failure("Could not find supplied page number " + PageText(lastPage))
  {
    RunsToEnd(lines, Some(PageText(lastPage)), pos, removePageNumbers);
  }

  /** Without an end page nothing is raised and every kept line from `pos` on is written. */
  lemma NoLastPage(lines: seq<string>, pos: nat, removePageNumbers: bool)
    requires pos <= |lines|
    ensures FinalScan(lines, None, pos, removePageNumbers)
      == Success(Formatted(Classified(lines, None)[pos..], removePageNumbers))
  {
    RunsToEnd(lines, None, pos, removePageNumbers);
  }

  /**
   * Every line written to the temp file is a terminated line, so the main
   * loop reads back from it exactly the lines that were written.
   */
  lemma {:induction false} TempFileReadsBack(book: string, startPage: Option<int>, lastPage: Option<int>, removePageNumbers: bool)
    requires Formatting(FileLines(book), startPage, lastPage, removePageNumbers).Success?
    ensures var w := Formatting(FileLines(book), startPage, lastPage, removePageNumbers).value;
      && (forall k :: 0 <= k < |w| ==> IsTerminatedLine(w[k]))
      && FileLines(Concat(w)) == w
  {
    var lines := FileLines(book);
    FileLinesSplit(book);
    var stop := PageStop(lastPage);
    ClassifiedSingleLine(lines, stop);
    var pos := 0;
    if startPage.Some? {
      pos := Scan(Classified(lines, Some(PageText(startPage.value))), 0, true).next;
    }
    ScanWritesLines(Classified(lines, stop), pos, removePageNumbers);
    FileLinesOfWritten(Formatting(lines, startPage, lastPage, removePageNumbers).value);
  }

  /**
   * The `while chunk:` loop of `create_audio_book` over the temp file's
   * lines: every chunk `get_polly_chunk` returns, in order, until it returns
   * an empty one.
   */
  method SendChunks(lines: seq<string>) returns (sent: seq<string>)
    ensures sent == Escaped(RawChunks(lines, 0))
  {
    sent := [];
    ghost var at := 0;
    var chunk, pos := GetPollyChunk(lines, 0);
    while chunk != []
      invariant at <= pos <= |lines| && pos == ChunkEnd(lines, at)
      invariant chunk == Escape(Concat(lines[at..pos]))
      invariant sent + Escaped(RawChunks(lines, at)) == Escaped(RawChunks(lines, 0))
      decreases |lines| - at
    {
      assert Escaped(RawChunks(lines, at)) == [chunk] + Escaped(RawChunks(lines, pos));
      sent := sent + [chunk];
      at := pos;
      chunk, pos := GetPollyChunk(lines, pos);
    }
  }

  /**
   * The chunks handed to the synthesis command for a book, or the
   * RuntimeError raised while formatting it (before any chunk is sent).
   */
  function AudioBook(book: string, startPage: Option<int>, endPage: Option<int>, removePageNumbers: bool)
    : (res: Result<seq<string>>)
  {
    match Formatting(FileLines(book), startPage, endPage, removePageNumbers)
    case Failure(e) => Failure(e)
    case Success(w) => Success(Escaped(RawChunks(FileLines(Concat(w)), 0)))
  }

  /**
   * `create_audio_book(input_file, output_file, start_page, end_page,
   * remove_page_numbers)`: formats the book into the temp file, rewinds it,
   * and sends its chunks in order.
   */
  method CreateAudioBook(book: string, startPage: Option<int>, endPage: Option<int>, removePageNumbers: bool)
    returns (result: Result<seq<string>>)
    ensures result == AudioBook(book, startPage, endPage, removePageNumbers)
  {
    var formatted := FormatBookToTempFile(FileLines(book), startPage, endPage, removePageNumbers);
    if formatted.Failure? {
      return Failure(formatted.error);
    }
    var tempFile := Concat(formatted.value);
    var sent := SendChunks(FileLines(tempFile));
    result := Success(sent);
  }

  /**
   * End to end: when formatting succeeds, the raw chunks, joined in order,
   * are exactly the text of the temp file, and every chunk sent holds no
   * newline and escapes every quote.
   */
  lemma AudioBookCoversText(book: string, startPage: Option<int>, endPage: Option<int>, removePageNumbers: bool)
    requires Formatting(FileLines(book), startPage, endPage, removePageNumbers).Success?
    ensures var w := Formatting(FileLines(book), startPage, endPage, removePageNumbers).value;
      var raws := RawChunks(FileLines(Concat(w)), 0);
      && Concat(raws) == Concat(w)
      && AudioBook(book, startPage, endPage, removePageNumbers) == Success(Escaped(raws))
      && (forall k, i :: 0 <= k < |raws| && 0 <= i < |Escaped(raws)[k]| ==> Escaped(raws)[k][i] != '\n')
  {
    var w := Formatting(FileLines(book), startPage, endPage, removePageNumbers).value;
    TempFileReadsBack(book, startPage, endPage, removePageNumbers);
    RawChunksCover(w, 0);
    assert w[0..] == w;
    EscapedChunks(RawChunks(w, 0));
  }
}
