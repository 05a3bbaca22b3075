/**
 * `write_lines` and `format_book_to_temp_file` exactly as the script calls
 * them, with Python's dynamically typed arguments. Two calls pass values of
 * the wrong type: `skip_to_start_line` passes the start page as `out_file`
 * and the null device as `stop_page_num`, and the `--start-page`/`--end-page`
 * options arrive as integers where `stop_page_num in formatted_line` needs a
 * string. The lemmas here show that both make every run with a page option
 * raise; `Polly` models the evidently intended calls.
 */
module AsWritten {
  import opened Wrappers
  import opened Text
  import opened PageNumbers
  import opened LineFilter
  import Polly

  /** The values the script passes as `out_file` and `stop_page_num`. */
  datatype PyValue = PyNone | PyStr(s: string) | PyInt(n: int) | PyFile

  /** The exceptions a `write_lines` run can raise. */
  datatype PyError =
    | TypeError                   // `x in formatted_line` with `x` not a string
    | AttributeError              // `out_file.write(...)` with `out_file` not a file
    | RuntimeError(page: PyValue) // "Could not find supplied page number {}"

  /** What a run does: returns, having written lines and moved the iterator, or raises. */
  datatype Outcome = Returned(written: seq<string>, next: nat) | Raised(error: PyError)

  /** The `for` loop of `write_lines(file, out_file, stop_page_num, remove_page_numbers)` from line `i`, as written. */
  function WriteLinesAsWritten(lines: seq<string>, i: nat, outFile: PyValue, stop: PyValue, removePageNumbers: bool)
    : (r: Outcome)
    requires i <= |lines|
    ensures r.Returned? ==> i <= r.next <= |lines|
    decreases |lines| - i
  {
    if i == |lines| then
      if stop != PyNone then Raised(RuntimeError(stop)) else Returned([], i)
    else
      var f := Strip(lines[i]);
      if f == [] then WriteLinesAsWritten(lines, i + 1, outFile, stop, removePageNumbers)
      else if IsPageNumberLine(f) && stop != PyNone && !stop.PyStr? then Raised(TypeError)
      else if IsPageNumberLine(f) && stop.PyStr? && Contains(f, stop.s) then Returned([], i + 1)
      else if IsPageNumberLine(f) && removePageNumbers then
        WriteLinesAsWritten(lines, i + 1, outFile, stop, removePageNumbers)
      else if !outFile.PyFile? then Raised(AttributeError)
      else
        match WriteLinesAsWritten(lines, i + 1, outFile, stop, removePageNumbers)
        case Returned(w, n) => Returned([Terminate(f)] + w, n)
        case Raised(e) => Raised(e)
  }

  /** A stop page as the intended code passes it. */
  function ToPy(stop: Option<string>): (v: PyValue) {
    if stop.Some? then PyStr(stop.value) else PyNone
  }

  /**
   * From line `i`, the as-written loop, called with a file to write to and
   * the stop page as a string (or none), does what the modelled scan does:
   * it raises the not-found RuntimeError exactly when `ScanError` reports
   * one, and otherwise writes the same lines and leaves the iterator at the
   * same place.
   */
  predicate Agrees(lines: seq<string>, i: nat, stop: Option<string>, removePageNumbers: bool)
    requires i <= |lines|
  {
    var r := Scan(Classified(lines, stop), i, removePageNumbers);
    WriteLinesAsWritten(lines, i, PyFile, ToPy(stop), removePageNumbers)
      == if ScanError(r, stop).Some? then Raised(RuntimeError(ToPy(stop))) else Returned(r.written, r.next)
  }

  /**
   * Called with a file to write to and a string stop page (or none), the
   * as-written loop is exactly the scan `LineFilter.WriteLines` is proved
   * against, including when it raises.
   */
  lemma {:induction false} AsWrittenAgrees(lines: seq<string>, i: nat, stop: Option<string>, removePageNumbers: bool)
    requires i <= |lines|
    ensures Agrees(lines, i, stop, removePageNumbers)
    decreases |lines| - i
  {
    if i < |lines| {
      AsWrittenStep(lines, i, stop, removePageNumbers);
      var k := Classified(lines, stop)[i];
      if k.StopMarker? {
        AgreesAtStop(lines, i, stop, removePageNumbers);
      } else {
        AsWrittenAgrees(lines, i + 1, stop, removePageNumbers);
        if Kept(k, removePageNumbers) {
          AgreesAtKept(lines, i, stop, removePageNumbers);
        } else {
          AgreesAtSkipped(lines, i, stop, removePageNumbers);
        }
      }
    }
  }

  lemma AgreesAtStop(lines: seq<string>, i: nat, stop: Option<string>, removePageNumbers: bool)
    requires i < |lines| && Classified(lines, stop)[i].StopMarker?
    ensures Agrees(lines, i, stop, removePageNumbers)
  {
    AsWrittenStep(lines, i, stop, removePageNumbers);
  }

  lemma AgreesAtSkipped(lines: seq<string>, i: nat, stop: Option<string>, removePageNumbers: bool)
    requires i < |lines| && !Classified(lines, stop)[i].StopMarker? && !Kept(Classified(lines, stop)[i], removePageNumbers)
    requires Agrees(lines, i + 1, stop, removePageNumbers)
    ensures Agrees(lines, i, stop, removePageNumbers)
  {
    AsWrittenStep(lines, i, stop, removePageNumbers);
  }

  lemma AgreesAtKept(lines: seq<string>, i: nat, stop: Option<string>, removePageNumbers: bool)
    requires i < |lines| && Kept(Classified(lines, stop)[i], removePageNumbers)
    requires Agrees(lines, i + 1, stop, removePageNumbers)
    ensures Agrees(lines, i, stop, removePageNumbers)
  {
    AsWrittenStep(lines, i, stop, removePageNumbers);
  }

  /** One iteration of the as-written loop, by the kind of line `i`. */
  lemma AsWrittenStep(lines: seq<string>, i: nat, stop: Option<string>, removePageNumbers: bool)
    requires i < |lines|
    ensures var k := Classified(lines, stop)[i];
      var here := WriteLinesAsWritten(lines, i, PyFile, ToPy(stop), removePageNumbers);
      var rest := WriteLinesAsWritten(lines, i + 1, PyFile, ToPy(stop), removePageNumbers);
      && (k.StopMarker? ==> here == Returned([], i + 1))
      && (!k.StopMarker? && !Kept(k, removePageNumbers) ==> here == rest)
      && (Kept(k, removePageNumbers) ==>
            here == if rest.Returned? then Returned([Terminate(k.text)] + rest.written, rest.next) else rest)
  {
    KindAt(lines, stop, i);
  }

  /**
   * `skip_to_start_line` as written, `write_lines(file, start_page_num,
   * dev_null)`, raises whatever the file holds: the first non-blank line
   * either tests `dev_null in formatted_line` (TypeError) or calls
   * `start_page_num.write` (AttributeError), and a file with no such line
   * ends in the not-found RuntimeError.
   */
  lemma {:induction false} SkipAsWrittenAlwaysRaises(lines: seq<string>, i: nat, startPage: int)
    requires i <= |lines|
    ensures WriteLinesAsWritten(lines, i, PyInt(startPage), PyFile, true).Raised?
    decreases |lines| - i
  {
    if i < |lines| {
      var f := Strip(lines[i]);
      SkipAsWrittenAlwaysRaises(lines, i + 1, startPage);
      if f != [] && IsPageNumberLine(f) {
        assert WriteLinesAsWritten(lines, i, PyInt(startPage), PyFile, true) == Raised(TypeError);
      } else if f != [] {
        assert WriteLinesAsWritten(lines, i, PyInt(startPage), PyFile, true) == Raised(AttributeError);
      }
    }
  }

  /**
   * An integer end page, as `--end-page` delivers it, makes `write_lines`
   * raise: at the first page marker `stop_page_num in formatted_line` is a
   * TypeError, and without any marker the page is not found.
   */
  lemma {:induction false} IntEndPageRaises(lines: seq<string>, i: nat, endPage: int, removePageNumbers: bool)
    requires i <= |lines|
    ensures WriteLinesAsWritten(lines, i, PyFile, PyInt(endPage), removePageNumbers).Raised?
    decreases |lines| - i
  {
    if i < |lines| {
      var f := Strip(lines[i]);
      IntEndPageRaises(lines, i + 1, endPage, removePageNumbers);
      if f != [] && IsPageNumberLine(f) {
        assert WriteLinesAsWritten(lines, i, PyFile, PyInt(endPage), removePageNumbers) == Raised(TypeError);
      }
    }
  }

  /** `format_book_to_temp_file` as written: what it writes to the temp file, or what it raises. */
  function FormattingAsWritten(lines: seq<string>, startPage: Option<int>, lastPage: Option<int>, removePageNumbers: bool)
    : (o: Outcome)
  {
    var pos :=
      if startPage.None? then Returned([], 0)
      else WriteLinesAsWritten(lines, 0, PyInt(startPage.value), PyFile, true);
    match pos
    case Raised(e) => Raised(e)
    case Returned(_, next) =>
      var stop := if lastPage.Some? then PyInt(lastPage.value) else PyNone;
      WriteLinesAsWritten(lines, next, PyFile, stop, removePageNumbers)
  }

  /**
   * As written, every run given a start page or an end page raises; a run
   * given neither writes what the intended `Polly.Formatting` writes.
   */
  lemma PageOptionsAlwaysRaise(lines: seq<string>, startPage: Option<int>, lastPage: Option<int>, removePageNumbers: bool)
    ensures startPage.Some? || lastPage.Some? ==>
      FormattingAsWritten(lines, startPage, lastPage, removePageNumbers).Raised?
    ensures startPage.None? && lastPage.None? ==>
      FormattingAsWritten(lines, startPage, lastPage, removePageNumbers)
        == Returned(Polly.Formatting(lines, None, None, removePageNumbers).value, |lines|)
  {
    if startPage.Some? {
      SkipAsWrittenAlwaysRaises(lines, 0, startPage.value);
    } else if lastPage.Some? {
      IntEndPageRaises(lines, 0, lastPage.value, removePageNumbers);
    } else {
      AsWrittenAgrees(lines, 0, None, removePageNumbers);
      RunsToEnd(lines, None, 0, removePageNumbers);
    }
  }

  /** The concrete book below: a heading, the marker of page 7 and a sentence. */
  function ThreeLineBook(): (book: seq<string>) {
    ["Chapter One\n", "7\n", "It was a dark night.\n"]
  }

  /** The heading of that book is not a page marker. */
  lemma HeadingIsNotMarker()
    ensures Strip("Chapter One\n") == "Chapter One" && !IsPageNumberLine("Chapter One")
  {
    var line, heading := "Chapter One\n", "Chapter One";
    TrimEndUnique(line, |line|, |heading|);
    assert FirstWord(heading)[0] == 'C' && LastWord(heading)[|LastWord(heading)| - 1] == 'e';
  }

  /**
   * Asked to start at page 7, the script as written raises AttributeError on
   * the heading, before it ever reaches the marker; the intended skip
   * (`Polly.StartPageSkipsAhead`) would start after the marker.
   */
  lemma StartPageCounterexample()
    ensures FormattingAsWritten(ThreeLineBook(), Some(7), None, true) == Raised(AttributeError)
  {
    HeadingIsNotMarker();
    assert ThreeLineBook()[0] == "Chapter One\n";
  }

  /**
   * A book holding only the marker of page 7: with `--end-page 7` the script
   * as written raises TypeError on that very marker, where the intended stop
   * page "7" ends the scan there (`Polly.LastPageStops`).
   */
  lemma EndPageCounterexample()
    ensures WriteLinesAsWritten(["7\n"], 0, PyFile, PyInt(7), true) == Raised(TypeError)
  {
    var line, marker := "7\n", "7";
    TrimEndUnique(line, |line|, |marker|);
    assert FirstWord(marker) == marker;
  }
}
