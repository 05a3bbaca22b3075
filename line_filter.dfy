/**
 * `Polly.write_lines` and its two uses, `skip_to_start_line` and
 * `format_book_to_temp_file`. The input file is a sequence of lines, the
 * file iterator an index into it, and `out_file` the sequence of strings
 * written to it. The stop page is the page number as a string.
 */
module LineFilter {
  import opened Wrappers
  import opened Text
  import opened PageNumbers

  /** What the loop body of `write_lines` makes of one line, given the stop page. */
  datatype LineKind =
    | Blank                    // empty once stripped: skipped
    | StopMarker               // a page marker containing the stop page: ends the scan
    | PageMarker(text: string) // any other page marker: written unless page numbers are removed
    | Plain(text: string)      // any other line: written

  /** The decisions of the loop body, in the order the script takes them. */
  function Classify(line: string, stop: Option<string>): (k: LineKind) {
    var f := Strip(line);
    if f == [] then Blank
    else if IsPageNumberLine(f) then
      if stop.Some? && Contains(f, stop.value) then StopMarker else PageMarker(f)
    else Plain(f)
  }

  /**
   * A line is blank exactly when it is all whitespace; any other line's text is
   * the line stripped, non-empty, free of newlines when the line came from a
   * file; page markers pass `is_page_number_line` and other lines fail it.
   */
  lemma ClassifyMeaning(line: string, stop: Option<string>)
    ensures var k := Classify(line, stop);
      && (k.Blank? <==> AllSpace(line))
      && (k.StopMarker? ==> stop.Some? && Strip(line) != [] && IsPageNumberLine(Strip(line))
                              && Contains(Strip(line), stop.value))
      && (k.PageMarker? || k.Plain? ==>
            k.text == Strip(line) && k.text != [] && IsStripped(k.text)
            && (IsFileLine(line) ==> forall c :: 0 <= c < |k.text| ==> k.text[c] != '\n'))
      && (k.PageMarker? ==> IsPageNumberLine(k.text) && !(stop.Some? && Contains(k.text, stop.value)))
      && (k.Plain? ==> !IsPageNumberLine(k.text))
  {
    StripBlank(line);
    if IsFileLine(line) {
      StripFileLine(line);
    }
  }

  /** After stripping, `line` passes `is_page_number_line`. */
  predicate IsMarkerLine(line: string) {
    Strip(line) != [] && IsPageNumberLine(Strip(line))
  }

  /** `line` is a page marker whose stripped text contains the stop page. */
  predicate IsStopLine(line: string, page: string) {
    IsMarkerLine(line) && Contains(Strip(line), page)
  }

  /**
   * What `write_lines` does with one line, in terms of the line itself: it
   * ends the scan exactly at a marker containing the stop page; otherwise it
   * writes the stripped line exactly when that is non-empty and, with page
   * numbers removed, not a marker.
   */
  lemma ClassifyLine(line: string, stop: Option<string>, removePageNumbers: bool)
    ensures var k := Classify(line, stop);
      && (k.StopMarker? <==> stop.Some? && IsStopLine(line, stop.value))
      && (Kept(k, removePageNumbers) <==>
            Strip(line) != [] && !(stop.Some? && IsStopLine(line, stop.value))
            && (removePageNumbers ==> !IsMarkerLine(line)))
      && (Kept(k, removePageNumbers) ==> k.text == Strip(line))
  {
  }

  /** The kind of every line of the file. */
  function Classified(lines: seq<string>, stop: Option<string>): (ks: seq<LineKind>)
    ensures |ks| == |lines|
  {
    if lines == [] then [] else [Classify(lines[0], stop)] + Classified(lines[1..], stop)
  }

  /** The `i`-th kind is the kind of the `i`-th line. */
  lemma {:induction false} ClassifiedAt(lines: seq<string>, stop: Option<string>, i: nat)
    requires i < |lines|
    ensures Classified(lines, stop)[i] == Classify(lines[i], stop)
  {
    if i > 0 {
      ClassifiedAt(lines[1..], stop, i - 1);
    }
  }

  /** The `i`-th kind, spelled out as the tests the loop body of `write_lines` makes on line `i`. */
  lemma KindAt(lines: seq<string>, stop: Option<string>, i: nat)
    requires i < |lines|
    ensures var k := Classified(lines, stop)[i]; var f := Strip(lines[i]);
      && (k.Blank? <==> f == [])
      && (k.StopMarker? <==> f != [] && IsPageNumberLine(f) && stop.Some? && Contains(f, stop.value))
      && (k.PageMarker? <==> f != [] && IsPageNumberLine(f) && !(stop.Some? && Contains(f, stop.value)))
      && (k.PageMarker? || k.Plain? ==> k.text == f)
  {
    ClassifiedAt(lines, stop, i);
  }

  /** A line that is written when no stop page ends the scan before it. */
  predicate Kept(k: LineKind, removePageNumbers: bool) {
    k.Plain? || (k.PageMarker? && !removePageNumbers)
  }

  /** What one line adds to `out_file`: `formatted_line + '\n'`, or nothing. */
  function Emit(k: LineKind, removePageNumbers: bool): (out: seq<string>) {
    if Kept(k, removePageNumbers) then [Terminate(k.text)] else []
  }

  /**
   * What one `write_lines` run from iterator position `i` does: the lines it
   * writes, the iterator position it leaves behind, and whether it met the
   * stop page (`found_stop_page`).
   */
  datatype ScanResult = ScanResult(written: seq<string>, next: nat, found: bool)

  /** The `for` loop of `write_lines`, over the kinds of the lines from `i` on. */
  function Scan(ks: seq<LineKind>, i: nat, removePageNumbers: bool): (r: ScanResult)
    requires i <= |ks|
    ensures i <= r.next <= |ks|
    decreases |ks| - i
  {
    if i == |ks| then ScanResult([], i, false)
    else if ks[i].StopMarker? then ScanResult([], i + 1, true)
    else
      var r := Scan(ks, i + 1, removePageNumbers);
      r.(written := Emit(ks[i], removePageNumbers) + r.written)
  }

  /** Reference definition of the output: the kept lines, formatted, in order. */
  function Formatted(ks: seq<LineKind>, removePageNumbers: bool): (out: seq<string>)
    ensures |out| == CountKept(ks, removePageNumbers)
  {
    if ks == [] then [] else Emit(ks[0], removePageNumbers) + Formatted(ks[1..], removePageNumbers)
  }

  /** The number of kept lines. */
  function CountKept(ks: seq<LineKind>, removePageNumbers: bool): (n: nat) {
    if ks == [] then 0 else (if Kept(ks[0], removePageNumbers) then 1 else 0) + CountKept(ks[1..], removePageNumbers)
  }

  lemma FormattedCons(ks: seq<LineKind>, i: nat, j: nat, removePageNumbers: bool)
    requires i < j <= |ks|
    ensures Formatted(ks[i..j], removePageNumbers) == Emit(ks[i], removePageNumbers) + Formatted(ks[i + 1..j], removePageNumbers)
  {
    assert ks[i..j][1..] == ks[i + 1..j];
  }

  /**
   * A scan that meets its first stop marker at `j` writes the kept lines
   * before `j`, leaves the iterator just past `j` (nothing after it is
   * consumed), and reports the stop page found.
   */
  lemma {:induction false} ScanStopsAtFirstMarker(ks: seq<LineKind>, i: nat, removePageNumbers: bool, j: nat)
    requires i <= j < |ks| && ks[j].StopMarker?
    requires forall m :: i <= m < j ==> !ks[m].StopMarker?
    ensures Scan(ks, i, removePageNumbers) == ScanResult(Formatted(ks[i..j], removePageNumbers), j + 1, true)
    decreases j - i
  {
    if i < j {
      ScanStopsAtFirstMarker(ks, i + 1, removePageNumbers, j);
      FormattedCons(ks, i, j, removePageNumbers);
    } else {
      assert ks[i..j] == [];
    }
  }

  /** A scan that meets no stop marker writes every kept line and consumes every line. */
  lemma {:induction false} ScanWithoutMarker(ks: seq<LineKind>, i: nat, removePageNumbers: bool)
    requires i <= |ks|
    requires forall m :: i <= m < |ks| ==> !ks[m].StopMarker?
    ensures Scan(ks, i, removePageNumbers) == ScanResult(Formatted(ks[i..], removePageNumbers), |ks|, false)
    decreases |ks| - i
  {
    if i < |ks| {
      ScanWithoutMarker(ks, i + 1, removePageNumbers);
      FormattedCons(ks, i, |ks|, removePageNumbers);
      assert ks[i..|ks|] == ks[i..] && ks[i + 1..|ks|] == ks[i + 1..];
    }
  }

  /** A scan reports the stop page found exactly when a stop marker lies at or after `i`. */
  lemma {:induction false} ScanFound(ks: seq<LineKind>, i: nat, removePageNumbers: bool)
    requires i <= |ks|
    ensures Scan(ks, i, removePageNumbers).found <==> exists m :: i <= m < |ks| && ks[m].StopMarker?
    ensures !Scan(ks, i, removePageNumbers).found ==> Scan(ks, i, removePageNumbers).next == |ks|
    decreases |ks| - i
  {
    if i < |ks| {
      ScanFound(ks, i + 1, removePageNumbers);
      if !ks[i].StopMarker? && exists m :: i <= m < |ks| && ks[m].StopMarker? {
        var m :| i <= m < |ks| && ks[m].StopMarker?;
        assert m != i;
      }
    }
  }

  /** A kind whose text, if it has one, is non-empty and free of newlines. */
  predicate SingleLine(k: LineKind) {
    (k.PageMarker? || k.Plain?) ==> k.text != [] && forall c :: 0 <= c < |k.text| ==> k.text[c] != '\n'
  }

  /** The lines of a file classify into single-line kinds. */
  lemma ClassifiedSingleLine(lines: seq<string>, stop: Option<string>)
    requires forall j :: 0 <= j < |lines| ==> IsFileLine(lines[j])
    ensures forall j :: 0 <= j < |lines| ==> SingleLine(Classified(lines, stop)[j])
  {
    forall j | 0 <= j < |lines| ensures SingleLine(Classified(lines, stop)[j]) {
      ClassifiedAt(lines, stop, j);
      ClassifyMeaning(lines[j], stop);
    }
  }

  /**
   * Every line a scan of single-line kinds writes is non-empty and ends with
   * its only newline, so the file it is written to reads back line by line.
   */
  lemma {:induction false} ScanWritesLines(ks: seq<LineKind>, i: nat, removePageNumbers: bool)
    requires i <= |ks|
    requires forall j :: i <= j < |ks| ==> SingleLine(ks[j])
    ensures forall k :: 0 <= k < |Scan(ks, i, removePageNumbers).written| ==>
      IsTerminatedLine(Scan(ks, i, removePageNumbers).written[k])
    decreases |ks| - i
  {
    if i < |ks| && !ks[i].StopMarker? {
      ScanWritesLines(ks, i + 1, removePageNumbers);
      if Kept(ks[i], removePageNumbers) {
        var w := Terminate(ks[i].text);
        assert forall c :: 0 <= c < |w| - 1 ==> w[c] == ks[i].text[c];
      }
    }
  }

  /** The position of the `k`-th kept kind, counting from 0; `|ks|` when there are not that many. */
  function KeptIndex(ks: seq<LineKind>, removePageNumbers: bool, k: nat): (j: nat)
    ensures j <= |ks|
  {
    if ks == [] then 0
    else if Kept(ks[0], removePageNumbers) && k == 0 then 0
    else if Kept(ks[0], removePageNumbers) then 1 + KeptIndex(ks[1..], removePageNumbers, k - 1)
    else 1 + KeptIndex(ks[1..], removePageNumbers, k)
  }

  /**
   * The `k`-th written line is the formatted text of the `k`-th kept line:
   * nothing is written that was not kept, and written lines keep their order.
   */
  lemma {:induction false} FormattedSound(ks: seq<LineKind>, removePageNumbers: bool, k: nat)
    requires k < |Formatted(ks, removePageNumbers)|
    ensures var j := KeptIndex(ks, removePageNumbers, k);
      && j < |ks| && Kept(ks[j], removePageNumbers)
      && Formatted(ks, removePageNumbers)[k] == Terminate(ks[j].text)
      && CountKept(ks[..j], removePageNumbers) == k
  {
    var d := |Emit(ks[0], removePageNumbers)|;
    var j := KeptIndex(ks, removePageNumbers, k);
    if d == 1 && k == 0 {
      assert ks[..0] == [];
    } else {
      FormattedSound(ks[1..], removePageNumbers, k - d);
      assert ks[..j][1..] == ks[1..][..j - 1];
    }
  }

  /** Every kept line is written, at the position given by the number of kept lines before it. */
  lemma {:induction false} FormattedComplete(ks: seq<LineKind>, removePageNumbers: bool, j: nat)
    requires j < |ks| && Kept(ks[j], removePageNumbers)
    ensures CountKept(ks[..j], removePageNumbers) < |Formatted(ks, removePageNumbers)|
    ensures Formatted(ks, removePageNumbers)[CountKept(ks[..j], removePageNumbers)] == Terminate(ks[j].text)
  {
    if j == 0 {
      assert ks[..0] == [];
    } else {
      FormattedComplete(ks[1..], removePageNumbers, j - 1);
      assert ks[..j][1..] == ks[1..][..j - 1];
    }
  }

  /** A scan's result once `w` has already been written before it. */
  function Resume(w: seq<string>, r: ScanResult): (resumed: ScanResult) {
    r.(written := w + r.written)
  }

  /** A line the scan skips changes nothing but the iterator position. */
  lemma ResumeSkip(w: seq<string>, ks: seq<LineKind>, i: nat, removePageNumbers: bool)
    requires i < |ks| && !ks[i].StopMarker? && !Kept(ks[i], removePageNumbers)
    ensures Resume(w, Scan(ks, i, removePageNumbers)) == Resume(w, Scan(ks, i + 1, removePageNumbers))
  {
  }

  /** A line the scan keeps is written next. */
  lemma ResumeKeep(w: seq<string>, ks: seq<LineKind>, i: nat, removePageNumbers: bool)
    requires i < |ks| && Kept(ks[i], removePageNumbers)
    ensures Resume(w, Scan(ks, i, removePageNumbers)) == Resume(w + [Terminate(ks[i].text)], Scan(ks, i + 1, removePageNumbers))
  {
    var r := Scan(ks, i + 1, removePageNumbers);
    assert w + ([Terminate(ks[i].text)] + r.written) == (w + [Terminate(ks[i].text)]) + r.written;
  }

  /**
   * A scan for `page` from `pos` whose first stop line is `j` writes the kept
   * lines of `pos..j`, leaves the iterator just past `j`, and finds the page.
   */
  lemma StopsAtFirstStopLine(lines: seq<string>, page: string, pos: nat, removePageNumbers: bool, j: nat)
    requires pos <= j < |lines| && IsStopLine(lines[j], page)
    requires forall m :: pos <= m < j ==> !IsStopLine(lines[m], page)
    ensures var ks := Classified(lines, Some(page));
      Scan(ks, pos, removePageNumbers) == ScanResult(Formatted(ks[pos..j], removePageNumbers), j + 1, true)
  {
    var ks := Classified(lines, Some(page));
    forall m | pos <= m <= j ensures ks[m].StopMarker? <==> IsStopLine(lines[m], page) {
      ClassifiedAt(lines, Some(page), m);
      ClassifyLine(lines[m], Some(page), removePageNumbers);
    }
    ScanStopsAtFirstMarker(ks, pos, removePageNumbers, j);
  }

  /**
   * A scan from `pos` that meets no stop line (in particular one with no stop
   * page) writes every kept line, consumes every line and does not find the page.
   */
  lemma RunsToEnd(lines: seq<string>, stop: Option<string>, pos: nat, removePageNumbers: bool)
    requires pos <= |lines|
    requires forall m :: pos <= m < |lines| ==> !(stop.Some? && IsStopLine(lines[m], stop.value))
    ensures var ks := Classified(lines, stop);
      Scan(ks, pos, removePageNumbers) == ScanResult(Formatted(ks[pos..], removePageNumbers), |lines|, false)
  {
    var ks := Classified(lines, stop);
    forall m | pos <= m < |lines| ensures !ks[m].StopMarker? {
      ClassifiedAt(lines, stop, m);
      ClassifyLine(lines[m], stop, removePageNumbers);
    }
    ScanWithoutMarker(ks, pos, removePageNumbers);
  }

  /** `w` is what `write_lines` writes for line `j` when page numbers are removed. */
  predicate WrittenUnmarked(lines: seq<string>, j: int, w: string) {
    0 <= j < |lines| && Strip(lines[j]) != [] && !IsMarkerLine(lines[j]) && w == Terminate(Strip(lines[j]))
  }

  /**
   * With page numbers removed, every line written for the window `a..b` is a
   * non-blank line of the window, stripped, that is not a page marker.
   */
  lemma WrittenWithoutMarkers(lines: seq<string>, stop: Option<string>, a: nat, b: nat, k: nat)
    requires a <= b <= |lines|
    requires k < |Formatted(Classified(lines, stop)[a..b], true)|
    ensures var j := a + KeptIndex(Classified(lines, stop)[a..b], true, k);
      a <= j < b && WrittenUnmarked(lines, j, Formatted(Classified(lines, stop)[a..b], true)[k])
  {
    FormattedSoundIn(Classified(lines, stop), true, a, b, k);
    KeptLine(lines, stop, a + KeptIndex(Classified(lines, stop)[a..b], true, k), true);
  }

  /** `FormattedSound` for the window `a..b` of `ks`, with the kept position counted from the start of `ks`. */
  lemma FormattedSoundIn(ks: seq<LineKind>, removePageNumbers: bool, a: nat, b: nat, k: nat)
    requires a <= b <= |ks| && k < |Formatted(ks[a..b], removePageNumbers)|
    ensures var j := a + KeptIndex(ks[a..b], removePageNumbers, k);
      && a <= j < b && Kept(ks[j], removePageNumbers)
      && Formatted(ks[a..b], removePageNumbers)[k] == Terminate(ks[j].text)
  {
    var window := ks[a..b];
    FormattedSound(window, removePageNumbers, k);
    var i := KeptIndex(window, removePageNumbers, k);
    assert window[i] == ks[a + i];
  }

  /**
   * Every non-blank line of the window `a..b` that is not a stop line is
   * written when page numbers are kept, at the position given by the number
   * of lines written before it, so that written lines keep the input order.
   */
  lemma WrittenKeepsEveryLine(lines: seq<string>, stop: Option<string>, a: nat, b: nat, j: nat)
    requires a <= j < b <= |lines|
    requires Strip(lines[j]) != [] && !(stop.Some? && IsStopLine(lines[j], stop.value))
    ensures var ks := Classified(lines, stop); var out := Formatted(ks[a..b], false);
      CountKept(ks[a..j], false) < |out| && out[CountKept(ks[a..j], false)] == Terminate(Strip(lines[j]))
  {
    KeptLine(lines, stop, j, false);
    FormattedCompleteIn(Classified(lines, stop), false, a, b, j);
  }

  /** `FormattedComplete` for the window `a..b` of `ks`, with `j` counted from the start of `ks`. */
  lemma FormattedCompleteIn(ks: seq<LineKind>, removePageNumbers: bool, a: nat, b: nat, j: nat)
    requires a <= j < b <= |ks| && Kept(ks[j], removePageNumbers)
    ensures CountKept(ks[a..j], removePageNumbers) < |Formatted(ks[a..b], removePageNumbers)|
    ensures Formatted(ks[a..b], removePageNumbers)[CountKept(ks[a..j], removePageNumbers)] == Terminate(ks[j].text)
  {
    var window := ks[a..b];
    assert window[j - a] == ks[j];
    assert window[..j - a] == ks[a..j];
    FormattedComplete(window, removePageNumbers, j - a);
  }

  /** `ClassifyLine` for line `j` of the file, stated on its kind in `Classified`. */
  lemma KeptLine(lines: seq<string>, stop: Option<string>, j: nat, removePageNumbers: bool)
    requires j < |lines|
    ensures Kept(Classified(lines, stop)[j], removePageNumbers) <==>
      Strip(lines[j]) != [] && !(stop.Some? && IsStopLine(lines[j], stop.value))
      && (removePageNumbers ==> !IsMarkerLine(lines[j]))
    ensures Kept(Classified(lines, stop)[j], removePageNumbers) ==>
      Classified(lines, stop)[j].text == Strip(lines[j])
  {
    ClassifiedAt(lines, stop, j);
    ClassifyLine(lines[j], stop, removePageNumbers);
  }

  /** The message of the RuntimeError raised when the stop page is never found. */
  function NotFoundMessage(page: string): (msg: string) {
    "Could not find supplied page number " + page
  }

  /**
   * The error `write_lines` raises after its loop: only when a stop page was
   * given and not found. The ensures only expose the definition to callers;
   * `ScanErrorMeaning` states what the error means for the file.
   */
  function ScanError(r: ScanResult, stop: Option<string>): (e: Option<string>)
    ensures e.Some? <==> stop.Some? && !r.found
    ensures e.Some? ==> e.value == NotFoundMessage(stop.value)
  {
    if stop.Some? && !r.found then Some(NotFoundMessage(stop.value)) else None
  }

  /**
   * `write_lines` from `pos` raises exactly when it was given a stop page and
   * no line from `pos` on is a page marker containing it; the message names
   * the page.
   */
  lemma ScanErrorMeaning(lines: seq<string>, stop: Option<string>, pos: nat, removePageNumbers: bool)
    requires pos <= |lines|
    ensures var e := ScanError(Scan(Classified(lines, stop), pos, removePageNumbers), stop);
      && (e.Some? <==> stop.Some? && forall m :: pos <= m < |lines| ==> !IsStopLine(lines[m], stop.value))
      && (e.Some? ==> e.value == "Could not find supplied page number " + stop.value)
  {
    var ks := Classified(lines, stop);
    forall m | pos <= m < |lines| ensures ks[m].StopMarker? <==> stop.Some? && IsStopLine(lines[m], stop.value) {
      ClassifiedAt(lines, stop, m);
      ClassifyLine(lines[m], stop, removePageNumbers);
    }
    ScanFound(ks, pos, removePageNumbers);
  }

  /**
   * `write_lines(file, out_file, stop_page_num, remove_page_numbers)` with the
   * file iterator at `start`. Returns what it writes, where it leaves the
   * iterator, and the RuntimeError message if it raises one.
   */
  method WriteLines(lines: seq<string>, start: nat, stop: Option<string>, removePageNumbers: bool)
    returns (written: seq<string>, next: nat, error: Option<string>)
    requires start <= |lines|
    ensures var r := Scan(Classified(lines, stop), start, removePageNumbers);
      written == r.written && next == r.next && error == ScanError(r, stop)
  {
    ghost var ks := Classified(lines, stop);
    ghost var whole := Scan(ks, start, removePageNumbers);
    var foundStopPage := false;
    written := [];
    var i := start;
    while i < |lines|
      invariant start <= i <= |lines| && !foundStopPage
      invariant whole == Resume(written, Scan(ks, i, removePageNumbers))
    {
      var line := lines[i];
      KindAt(lines, stop, i);
      i := i + 1;
      var formattedLine := Strip(line);
      if formattedLine == [] {
        ResumeSkip(written, ks, i - 1, removePageNumbers);
        continue;
      }
      if IsPageNumberLine(formattedLine) {
        if stop.Some? && Contains(formattedLine, stop.value) {
          foundStopPage := true;
          break;
        }
        if removePageNumbers {
          ResumeSkip(written, ks, i - 1, removePageNumbers);
          continue;
        }
      }
      ResumeKeep(written, ks, i - 1, removePageNumbers);
      written := written + [formattedLine + "\n"];
    }
    assert written + [] == written;
    next := i;
    if !foundStopPage && stop.Some? {
      error := Some(NotFoundMessage(stop.value));
    } else {
      error := None;
    }
  }
}
