/**
 * The page-marker heuristic of `Polly.is_page_number_line`: a line is a page
 * marker when the first or the last element of `line.split()` is a number.
 */
module PageNumbers {
  import opened Text

  /**
   * `is_page_number_line(line)`. Python raises IndexError on a line that
   * splits into no token, that is an all-whitespace line (`Text.TokensEmpty`);
   * every caller skips blank lines first.
   */
  function IsPageNumberLine(line: string): (isMarker: bool)
    requires !AllSpace(line)
  {
    IsDigits(FirstWord(line)) || IsDigits(LastWord(line))
  }

  /** The test is the one the script writes: `line_list[0].isdigit() or line_list[-1].isdigit()`. */
  lemma PageNumberLineIsSplitTest(line: string)
    requires !AllSpace(line)
    ensures var ts := Tokens(line);
      ts != [] && (IsPageNumberLine(line) <==> IsDigits(ts[0]) || IsDigits(ts[|ts| - 1]))
  {
    SplitEnds(line);
  }

  /** The line begins with a run of digits that ends at whitespace or at the end of the line. */
  predicate LeadingNumber(s: string) {
    exists k :: 0 < k <= |s| && IsDigits(s[..k]) && (k == |s| || IsSpace(s[k]))
  }

  /** The line ends with a run of digits that starts after whitespace or at the start of the line. */
  predicate TrailingNumber(s: string) {
    exists k :: 0 <= k < |s| && IsDigits(s[k..]) && (k == 0 || IsSpace(s[k - 1]))
  }

  lemma FirstWordIsNumber(s: string)
    requires s != [] && IsStripped(s)
    ensures IsDigits(FirstWord(s)) <==> LeadingNumber(s)
  {
    var b := WordEnd(s, 0);
    WordEndInWord(s, 0);
    assert FirstWord(s) == s[..b];
    if IsDigits(s[..b]) {
      assert 0 < b;
    }
    if LeadingNumber(s) {
      var k :| 0 < k <= |s| && IsDigits(s[..k]) && (k == |s| || IsSpace(s[k]));
      forall m | 0 <= m < k ensures !IsSpace(s[m]) {
        assert s[m] == s[..k][m];
      }
      WordEndUnique(s, 0, k);
    }
  }

  lemma LastWordIsNumber(s: string)
    requires s != [] && IsStripped(s)
    ensures IsDigits(LastWord(s)) <==> TrailingNumber(s)
  {
    TrimEndUnique(s, |s|, |s|);
    var a := WordStart(s, |s|);
    WordStartInWord(s, |s|);
    assert LastWord(s) == s[a..];
    if TrailingNumber(s) {
      var k :| 0 <= k < |s| && IsDigits(s[k..]) && (k == 0 || IsSpace(s[k - 1]));
      forall m | k <= m < |s| ensures !IsSpace(s[m]) {
        assert s[m] == s[k..][m - k];
      }
      WordStartUnique(s, |s|, k);
    }
  }

  /**
   * On a stripped, non-empty line the heuristic is a statement about characters:
   * the line starts or ends with a number standing as a word of its own.
   */
  lemma PageNumberLineByChars(s: string)
    requires s != [] && IsStripped(s)
    ensures !AllSpace(s)
    ensures IsPageNumberLine(s) <==> LeadingNumber(s) || TrailingNumber(s)
  {
    FirstWordIsNumber(s);
    LastWordIsNumber(s);
  }
}
