/**
 * The handful of Python 2 byte-string operations the script relies on:
 * `str.strip()`, `str.split()`, `str.isdigit()`, substring `in`, `+=`
 * accumulation and `str.replace`. Strings are sequences of characters,
 * one character per byte. Positions are computed by index so that a string
 * is only sliced once its bounds are known.
 */
module Text {

  /** The whitespace set of Python 2's `str.strip()` and `str.split()`. */
  predicate IsSpace(c: char) {
    c == ' ' || c == '\t' || c == '\n' || c == '\r' || c == '\U{B}' || c == '\U{C}'
  }

  predicate AllSpace(s: string) {
    forall i :: 0 <= i < |s| ==> IsSpace(s[i])
  }

  predicate NoSpace(s: string) {
    forall i :: 0 <= i < |s| ==> !IsSpace(s[i])
  }

  /** A string that `strip()` leaves unchanged: no whitespace at either end. */
  predicate IsStripped(s: string) {
    s == [] || (!IsSpace(s[0]) && !IsSpace(s[|s| - 1]))
  }

  /** A line as iteration over a file yields it: a newline can only be its last character. */
  predicate IsFileLine(s: string) {
    forall i :: 0 <= i < |s| - 1 ==> s[i] != '\n'
  }

  /** `s + '\n'`: a line with its newline restored. */
  function Terminate(s: string): (t: string) {
    s + "\n"
  }

  /** A line as `out_file.write(formatted_line + '\n')` writes it: non-empty, one newline, at its end. */
  predicate IsTerminatedLine(s: string) {
    |s| > 0 && s[|s| - 1] == '\n' && IsFileLine(s)
  }

  /** The position just past the first newline at or after `i`, or `|s|` when there is none. */
  function LineEnd(s: string, i: nat): (k: nat)
    requires i <= |s|
    ensures i <= k <= |s| && (i < |s| ==> i < k)
    ensures forall m :: i <= m < k - 1 ==> s[m] != '\n'
    ensures k < |s| ==> s[k - 1] == '\n'
    decreases |s| - i
  {
    if i == |s| then i else if s[i] == '\n' then i + 1 else LineEnd(s, i + 1)
  }

  /** The lines that iterating over a file with contents `s` yields: each up to and including its newline. */
  function FileLines(s: string): (ls: seq<string>)
    decreases |s|
  {
    if s == [] then [] else var e := LineEnd(s, 0); [s[..e]] + FileLines(s[e..])
  }

  /**
   * Iteration yields non-empty lines, each a file line, every one but the last
   * ending with its newline, and together they are the whole file. These
   * determine the split: a line can only end at a newline or at the end of the file.
   */
  lemma {:induction false} FileLinesSplit(s: string)
    ensures Concat(FileLines(s)) == s
    ensures forall k :: 0 <= k < |FileLines(s)| ==> FileLines(s)[k] != [] && IsFileLine(FileLines(s)[k])
    ensures forall k :: 0 <= k < |FileLines(s)| - 1 ==> FileLines(s)[k][|FileLines(s)[k]| - 1] == '\n'
    decreases |s|
  {
    if s != [] {
      var e := LineEnd(s, 0);
      var ls := FileLines(s);
      var rest := FileLines(s[e..]);
      FileLinesSplit(s[e..]);
      assert s[..e] + s[e..] == s;
      assert ls == [s[..e]] + rest;
      forall k | 0 <= k < |ls|
        ensures ls[k] != [] && IsFileLine(ls[k])
        ensures k < |ls| - 1 ==> ls[k][|ls[k]| - 1] == '\n'
      {
        if k > 0 {
          assert ls[k] == rest[k - 1];
        } else if e == |s| {
          assert rest == [];
        }
      }
    }
  }

  /** Any split of `s` with the properties `FileLinesSplit` states is the one iteration yields. */
  lemma {:induction false} FileLinesUnique(s: string, ls: seq<string>)
    requires Concat(ls) == s
    requires forall k :: 0 <= k < |ls| ==> ls[k] != [] && IsFileLine(ls[k])
    requires forall k :: 0 <= k < |ls| - 1 ==> ls[k][|ls[k]| - 1] == '\n'
    ensures ls == FileLines(s)
    decreases |ls|
  {
    if ls != [] {
      var n := |ls[0]|;
      var rest := Concat(ls[1..]);
      assert s == ls[0] + rest;
      assert s[..n] == ls[0] && s[n..] == rest;
      if ls[0][n - 1] == '\n' {
        LineEndAt(s, n);
      } else {
        assert |ls| == 1 && rest == [] && n == |s|;
      }
      FileLinesUnique(rest, ls[1..]);
      assert ls == [ls[0]] + ls[1..];
    }
  }

  /**
   * A file written as a sequence of terminated lines is read back as exactly
   * those lines: writing and iterating are inverse.
   */
  lemma {:induction false} FileLinesOfWritten(ws: seq<string>)
    requires forall k :: 0 <= k < |ws| ==> IsTerminatedLine(ws[k])
    ensures FileLines(Concat(ws)) == ws
  {
    if ws != [] {
      var w := ws[0];
      var s := Concat(ws);
      assert s == w + Concat(ws[1..]);
      assert s[..|w|] == w;
      LineEndAt(s, |w|);
      assert s[|w|..] == Concat(ws[1..]);
      FileLinesOfWritten(ws[1..]);
    }
  }

  /** A prefix of length `n` that has its first newline at its end ends the first line. */
  lemma LineEndAt(s: string, n: nat)
    requires 0 < n <= |s| && s[n - 1] == '\n'
    requires forall m :: 0 <= m < n - 1 ==> s[m] != '\n'
    ensures LineEnd(s, 0) == n
  {
  }

  /** The first position at or after `i` that is not whitespace, or `|s|`. */
  function SkipSpace(s: string, i: nat): (k: nat)
    requires i <= |s|
    ensures i <= k <= |s| && (k < |s| ==> !IsSpace(s[k]))
    decreases |s| - i
  {
    if i == |s| || !IsSpace(s[i]) then i else SkipSpace(s, i + 1)
  }

  lemma {:induction false} SkipSpaceSkipsSpace(s: string, i: nat)
    requires i <= |s|
    ensures forall m :: i <= m < SkipSpace(s, i) ==> IsSpace(s[m])
    decreases |s| - i
  {
    if i < |s| && IsSpace(s[i]) {
      SkipSpaceSkipsSpace(s, i + 1);
    }
  }

  /** Any position that only whitespace precedes from `i` and non-whitespace (or nothing) follows is `SkipSpace`. */
  lemma {:induction false} SkipSpaceUnique(s: string, i: nat, k: nat)
    requires i <= k <= |s| && (k < |s| ==> !IsSpace(s[k]))
    requires forall m :: i <= m < k ==> IsSpace(s[m])
    ensures SkipSpace(s, i) == k
    decreases k - i
  {
    if i < k {
      SkipSpaceUnique(s, i + 1, k);
    }
  }

  /** The end of `s[..j]` once trailing whitespace is dropped. */
  function TrimEnd(s: string, j: nat): (e: nat)
    requires j <= |s|
    ensures e <= j && (e > 0 ==> !IsSpace(s[e - 1]))
  {
    if j == 0 || !IsSpace(s[j - 1]) then j else TrimEnd(s, j - 1)
  }

  lemma {:induction false} TrimEndSkipsSpace(s: string, j: nat)
    requires j <= |s|
    ensures forall m :: TrimEnd(s, j) <= m < j ==> IsSpace(s[m])
  {
    if j > 0 && IsSpace(s[j - 1]) {
      TrimEndSkipsSpace(s, j - 1);
    }
  }

  /** Any end that only whitespace follows and non-whitespace (or nothing) precedes is `TrimEnd`. */
  lemma {:induction false} TrimEndUnique(s: string, j: nat, e: nat)
    requires e <= j <= |s| && (e > 0 ==> !IsSpace(s[e - 1]))
    requires forall m :: e <= m < j ==> IsSpace(s[m])
    ensures TrimEnd(s, j) == e
  {
    if e < j {
      TrimEndUnique(s, j - 1, e);
    }
  }

  /** The end of the word that starts at `i`: the next whitespace, or `|s|`. */
  function WordEnd(s: string, i: nat): (k: nat)
    requires i <= |s|
    ensures i <= k <= |s| && (k < |s| ==> IsSpace(s[k]))
    ensures i < |s| && !IsSpace(s[i]) ==> i < k
    decreases |s| - i
  {
    if i == |s| || IsSpace(s[i]) then i else WordEnd(s, i + 1)
  }

  lemma {:induction false} WordEndInWord(s: string, i: nat)
    requires i <= |s|
    ensures forall m :: i <= m < WordEnd(s, i) ==> !IsSpace(s[m])
    decreases |s| - i
  {
    if i < |s| && !IsSpace(s[i]) {
      WordEndInWord(s, i + 1);
    }
  }

  /** Any end that only non-whitespace precedes from `i` and whitespace (or nothing) follows is `WordEnd`. */
  lemma {:induction false} WordEndUnique(s: string, i: nat, k: nat)
    requires i <= k <= |s| && (k < |s| ==> IsSpace(s[k]))
    requires forall m :: i <= m < k ==> !IsSpace(s[m])
    ensures WordEnd(s, i) == k
    decreases k - i
  {
    if i < k {
      WordEndUnique(s, i + 1, k);
    }
  }

  /** The start of the word that ends at `j`: just after the previous whitespace, or 0. */
  function WordStart(s: string, j: nat): (k: nat)
    requires j <= |s|
    ensures k <= j && (k > 0 ==> IsSpace(s[k - 1]))
    ensures j > 0 && !IsSpace(s[j - 1]) ==> k < j
  {
    if j == 0 || IsSpace(s[j - 1]) then j else WordStart(s, j - 1)
  }

  lemma {:induction false} WordStartInWord(s: string, j: nat)
    requires j <= |s|
    ensures forall m :: WordStart(s, j) <= m < j ==> !IsSpace(s[m])
  {
    if j > 0 && !IsSpace(s[j - 1]) {
      WordStartInWord(s, j - 1);
    }
  }

  /** Any start that only non-whitespace follows up to `j` and whitespace (or nothing) precedes is `WordStart`. */
  lemma {:induction false} WordStartUnique(s: string, j: nat, k: nat)
    requires k <= j <= |s| && (k > 0 ==> IsSpace(s[k - 1]))
    requires forall m :: k <= m < j ==> !IsSpace(s[m])
    ensures WordStart(s, j) == k
  {
    if k < j {
      WordStartUnique(s, j - 1, k);
    }
  }

  /** Python's `s.strip()`: `s` with whitespace cut from both ends. */
  function Strip(s: string): (r: string)
    ensures |r| <= |s| && IsStripped(r)
  {
    var a := SkipSpace(s, 0);
    var e := TrimEnd(s, |s|);
    if a < e then s[a..e] else []
  }

  /** A line strips to nothing exactly when it is all whitespace. */
  lemma StripBlank(s: string)
    ensures Strip(s) == [] <==> AllSpace(s)
  {
    var a := SkipSpace(s, 0);
    var e := TrimEnd(s, |s|);
    SkipSpaceSkipsSpace(s, 0);
    TrimEndSkipsSpace(s, |s|);
  }

  /**
   * `strip()` cuts whitespace from the ends and nothing else: the result is a
   * slice of `s` with only whitespace before and after it. Together with
   * `IsStripped` (no whitespace left at either end) this pins the result down.
   */
  lemma StripTrims(s: string)
    ensures exists a, e :: 0 <= a <= e <= |s| && Strip(s) == s[a..e] && AllSpace(s[..a]) && AllSpace(s[e..])
  {
    var a := SkipSpace(s, 0);
    var e := TrimEnd(s, |s|);
    SkipSpaceSkipsSpace(s, 0);
    TrimEndSkipsSpace(s, |s|);
    if a < e {
      assert forall i :: 0 <= i < a ==> s[..a][i] == s[i];
      assert forall i :: 0 <= i < |s| - e ==> s[e..][i] == s[e + i];
      assert Strip(s) == s[a..e] && AllSpace(s[..a]) && AllSpace(s[e..]);
    } else {
      StripBlank(s);
      assert s[..0] == [] && s[0..] == s;
      assert Strip(s) == s[0..0] && AllSpace(s[..0]) && AllSpace(s[0..]);
    }
  }

  /** Stripping a file line leaves no newline at all. */
  lemma StripFileLine(s: string)
    requires IsFileLine(s)
    ensures forall i :: 0 <= i < |Strip(s)| ==> Strip(s)[i] != '\n'
  {
    var a := SkipSpace(s, 0);
    var e := TrimEnd(s, |s|);
    if a < e {
      forall i | 0 <= i < e - a ensures s[a..e][i] != '\n' {
        if a + i < e - 1 {
          assert s[a..e][i] == s[a + i];
        }
      }
    }
  }

  /** Python's `s.split()`, from position `i`: the maximal whitespace-free runs, in order. */
  function TokensFrom(s: string, i: nat): (ts: seq<string>)
    requires i <= |s|
    decreases |s| - i
  {
    var a := SkipSpace(s, i);
    if a == |s| then [] else [s[a..WordEnd(s, a)]] + TokensFrom(s, WordEnd(s, a))
  }

  /** Python's `s.split()`. */
  function Tokens(s: string): (ts: seq<string>) {
    TokensFrom(s, 0)
  }

  /** The first token of `s`: the word after any leading whitespace. */
  function FirstWord(s: string): (w: string) {
    var a := SkipSpace(s, 0);
    s[a..WordEnd(s, a)]
  }

  /** The last token of `s`: the word before any trailing whitespace. */
  function LastWord(s: string): (w: string) {
    var e := TrimEnd(s, |s|);
    s[WordStart(s, e)..e]
  }

  /** `split()` returns no token exactly when the text is all whitespace. */
  lemma TokensEmpty(s: string)
    ensures Tokens(s) == [] <==> AllSpace(s)
  {
    SkipSpaceSkipsSpace(s, 0);
  }

  /** Every token of `split()` is a non-empty run without whitespace. */
  lemma {:induction false} TokensAreWords(s: string, i: nat)
    requires i <= |s|
    ensures forall k :: 0 <= k < |TokensFrom(s, i)| ==> TokensFrom(s, i)[k] != [] && NoSpace(TokensFrom(s, i)[k])
    decreases |s| - i
  {
    var a := SkipSpace(s, i);
    if a < |s| {
      var b := WordEnd(s, a);
      WordEndInWord(s, a);
      TokensAreWords(s, b);
      var w := s[a..b];
      assert forall m :: 0 <= m < |w| ==> w[m] == s[a + m];
    }
  }

  /** From `i`, `split()` returns nothing exactly when only whitespace is left. */
  lemma TokensFromBlank(s: string, i: nat)
    requires i <= |s|
    ensures TokensFrom(s, i) == [] <==> forall m :: i <= m < |s| ==> IsSpace(s[m])
  {
    SkipSpaceSkipsSpace(s, i);
  }

  /**
   * The defining step of `split()`: after a run of whitespace from `i`, the next
   * token is the maximal whitespace-free run `s[a..b]`, and the rest is split from
   * `b`. With `TokensFromBlank` these equations cover every case of `split()`.
   */
  lemma TokensFromWord(s: string, i: nat, a: nat, b: nat)
    requires i <= a < b <= |s|
    requires forall m :: i <= m < a ==> IsSpace(s[m])
    requires forall m :: a <= m < b ==> !IsSpace(s[m])
    requires b == |s| || IsSpace(s[b])
    ensures TokensFrom(s, i) == [s[a..b]] + TokensFrom(s, b)
  {
    SkipSpaceUnique(s, i, a);
    WordEndUnique(s, a, b);
  }

  /** The last token of `split()` from a position just after whitespace is `LastWord`. */
  lemma {:induction false} LastOfTokensFrom(s: string, i: nat)
    requires i <= |s| && SkipSpace(s, i) < |s|
    requires SkipSpace(s, i) > 0 ==> IsSpace(s[SkipSpace(s, i) - 1])
    ensures TokensFrom(s, i) != [] && TokensFrom(s, i)[|TokensFrom(s, i)| - 1] == LastWord(s)
    decreases |s| - i
  {
    var a := SkipSpace(s, i);
    var b := WordEnd(s, a);
    WordEndInWord(s, a);
    SkipSpaceSkipsSpace(s, b);
    var rest := TokensFrom(s, b);
    if SkipSpace(s, b) == |s| {
      TrimEndUnique(s, |s|, b);
      WordStartUnique(s, b, a);
    } else {
      assert SkipSpace(s, b) > b;
      LastOfTokensFrom(s, b);
    }
  }

  /** The first and last elements of `s.split()` are `FirstWord(s)` and `LastWord(s)`. */
  lemma SplitEnds(s: string)
    requires !AllSpace(s)
    ensures var ts := Tokens(s); ts != [] && ts[0] == FirstWord(s) && ts[|ts| - 1] == LastWord(s)
  {
    TokensEmpty(s);
    SkipSpaceSkipsSpace(s, 0);
    LastOfTokensFrom(s, 0);
  }

  /** Python's `s.isdigit()` on a byte string: non-empty and only ASCII digits. */
  predicate IsDigits(s: string) {
    |s| > 0 && forall i :: 0 <= i < |s| ==> '0' <= s[i] <= '9'
  }

  /** Python's `sub in s`. */
  predicate Contains(s: string, sub: string)
    decreases |s|
  {
    sub <= s || (s != [] && Contains(s[1..], sub))
  }

  /** `sub` occurs in `s` at offset `i`. */
  predicate OccursAt(s: string, sub: string, i: int) {
    0 <= i <= |s| - |sub| && s[i..i + |sub|] == sub
  }

  /** `Contains` holds exactly when `sub` occurs at some offset of `s`. */
  lemma {:induction false} ContainsAt(s: string, sub: string)
    ensures Contains(s, sub) <==> exists i :: OccursAt(s, sub, i)
    decreases |s|
  {
    if sub <= s {
      assert OccursAt(s, sub, 0);
    } else if s == [] {
    } else {
      ContainsAt(s[1..], sub);
      if exists i :: OccursAt(s, sub, i) {
        var i :| OccursAt(s, sub, i);
        assert i != 0;
        assert s[1..][i - 1..i - 1 + |sub|] == s[i..i + |sub|];
        assert OccursAt(s[1..], sub, i - 1);
      }
      if Contains(s[1..], sub) {
        var i :| OccursAt(s[1..], sub, i);
        assert s[1..][i..i + |sub|] == s[i + 1..i + 1 + |sub|];
        assert OccursAt(s, sub, i + 1);
      }
    }
  }

  /** The concatenation of a sequence of strings, as repeated `text += line` builds it. */
  function Concat(ls: seq<string>): (joined: string) {
    if ls == [] then [] else ls[0] + Concat(ls[1..])
  }

  lemma {:induction false} ConcatAppend(a: seq<string>, b: seq<string>)
    ensures Concat(a + b) == Concat(a) + Concat(b)
  {
    if a == [] {
      assert a + b == b;
    } else {
      assert (a + b)[1..] == a[1..] + b;
      ConcatAppend(a[1..], b);
    }
  }

  /** Extending a slice by one line appends that line to its concatenation. */
  lemma ConcatExtend(ls: seq<string>, i: nat, j: nat)
    requires i <= j < |ls|
    ensures Concat(ls[i..j + 1]) == Concat(ls[i..j]) + ls[j]
  {
    assert ls[i..j + 1] == ls[i..j] + [ls[j]];
    ConcatAppend(ls[i..j], [ls[j]]);
  }

  /** Concatenating a slice that starts with `ls[i]`. */
  lemma ConcatCons(ls: seq<string>, i: nat, j: nat)
    requires i < j <= |ls|
    ensures Concat(ls[i..j]) == ls[i] + Concat(ls[i + 1..j])
  {
    assert ls[i..j][1..] == ls[i + 1..j];
  }

  /** Python's `s.replace(c, r)` for a one-character pattern. */
  function ReplaceChar(s: string, c: char, r: string): (out: string) {
    if s == [] then [] else (if s[0] == c then r else [s[0]]) + ReplaceChar(s[1..], c, r)
  }

  /** The number of occurrences of `c` in `s`. */
  function Occurrences(s: string, c: char): (n: nat) {
    if s == [] then 0 else (if s[0] == c then 1 else 0) + Occurrences(s[1..], c)
  }
}
