/**
 * `Polly.get_polly_chunk`: the formatted temp file is a sequence of lines and
 * its iterator an index into it. A chunk collects whole lines until its
 * length passes `ChunkLimit`, then has its quotes escaped and its newlines
 * turned into spaces so that it can sit inside the double-quoted `--text`
 * argument of the synthesis command.
 */
module Chunker {
  import opened Text

  /** The heuristic bound on a chunk's raw length, kept below the service's 1500-character limit. */
  const ChunkLimit := 1150

  /**
   * `text.replace('"', '\\"').replace('\n', ' ')` followed by the UTF-8
   * decode/encode round trip, which is the identity on valid text.
   */
  function Escape(text: string): (r: string) {
    ReplaceChar(ReplaceChar(text, '"', "\\\""), '\n', " ")
  }

  /** Replacing a character by a single character keeps every other character where it was. */
  lemma {:induction false} ReplaceByOneChar(s: string, c: char, d: char)
    ensures |ReplaceChar(s, c, [d])| == |s|
    ensures forall i :: 0 <= i < |s| ==> ReplaceChar(s, c, [d])[i] == if s[i] == c then d else s[i]
  {
    if s != [] {
      ReplaceByOneChar(s[1..], c, d);
      var r := ReplaceChar(s, c, [d]);
      forall i | 0 <= i < |s| ensures r[i] == if s[i] == c then d else s[i] {
        if i > 0 {
          assert r[i] == ReplaceChar(s[1..], c, [d])[i - 1];
          assert s[1..][i - 1] == s[i];
        }
      }
    }
  }

  /** Escaping quotes adds one character per quote and leaves a backslash before every quote. */
  lemma {:induction false} QuotesEscaped(s: string)
    ensures |ReplaceChar(s, '"', "\\\"")| == |s| + Occurrences(s, '"')
    ensures var r := ReplaceChar(s, '"', "\\\"");
      forall i :: 0 <= i < |r| && r[i] == '"' ==> 0 < i && r[i - 1] == '\\'
  {
    if s != [] {
      QuotesEscaped(s[1..]);
      var r := ReplaceChar(s, '"', "\\\"");
      var head: string := if s[0] == '"' then "\\\"" else [s[0]];
      var tail := ReplaceChar(s[1..], '"', "\\\"");
      assert r == head + tail;
      forall i | 0 <= i < |r| && r[i] == '"' ensures 0 < i && r[i - 1] == '\\' {
        if i >= |head| {
          assert r[i] == tail[i - |head|];
          if i > |head| {
            assert r[i - 1] == tail[i - 1 - |head|];
          }
        }
      }
    }
  }

  /**
   * An escaped chunk holds no newline, has a backslash before every quote,
   * and is longer than the raw text by exactly its number of quotes.
   */
  lemma EscapeMeaning(text: string)
    ensures |Escape(text)| == |text| + Occurrences(text, '"')
    ensures forall i :: 0 <= i < |Escape(text)| ==> Escape(text)[i] != '\n'
    ensures forall i :: 0 <= i < |Escape(text)| && Escape(text)[i] == '"' ==>
      0 < i && Escape(text)[i - 1] == '\\'
  {
    var q := ReplaceChar(text, '"', "\\\"");
    QuotesEscaped(text);
    ReplaceByOneChar(q, '\n', ' ');
  }

  /**
   * Where character `i` of the text lands once quotes are escaped: after the
   * `i` characters before it and one backslash for each quote among them. A
   * quote becomes a backslash followed by the quote; any other character is
   * copied.
   */
  lemma {:induction false} QuoteEscapeAt(s: string, i: nat)
    requires i < |s|
    ensures var r := ReplaceChar(s, '"', "\\\""); var p := i + Occurrences(s[..i], '"');
      && p < |r|
      && (s[i] == '"' ==> p + 1 < |r| && r[p] == '\\' && r[p + 1] == '"')
      && (s[i] != '"' ==> r[p] == s[i])
  {
    var r := ReplaceChar(s, '"', "\\\"");
    var head: string := if s[0] == '"' then "\\\"" else [s[0]];
    var tail := ReplaceChar(s[1..], '"', "\\\"");
    assert r == head + tail;
    if i == 0 {
      assert s[..0] == [];
    } else {
      QuoteEscapeAt(s[1..], i - 1);
      assert s[..i][1..] == s[1..][..i - 1];
      var p' := i - 1 + Occurrences(s[1..][..i - 1], '"');
      assert i + Occurrences(s[..i], '"') == |head| + p';
      assert r[|head| + p'] == tail[p'];
      assert s[1..][i - 1] == s[i];
      if s[i] == '"' {
        assert r[|head| + p' + 1] == tail[p' + 1];
      }
    }
  }

  /**
   * `Escape` keeps the text: character `i` of the raw text sits at position
   * `i` plus the number of quotes before it, as itself, as a space when it
   * was a newline, or as a backslash and the quote when it was a quote.
   */
  lemma EscapeAt(text: string, i: nat)
    requires i < |text|
    ensures var p := i + Occurrences(text[..i], '"');
      && p < |Escape(text)|
      && (text[i] == '"' ==> p + 1 < |Escape(text)| && Escape(text)[p] == '\\' && Escape(text)[p + 1] == '"')
      && (text[i] == '\n' ==> Escape(text)[p] == ' ')
      && (text[i] != '"' && text[i] != '\n' ==> Escape(text)[p] == text[i])
  {
    var q := ReplaceChar(text, '"', "\\\"");
    QuoteEscapeAt(text, i);
    ReplaceByOneChar(q, '\n', ' ');
  }

  /** Escaping maps exactly the empty text to the empty chunk. */
  lemma EscapeEmpty(text: string)
    ensures Escape(text) == [] <==> text == []
  {
    EscapeMeaning(text);
  }

  /**
   * Where a chunk that starts at line `pos` ends: just after the first line
   * that takes the collected text past `ChunkLimit`, or at the end of input.
   */
  function ChunkEnd(lines: seq<string>, pos: nat): (e: nat)
    requires pos <= |lines|
    ensures pos <= e <= |lines| && (pos < |lines| ==> pos < e)
    ensures forall m :: pos < m < e ==> |Concat(lines[pos..m])| <= ChunkLimit
    ensures e < |lines| ==> |Concat(lines[pos..e])| > ChunkLimit
  {
    ChunkEndFrom(lines, pos, pos)
  }

  /** `ChunkEnd`, once the lines `pos..m` are known to stay within the limit. */
  function ChunkEndFrom(lines: seq<string>, pos: nat, m: nat): (e: nat)
    requires pos <= m <= |lines|
    requires forall k :: pos < k <= m ==> |Concat(lines[pos..k])| <= ChunkLimit
    ensures m <= e <= |lines| && (m < |lines| ==> m < e)
    ensures forall k :: pos < k < e ==> |Concat(lines[pos..k])| <= ChunkLimit
    ensures e < |lines| ==> |Concat(lines[pos..e])| > ChunkLimit
    decreases |lines| - m
  {
    if m == |lines| then m
    else if |Concat(lines[pos..m + 1])| > ChunkLimit then m + 1
    else ChunkEndFrom(lines, pos, m + 1)
  }

  /** Any end with the two properties of `ChunkEnd` is `ChunkEnd`: the stopping rule has one answer. */
  lemma ChunkEndUnique(lines: seq<string>, pos: nat, e: nat)
    requires pos <= e <= |lines| && (pos < |lines| ==> pos < e)
    requires forall m :: pos < m < e ==> |Concat(lines[pos..m])| <= ChunkLimit
    requires e < |lines| ==> |Concat(lines[pos..e])| > ChunkLimit
    ensures ChunkEnd(lines, pos) == e
  {
  }

  /**
   * `get_polly_chunk(in_file)` with the iterator at `pos`: returns the chunk
   * and the iterator position it leaves behind.
   */
  method GetPollyChunk(lines: seq<string>, pos: nat) returns (chunk: string, next: nat)
    requires pos <= |lines|
    ensures next == ChunkEnd(lines, pos)
    ensures chunk == Escape(Concat(lines[pos..next]))
    ensures pos < next ==> |Concat(lines[pos..next - 1])| <= ChunkLimit
    ensures (forall j :: pos <= j < |lines| ==> lines[j] != []) ==> (chunk == [] <==> pos == |lines|)
  {
    var text := "";
    next := pos;
    while next < |lines|
      invariant pos <= next <= |lines|
      invariant text == Concat(lines[pos..next])
      invariant forall m :: pos < m <= next ==> |Concat(lines[pos..m])| <= ChunkLimit
    {
      ConcatExtend(lines, pos, next);
      text := text + lines[next];
      next := next + 1;
      if |text| > ChunkLimit {
        break;
      }
    }
    ChunkEndUnique(lines, pos, next);
    if pos < next {
      ConcatExtend(lines, pos, next - 1);
      assert pos < next - 1 ==> |Concat(lines[pos..next - 1])| <= ChunkLimit;
      assert lines[pos..pos] == [];
    }
    chunk := Escape(text);
    EscapeEmpty(text);
    if pos < |lines| && lines[pos] != [] {
      ConcatCons(lines, pos, next);
    }
  }

  /**
   * The raw texts of the chunks the main loop of `create_audio_book` sends,
   * with the iterator at `pos`: it takes chunks until one comes back empty.
   */
  function RawChunks(lines: seq<string>, pos: nat): (raws: seq<string>)
    requires pos <= |lines|
    ensures |raws| <= |lines| - pos
    decreases |lines| - pos
  {
    var e := ChunkEnd(lines, pos);
    var text := Concat(lines[pos..e]);
    if Escape(text) == [] then []
    else [text] + RawChunks(lines, e)
  }

  /** Each raw text escaped, in order: what the synthesis command receives. */
  function Escaped(raws: seq<string>): (r: seq<string>)
    ensures |r| == |raws|
  {
    if raws == [] then [] else [Escape(raws[0])] + Escaped(raws[1..])
  }

  /**
   * When no line is empty, the chunks together are exactly the lines from
   * `pos` on, in order: chunking loses and repeats nothing.
   */
  lemma {:induction false} RawChunksCover(lines: seq<string>, pos: nat)
    requires pos <= |lines|
    requires forall j :: pos <= j < |lines| ==> lines[j] != []
    ensures Concat(RawChunks(lines, pos)) == Concat(lines[pos..])
    decreases |lines| - pos
  {
    var e := ChunkEnd(lines, pos);
    var text := Concat(lines[pos..e]);
    EscapeEmpty(text);
    if pos == |lines| {
      assert lines[pos..] == [];
    } else {
      ConcatCons(lines, pos, e);
      RawChunksCover(lines, e);
      assert lines[pos..] == lines[pos..e] + lines[e..];
      ConcatAppend(lines[pos..e], lines[e..]);
      assert RawChunks(lines, pos) == [text] + RawChunks(lines, e);
    }
  }

  /**
   * A chunk passes `ChunkLimit` by at most one line: when no line is longer
   * than `longest`, no raw chunk is longer than `ChunkLimit + longest`.
   */
  lemma {:induction false} RawChunksBounded(lines: seq<string>, pos: nat, longest: nat)
    requires pos <= |lines|
    requires forall j :: pos <= j < |lines| ==> |lines[j]| <= longest
    ensures forall k :: 0 <= k < |RawChunks(lines, pos)| ==> 0 < |RawChunks(lines, pos)[k]| <= ChunkLimit + longest
    decreases |lines| - pos
  {
    var e := ChunkEnd(lines, pos);
    var text := Concat(lines[pos..e]);
    EscapeEmpty(text);
    if text != [] {
      ConcatExtend(lines, pos, e - 1);
      if pos < e - 1 {
        assert |Concat(lines[pos..e - 1])| <= ChunkLimit;
      } else {
        assert lines[pos..e - 1] == [];
      }
      RawChunksBounded(lines, e, longest);
    }
  }

  /** Every chunk sent holds no newline and has a backslash before every quote. */
  lemma EscapedChunks(raws: seq<string>)
    ensures forall k, i :: 0 <= k < |raws| && 0 <= i < |Escaped(raws)[k]| ==> Escaped(raws)[k][i] != '\n'
    ensures forall k, i :: 0 <= k < |raws| && 0 <= i < |Escaped(raws)[k]| && Escaped(raws)[k][i] == '"' ==>
      0 < i && Escaped(raws)[k][i - 1] == '\\'
  {
    forall k | 0 <= k < |raws| ensures Escaped(raws)[k] == Escape(raws[k]) {
      EscapedAt(raws, k);
    }
    forall k | 0 <= k < |raws| {
      EscapeMeaning(raws[k]);
    }
  }

  lemma {:induction false} EscapedAt(raws: seq<string>, k: nat)
    requires k < |raws|
    ensures Escaped(raws)[k] == Escape(raws[k])
  {
    if k > 0 {
      EscapedAt(raws[1..], k - 1);
    }
  }
}
