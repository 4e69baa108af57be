/**
 * The parts of Rust's string library that the core relies on:
 * `[String]::join`, `str::split`, `str::split_whitespace`,
 * `str::trim_matches` and `char::is_whitespace`.
 */
module Strings {

  /** `char::is_whitespace`: the Unicode White_Space property. */
  predicate IsWhitespace(c: char) {
    ('\U{0009}' <= c <= '\U{000D}') || c == ' ' || c == '\U{0085}' || c == '\U{00A0}'
    || c == '\U{1680}' || ('\U{2000}' <= c <= '\U{200A}') || c == '\U{2028}' || c == '\U{2029}'
    || c == '\U{202F}' || c == '\U{205F}' || c == '\U{3000}'
  }

  /** No character of `s` is whitespace. */
  predicate NoWhitespace(s: string) {
    forall i :: 0 <= i < |s| ==> !IsWhitespace(s[i])
  }

  /** A word as `split_whitespace` yields it: non-empty, no whitespace. */
  predicate IsWord(w: string) {
    w != [] && NoWhitespace(w)
  }

  /** `parts.join(sep)`. */
  function Join(parts: seq<string>, sep: string): string {
    if |parts| == 0 then ""
    else if |parts| == 1 then parts[0]
    else parts[0] + sep + Join(parts[1..], sep)
  }

  /** Joining two non-empty lists puts exactly one separator between them. */
  lemma {:induction false} JoinAppend(a: seq<string>, b: seq<string>, sep: string)
    requires |a| > 0 && |b| > 0
    ensures Join(a + b, sep) == Join(a, sep) + sep + Join(b, sep)
  {
    if |a| == 1 {
      assert (a + b)[1..] == b;
    } else {
      assert (a + b)[1..] == a[1..] + b;
      JoinAppend(a[1..], b, sep);
    }
  }

  /** `s.split(c)`: the pieces between occurrences of `c`, always at least one. */
  function SplitOn(s: string, c: char): (r: seq<string>)
    ensures |r| >= 1
    decreases |s|
  {
    if s == [] then [""]
    else
      var rest := SplitOn(s[1..], c);
      if s[0] == c then [""] + rest
      else [[s[0]] + rest[0]] + rest[1..]
  }

  lemma {:induction false} SplitOnPrefix(w: string, s: string, c: char)
    requires forall i :: 0 <= i < |w| ==> w[i] != c
    ensures SplitOn(w + s, c) == [w + SplitOn(s, c)[0]] + SplitOn(s, c)[1..]
    decreases |w|
  {
    if w != [] {
      var ws := w + s;
      assert ws[0] == w[0] && ws[1..] == w[1..] + s;
      SplitOnPrefix(w[1..], s, c);
      var rest := SplitOn(ws[1..], c);
      assert rest[0] == w[1..] + SplitOn(s, c)[0];
      assert rest[1..] == SplitOn(s, c)[1..];
      assert [w[0]] + (w[1..] + SplitOn(s, c)[0]) == w + SplitOn(s, c)[0];
    } else {
      var r := SplitOn(s, c);
      assert w + s == s && w + r[0] == r[0];
      assert [r[0]] + r[1..] == r;
    }
  }

  /**
   * Splitting a joined list on the separator character gives the list back,
   * provided no piece contains that character.
   */
  lemma {:induction false} SplitJoin(parts: seq<string>, c: char)
    requires |parts| > 0
    requires forall k, i :: 0 <= k < |parts| && 0 <= i < |parts[k]| ==> parts[k][i] != c
    ensures SplitOn(Join(parts, [c]), c) == parts
  {
    if |parts| == 1 {
      SplitOnPrefix(parts[0], "", c);
      assert SplitOn("", c) == [""];
      assert parts[0] + "" == parts[0];
      assert Join(parts, [c]) == parts[0];
    } else {
      var tail := Join(parts[1..], [c]);
      SplitJoin(parts[1..], c);
      assert parts[0] + [c] + tail == parts[0] + ([c] + tail);
      SplitOnPrefix(parts[0], [c] + tail, c);
      var t := [c] + tail;
      assert t[0] == c && t[1..] == tail;
      assert SplitOn(t, c) == [""] + parts[1..];
      assert parts[0] + "" == parts[0];
      assert parts == [parts[0]] + parts[1..];
      assert Join(parts, [c]) == parts[0] + [c] + tail;
    }
  }

  /** `split_whitespace`, scanning with the current partial word `cur`. */
  function WordsFrom(s: string, cur: string): seq<string>
    decreases |s|
  {
    if s == [] then (if cur == [] then [] else [cur])
    else if IsWhitespace(s[0]) then
      (if cur == [] then [] else [cur]) + WordsFrom(s[1..], "")
    else WordsFrom(s[1..], cur + [s[0]])
  }

  /** `s.split_whitespace()`: the maximal runs of non-whitespace characters. */
  function Words(s: string): seq<string> {
    WordsFrom(s, "")
  }

  lemma {:induction false} WordsFromAreWords(s: string, cur: string)
    requires NoWhitespace(cur)
    ensures forall k :: 0 <= k < |WordsFrom(s, cur)| ==> IsWord(WordsFrom(s, cur)[k])
    decreases |s|
  {
    if s != [] {
      if IsWhitespace(s[0]) {
        WordsFromAreWords(s[1..], "");
      } else {
        WordsFromAreWords(s[1..], cur + [s[0]]);
      }
    }
  }

  /** Every piece `split_whitespace` yields is a word. */
  lemma WordsAreWords(s: string)
    ensures forall k :: 0 <= k < |Words(s)| ==> IsWord(Words(s)[k])
  {
    WordsFromAreWords(s, "");
  }

  lemma {:induction false} WordsFromSkip(w: string, s: string, cur: string)
    requires NoWhitespace(w)
    ensures WordsFrom(w + s, cur) == WordsFrom(s, cur + w)
    decreases |w|
  {
    if w != [] {
      assert (w + s)[0] == w[0] && (w + s)[1..] == w[1..] + s;
      assert !IsWhitespace(w[0]);
      WordsFromSkip(w[1..], s, cur + [w[0]]);
      assert cur + [w[0]] + w[1..] == cur + w;
    } else {
      assert w + s == s && cur + w == cur;
    }
  }

  /** Splitting a space-joined list of words gives the words back. */
  lemma {:induction false} WordsOfJoin(ws: seq<string>)
    requires forall k :: 0 <= k < |ws| ==> IsWord(ws[k])
    ensures Words(Join(ws, " ")) == ws
  {
    if |ws| == 1 {
      WordsFromSkip(ws[0], "", "");
      assert ws[0] + "" == ws[0];
      assert "" + ws[0] == ws[0];
    } else if |ws| > 1 {
      var tail := Join(ws[1..], " ");
      WordsOfJoin(ws[1..]);
      assert ws[0] + " " + tail == ws[0] + (" " + tail);
      WordsFromSkip(ws[0], " " + tail, "");
      assert "" + ws[0] == ws[0];
      assert (" " + tail)[1..] == tail;
      assert ws == [ws[0]] + ws[1..];
    }
  }

  /**
   * Every whitespace character of `r` is a space, never at either end, and
   * never next to another whitespace character.
   */
  predicate SingleSpaced(r: string) {
    forall i :: 0 <= i < |r| && IsWhitespace(r[i]) ==>
      r[i] == ' ' && 0 < i < |r| - 1 && !IsWhitespace(r[i - 1]) && !IsWhitespace(r[i + 1])
  }

  /** Joining words with single spaces gives a single-spaced string. */
  lemma {:induction false} JoinWordsShape(ws: seq<string>)
    requires forall k :: 0 <= k < |ws| ==> IsWord(ws[k])
    ensures SingleSpaced(Join(ws, " "))
  {
    if |ws| == 1 {
      assert IsWord(ws[0]);
    } else if |ws| > 1 {
      var tail := Join(ws[1..], " ");
      JoinWordsShape(ws[1..]);
      var r := Join(ws, " ");
      assert r == ws[0] + " " + tail;
      var n := |ws[0]|;
      assert tail != [] && !IsWhitespace(tail[0]) by {
        if |ws[1..]| == 1 {
          assert tail == ws[1];
        } else {
          assert tail == ws[1] + " " + Join(ws[2..], " ");
        }
        assert IsWord(ws[1]);
      }
      forall i | 0 <= i < |r| && IsWhitespace(r[i])
        ensures r[i] == ' ' && 0 < i < |r| - 1 && !IsWhitespace(r[i - 1]) && !IsWhitespace(r[i + 1])
      {
        if i < n {
          assert false;
        } else if i > n {
          var j := i - n - 1;
          assert r[i] == tail[j];
          assert IsWhitespace(tail[j]);
          assert 0 <= j < |tail|;
          assert tail[j] == ' ' && 0 < j < |tail| - 1 && !IsWhitespace(tail[j - 1]) && !IsWhitespace(tail[j + 1]);
          assert r[i - 1] == tail[j - 1] && r[i + 1] == tail[j + 1];
        } else {
          assert IsWord(ws[0]);
          assert r[i - 1] == ws[0][n - 1];
          assert r[i + 1] == tail[0];
        }
      }
    }
  }

  /** Drops every leading `c`. */
  function TrimStart(s: string, c: char): string
    decreases |s|
  {
    if s != [] && s[0] == c then TrimStart(s[1..], c) else s
  }

  /** Drops every trailing `c`. */
  function TrimEnd(s: string, c: char): string
    decreases |s|
  {
    if s != [] && s[|s| - 1] == c then TrimEnd(s[..|s| - 1], c) else s
  }

  /** `s.trim_matches(c)`. */
  function TrimMatches(s: string, c: char): string {
    TrimEnd(TrimStart(s, c), c)
  }

  lemma {:induction false} TrimStartIsSuffix(s: string, c: char)
    ensures var t := TrimStart(s, c);
      |t| <= |s| && t == s[|s| - |t|..] && (t != [] ==> t[0] != c)
      && forall i :: 0 <= i < |s| - |t| ==> s[i] == c
    decreases |s|
  {
    if s != [] && s[0] == c {
      TrimStartIsSuffix(s[1..], c);
    }
  }

  lemma {:induction false} TrimEndIsPrefix(s: string, c: char)
    ensures var t := TrimEnd(s, c);
      |t| <= |s| && t == s[..|t|] && (t != [] ==> t[|t| - 1] != c)
      && forall i :: |t| <= i < |s| ==> s[i] == c
    decreases |s|
  {
    if s != [] && s[|s| - 1] == c {
      TrimEndIsPrefix(s[..|s| - 1], c);
    }
  }
}
