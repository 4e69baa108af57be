/**
 * String helpers of contrag-core (utils.rs): vector ids, whitespace
 * normalisation and truncation.
 */
module Utils {
  import opened Strings

  /** The ASCII digit for `d`. */
  function DigitChar(d: nat): char
    requires d < 10
  {
    (48 + d) as char
  }

  /** Decimal rendering of a `usize`, as `format!("{}", n)` gives it. */
  function NatToString(n: nat): (r: string)
    ensures |r| >= 1
    decreases n
  {
    if n < 10 then [DigitChar(n)] else NatToString(n / 10) + [DigitChar(n % 10)]
  }

  /** Different numbers have different decimal renderings. */
  lemma {:induction false} NatToStringInjective(a: nat, b: nat)
    requires NatToString(a) == NatToString(b)
    ensures a == b
    decreases a
  {
    var ra, rb := NatToString(a), NatToString(b);
    if a >= 10 && b >= 10 {
      assert ra[|ra| - 1] == DigitChar(a % 10) && rb[|rb| - 1] == DigitChar(b % 10);
      assert ra[..|ra| - 1] == NatToString(a / 10) && rb[..|rb| - 1] == NatToString(b / 10);
      NatToStringInjective(a / 10, b / 10);
    }
  }

  /** `generate_vector_id`: `<type>::<id>::chunk_<index>`. */
  function GenerateVectorId(entityType: string, entityId: string, chunkIndex: nat): string {
    entityType + "::" + entityId + "::chunk_" + NatToString(chunkIndex)
  }

  lemma GenerateVectorIdExample()
    ensures GenerateVectorId("User", "123", 0) == "User::123::chunk_0"
  {
  }

  /** For one entity, different chunk indices give different vector ids. */
  lemma VectorIdsDistinctPerChunk(entityType: string, entityId: string, m: nat, n: nat)
    requires m != n
    ensures GenerateVectorId(entityType, entityId, m) != GenerateVectorId(entityType, entityId, n)
  {
    var p := entityType + "::" + entityId + "::chunk_";
    if GenerateVectorId(entityType, entityId, m) == GenerateVectorId(entityType, entityId, n) {
      assert (p + NatToString(m))[|p|..] == NatToString(m);
      assert (p + NatToString(n))[|p|..] == NatToString(n);
      NatToStringInjective(m, n);
    }
  }

  /** Ids of different entities can coincide when a name contains `::`. */
  lemma VectorIdsCanCollide()
    ensures GenerateVectorId("a::b", "c", 0) == GenerateVectorId("a", "b::c", 0)
  {
  }

  /** `sanitize_text`: the words of the text joined by single spaces. */
  function SanitizeText(text: string): string {
    Join(Words(text), " ")
  }

  /**
   * Sanitising keeps the words and their order, and the result is
   * single-spaced: no leading or trailing whitespace, no whitespace run, and
   * no whitespace character other than a plain space.
   */
  lemma SanitizeTextKeepsWords(text: string)
    ensures Words(SanitizeText(text)) == Words(text)
    ensures SingleSpaced(SanitizeText(text))
  {
    WordsAreWords(text);
    WordsOfJoin(Words(text));
    JoinWordsShape(Words(text));
  }

  /** Sanitising twice is the same as sanitising once. */
  lemma SanitizeTextIdempotent(text: string)
    ensures SanitizeText(SanitizeText(text)) == SanitizeText(text)
  {
    SanitizeTextKeepsWords(text);
  }

  /** A non-empty run of whitespace ends the current word. */
  lemma {:induction false} WordsFromWhitespace(sp: string, s: string, cur: string)
    requires IsGap(sp)
    ensures WordsFrom(sp + s, cur) == (if cur == [] then [] else [cur]) + WordsFrom(s, "")
    decreases |sp|
  {
    assert (sp + s)[0] == sp[0] && (sp + s)[1..] == sp[1..] + s;
    if |sp| > 1 {
      WordsFromWhitespace(sp[1..], s, "");
    } else {
      assert sp[1..] + s == s;
    }
  }

  /** A non-empty run of whitespace characters. */
  predicate IsGap(s: string) {
    s != [] && forall i :: 0 <= i < |s| ==> IsWhitespace(s[i])
  }

  lemma ThreeWords(w1: string, g1: string, w2: string, g2: string, w3: string)
    requires IsWord(w1) && IsWord(w2) && IsWord(w3) && IsGap(g1) && IsGap(g2)
    ensures Words(w1 + g1 + w2 + g2 + w3) == [w1, w2, w3]
  {
    assert w1 + g1 + w2 + g2 + w3 == w1 + (g1 + (w2 + (g2 + (w3 + ""))));
    assert "" + w1 == w1 && "" + w2 == w2 && "" + w3 == w3 && w3 + "" == w3;
    WordsFromSkip(w1, g1 + (w2 + (g2 + (w3 + ""))), "");
    WordsFromWhitespace(g1, w2 + (g2 + (w3 + "")), w1);
    WordsFromSkip(w2, g2 + (w3 + ""), "");
    WordsFromWhitespace(g2, w3 + "", w2);
    WordsFromSkip(w3, "", "");
  }

  /** Three words separated by any whitespace runs come out separated by single spaces. */
  lemma SanitizeThreeWords(w1: string, g1: string, w2: string, g2: string, w3: string)
    requires IsWord(w1) && IsWord(w2) && IsWord(w3) && IsGap(g1) && IsGap(g2)
    ensures SanitizeText(w1 + g1 + w2 + g2 + w3) == w1 + " " + w2 + " " + w3
  {
    ThreeWords(w1, g1, w2, g2, w3);
    var ws := [w1, w2, w3];
    assert ws[1..][1..] == [w3];
    assert Join(ws[1..], " ") == w2 + " " + w3;
  }

  /** "Hello    world\n\n  test" becomes "Hello world test". */
  lemma SanitizeTextExample()
    ensures SanitizeText("Hello" + "    " + "world" + "\n\n  " + "test") == "Hello" + " " + "world" + " " + "test"
  {
    SanitizeThreeWords("Hello", "    ", "world", "\n\n  ", "test");
  }

  /** `truncate_text`: at most `maxLen` characters of the text, then `...` if cut. */
  function TruncateText(text: string, maxLen: nat): string {
    if |text| <= maxLen then text else text[..maxLen] + "..."
  }

  /**
   * A text that fits is returned unchanged; a longer one keeps exactly its
   * first `maxLen` characters and gains the three-dot marker.
   */
  lemma TruncateTextSpec(text: string, maxLen: nat)
    ensures var r := TruncateText(text, maxLen);
      (|text| <= maxLen ==> r == text)
      && (|text| > maxLen ==> |r| == maxLen + 3 && r[..maxLen] == text[..maxLen] && r[maxLen..] == "...")
  {
  }

  lemma TruncateTextExamples()
    ensures TruncateText("Hello world", 5) == "Hello..."
    ensures TruncateText("Hello world", 100) == "Hello world"
  {
  }
}
