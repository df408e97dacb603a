/** Case-insensitive substring search, the matching that `str.contains(...,
    case=False, na=False)` performs for each keyword of a list. */
module Text {
  import opened Wrappers

  /** ASCII lower-casing of one character; other characters are unchanged. */
  function Lower(c: char): char
  {
    if 'A' <= c <= 'Z' then (c as int + 32) as char else c
  }

  /** ASCII lower-casing of a whole string. */
  function LowerStr(s: string): string
  {
    seq(|s|, i requires 0 <= i < |s| => Lower(s[i]))
  }

  /** `needle` occurs in `hay` starting at position `i`. */
  ghost predicate OccursAt(hay: string, needle: string, i: int)
  {
    0 <= i && i + |needle| <= |hay| && hay[i..i + |needle|] == needle
  }

  /** Substring search, scanning start positions from left to right. */
  function Contains(hay: string, needle: string): (r: bool)
    ensures r <==> exists i :: OccursAt(hay, needle, i)
    decreases |hay|
  {
    if |needle| > |hay| then
      false
    else if hay[..|needle|] == needle then
      assert OccursAt(hay, needle, 0);
      true
    else
      ShiftOccurrence(hay, needle);
      Contains(hay[1..], needle)
  }

  /** When `needle` is not a prefix of `hay`, it occurs in `hay` exactly when
      it occurs in `hay` without its first character. */
  lemma ShiftOccurrence(hay: string, needle: string)
    requires |needle| <= |hay| && hay[..|needle|] != needle
    ensures (exists i :: OccursAt(hay, needle, i)) <==> (exists j :: OccursAt(hay[1..], needle, j))
  {
    forall i | OccursAt(hay, needle, i)
      ensures OccursAt(hay[1..], needle, i - 1)
    {
      assert i != 0;
      assert hay[1..][i - 1..i - 1 + |needle|] == hay[i..i + |needle|];
    }
    forall j | OccursAt(hay[1..], needle, j)
      ensures OccursAt(hay, needle, j + 1)
    {
      assert hay[1..][j..j + |needle|] == hay[j + 1..j + 1 + |needle|];
    }
  }

  /** `needle` occurs in `hay` when case is ignored. */
  predicate ContainsIgnoreCase(hay: string, needle: string)
  {
    Contains(LowerStr(hay), LowerStr(needle))
  }

  /** Whether a cell matches any keyword of the list. A missing cell never
      matches (`na=False`); otherwise the keywords are tried in order, as the
      alternatives of the joined pattern "k1|k2|...". An empty list matches
      nothing here, whereas joining an empty list gives the empty pattern,
      which matches every present cell; none of the script's lists is empty. */
  function MatchesAny(cell: Option<string>, keywords: seq<string>): (r: bool)
    ensures r <==> cell.Some? && exists k :: k in keywords && ContainsIgnoreCase(cell.value, k)
    decreases |keywords|
  {
    match cell
    case None => false
    case Some(s) =>
      if keywords == [] then false
      else ContainsIgnoreCase(s, keywords[0]) || MatchesAny(cell, keywords[1..])
  }

  /** Matching is plain substring search: a keyword matches wherever it occurs,
      including inside a longer word, and whatever the case of either side. */
  lemma {:induction false} InfixMatches(before: string, keyword: string, after: string)
    ensures ContainsIgnoreCase(before + keyword + after, keyword)
  {
    var hay := LowerStr(before + keyword + after);
    var k := LowerStr(keyword);
    assert hay[|before|..|before| + |k|] == k;
    assert OccursAt(hay, k, |before|);
  }

  /** Texts that agree up to case match the same keywords. */
  lemma SameUpToCase(h1: string, h2: string, needle: string)
    requires LowerStr(h1) == LowerStr(h2)
    ensures ContainsIgnoreCase(h1, needle) == ContainsIgnoreCase(h2, needle)
  {
  }

  /** Lower-casing the text first does not change whether a keyword matches. */
  lemma {:induction false} CaseBlind(hay: string, needle: string)
    ensures ContainsIgnoreCase(LowerStr(hay), needle) == ContainsIgnoreCase(hay, needle)
  {
    assert LowerStr(LowerStr(hay)) == LowerStr(hay);
  }
}
