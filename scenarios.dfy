/** Worked cases of the whole pipeline on particular answers from the provider. */
module Scenarios {
  import opened Wrappers
  import opened Text
  import opened Frames
  import opened Rules
  import opened Fetch
  import opened Aggregate
  import opened Dedup

  /** A "Senior" title is dropped even though it names a searched role: a
      search whose only row is such a posting leaves the accumulator empty. */
  lemma SeniorPostingDropped(p: Provider, l: Listing)
    requires l.title == Some("Senior Business Analyst")
    requires p("Business Analyst").Success? && p("Business Analyst").value.rows == [l]
    ensures Collect(DefaultRules, p, ["Business Analyst"]).rows == []
  {
    var title := "Senior Business Analyst";
    var hay, needle := LowerStr(title), LowerStr("Senior");
    assert hay[0..|needle|] == needle;
    assert OccursAt(hay, needle, 0);
    assert MatchesAny(l.title, SeniorExclusionKeywords);
    assert !Relevant(DefaultRules, l);
    CollectOne(DefaultRules, p, "Business Analyst");
  }

  /** Two postings with the same URL, found by two different searches: only
      the first one found survives deduplication, with its own search term. */
  lemma SharedUrlKeepsFirst(a: Listing, b: Listing)
    requires a.jobUrl.Some? && a.jobUrl == b.jobUrl
    ensures KeepFirst([a, b], true) == [a]
  {
    KeepFirstAppend([a], b, true);
    KeepFirstAppend([], a, true);
    assert [a] == [] + [a];
    assert [a, b] == [a] + [b];
  }
}
