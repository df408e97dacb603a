/** The relevance filter: five keyword lists and the boolean mask built from
    them, applied to the rows of one search's results. */
module Rules {
  import opened Wrappers
  import opened Text
  import opened Seqs
  import opened Frames

  /** The keyword lists the filter reads, fixed for the whole run. */
  datatype RuleSet = RuleSet(
    roles: seq<string>,               // some entry must occur in the title
    experienceTerms: seq<string>,     // some entry must occur in the title or the description
    seniorityExclusions: seq<string>, // no entry may occur in the title
    domainExclusions: seq<string>,    // no entry may occur in the title
    hardExclusions: seq<string>)      // no entry may occur in the description

  /** The job titles searched for, in the order they are searched. */
  const JobRoles: seq<string> := [
    "Business Analyst", "BI Analyst", "Data Business Analyst", "Business Data Analyst",
    "Business Systems Analyst", "IT Business Analyst", "Technical Business Analyst",
    "Reporting Analyst", "Strategy Analyst", "Decision Analyst", "Insights Analyst",
    "Financial Business Analyst", "Product Analyst", "Process Analyst", "Operations Analyst",
    "Business Operations Analyst", "Agile Business Analyst", "Digital Business Analyst",
    "Systems Analyst", "Associate Business Analyst", "Graduate Business Analyst"
  ]

  /** Entry-level markers. The joined pattern is a regular expression, so
      "1+ years" and "2+ years" there mean one or more '1' (or '2') followed
      by " years"; this model matches them literally instead. */
  const ExperienceFilters: seq<string> :=
    ["0-3 years", "Entry Level", "Junior", "Freshers", "1+ years", "2+ years", "Associate"]

  /** Seniority markers. In the regular expression "Sr." matches "Sr"
      followed by any character; this model matches the literal "Sr.". */
  const SeniorExclusionKeywords: seq<string> :=
    ["Senior", "Staff", "Lead", "Principal", "Director", "Sr.", "Head", "Expert"]

  /** Fields outside computing and analysis. */
  const NonCsExclusionKeywords: seq<string> := [
    "Civil Engineer", "Mechanical", "Electrical Engineer", "Doctor", "Nurse",
    "Pharmacist", "HR", "Marketing", "Sales", "Finance", "Accounting",
    "Construction", "Architect", "Legal", "Therapist", "Dentist",
    "Physical Therapy", "Retail", "Fashion", "Customer Service",
    "Professor", "Biology", "Chemistry", "Physics", "Biotech"
  ]

  /** Eligibility requirements that rule a posting out whatever its title. */
  const ExclusionKeywords: seq<string> :=
    ["US citizen", "US citizenship", "Green card", "security clearance"]

  const DefaultRules: RuleSet := RuleSet(
    JobRoles, ExperienceFilters, SeniorExclusionKeywords, NonCsExclusionKeywords, ExclusionKeywords)

  /** The description names an eligibility requirement. */
  predicate HardExcluded(rules: RuleSet, l: Listing)
  {
    MatchesAny(l.description, rules.hardExclusions)
  }

  /** The mask of the filter: all five conditions hold of the row. */
  predicate Relevant(rules: RuleSet, l: Listing)
  {
    && !HardExcluded(rules, l)
    && MatchesAny(l.title, rules.roles)
    && (MatchesAny(l.title, rules.experienceTerms) || MatchesAny(l.description, rules.experienceTerms))
    && !MatchesAny(l.title, rules.seniorityExclusions)
    && !MatchesAny(l.title, rules.domainExclusions)
  }

  /** The mask as a function of one row. */
  function Mask(rules: RuleSet): Listing -> bool
  {
    l => Relevant(rules, l)
  }

  /** `rows[mask]`: the rows for which the mask holds, in their original order. */
  function Filter(rules: RuleSet, rows: seq<Listing>): (r: seq<Listing>)
    ensures |r| <= |rows|
    ensures forall x :: x in r ==> x in rows && Relevant(rules, x)
  {
    Select(rows, Mask(rules))
  }

  /** The filter keeps exactly the positions where the mask holds, in order:
      its result is the subsequence of the input made of the relevant rows. */
  lemma FilterSelects(rules: RuleSet, rows: seq<Listing>)
    ensures exists idx :: Embeds(Filter(rules, rows), rows, idx)
                          && forall i :: 0 <= i < |rows| ==> (i in idx <==> Relevant(rules, rows[i]))
  {
    SelectExact(rows, Mask(rules));
    var idx :| Embeds(Filter(rules, rows), rows, idx)
               && forall i :: 0 <= i < |rows| ==> (i in idx <==> Mask(rules)(rows[i]));
    assert forall i :: 0 <= i < |rows| ==> (i in idx <==> Relevant(rules, rows[i]));
  }

  /** The filter's output is an order-preserving subsequence of its input. */
  lemma FilterIsSubsequence(rules: RuleSet, rows: seq<Listing>)
    ensures IsSubsequence(Filter(rules, rows), rows)
  {
    FilterSelects(rules, rows);
  }

  /** A relevant row of the input is kept. */
  lemma FilterKeepsRelevant(rules: RuleSet, rows: seq<Listing>, x: Listing)
    requires x in rows && Relevant(rules, x)
    ensures x in Filter(rules, rows)
  {
    SelectKeeps(rows, Mask(rules), x);
  }

  /** A description naming an eligibility requirement drops the row, whatever
      its title says. */
  lemma HardExclusionDrops(rules: RuleSet, rows: seq<Listing>, x: Listing, k: string)
    requires k in rules.hardExclusions
    requires x.description.Some? && ContainsIgnoreCase(x.description.value, k)
    ensures x !in Filter(rules, rows)
  {
  }

  /** A kept row's title names a role, and its title or description names an
      experience level. */
  lemma KeptNeedsRoleAndExperience(rules: RuleSet, rows: seq<Listing>, x: Listing)
    requires x in Filter(rules, rows)
    ensures x.title.Some? && exists k :: k in rules.roles && ContainsIgnoreCase(x.title.value, k)
    ensures exists k :: k in rules.experienceTerms
                        && ((x.title.Some? && ContainsIgnoreCase(x.title.value, k))
                            || (x.description.Some? && ContainsIgnoreCase(x.description.value, k)))
  {
  }

  /** A title naming a seniority level or an unrelated field drops the row. */
  lemma TitleExclusionDrops(rules: RuleSet, rows: seq<Listing>, x: Listing, k: string)
    requires k in rules.seniorityExclusions + rules.domainExclusions
    requires x.title.Some? && ContainsIgnoreCase(x.title.value, k)
    ensures x !in Filter(rules, rows)
  {
  }

  /** Missing cells never raise and never match: a row without a title is
      dropped; a row without a description is judged on its title alone. */
  lemma MissingCells(rules: RuleSet, rows: seq<Listing>, x: Listing)
    requires x in rows
    ensures x.title.None? ==> x !in Filter(rules, rows)
    ensures x.description.None? ==>
              (x in Filter(rules, rows) <==>
                 && MatchesAny(x.title, rules.roles)
                 && MatchesAny(x.title, rules.experienceTerms)
                 && !MatchesAny(x.title, rules.seniorityExclusions)
                 && !MatchesAny(x.title, rules.domainExclusions))
  {
    if x.description.None? && Relevant(rules, x) {
      FilterKeepsRelevant(rules, rows, x);
    }
  }

  /** A row with no excluded keyword, a role in its title and an experience
      term in its title or description is kept. */
  lemma CompliantKept(rules: RuleSet, rows: seq<Listing>, x: Listing)
    requires x in rows
    requires !MatchesAny(x.description, rules.hardExclusions)
    requires MatchesAny(x.title, rules.roles)
    requires !MatchesAny(x.title, rules.seniorityExclusions + rules.domainExclusions)
    requires exists k :: k in rules.experienceTerms
                         && ((x.title.Some? && ContainsIgnoreCase(x.title.value, k))
                             || (x.description.Some? && ContainsIgnoreCase(x.description.value, k)))
    ensures x in Filter(rules, rows)
  {
    var k :| k in rules.experienceTerms
             && ((x.title.Some? && ContainsIgnoreCase(x.title.value, k))
                 || (x.description.Some? && ContainsIgnoreCase(x.description.value, k)));
    if x.title.Some? && ContainsIgnoreCase(x.title.value, k) {
      assert MatchesAny(x.title, rules.experienceTerms);
    } else {
      assert MatchesAny(x.description, rules.experienceTerms);
    }
    FilterKeepsRelevant(rules, rows, x);
  }
}
