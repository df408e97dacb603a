/** One search: the provider's answer for a role, filtered and tagged with
    the role, or an empty frame on every path where the search yields nothing. */
module Fetch {
  import opened Wrappers
  import opened Seqs
  import opened Frames
  import opened Rules

  /** Every row with its `search_term` cell set to `role`. */
  function Tag(rows: seq<Listing>, role: string): (r: seq<Listing>)
  {
    seq(|rows|, i requires 0 <= i < |rows| => rows[i].(searchTerm := Some(role)))
  }

  /** Tagging does not change the mask's verdict on any row; rows that fit a
      frame fit it with `search_term` added, now carrying the tag. */
  lemma TagKeeps(rules: RuleSet, rows: seq<Listing>, columns: set<Column>, role: string)
    requires forall x :: x in rows ==> Fits(columns, x)
    ensures |Tag(rows, role)| == |rows|
    ensures forall i :: 0 <= i < |rows| ==> (Relevant(rules, Tag(rows, role)[i]) <==> Relevant(rules, rows[i]))
    ensures forall x :: x in Tag(rows, role) ==>
              && Fits(columns + {SearchTerm}, x) && x.searchTerm == Some(role)
              && ((forall y :: y in rows ==> Relevant(rules, y)) ==> Relevant(rules, x))
  {
    forall x | x in Tag(rows, role)
      ensures && Fits(columns + {SearchTerm}, x) && x.searchTerm == Some(role)
              && ((forall y :: y in rows ==> Relevant(rules, y)) ==> Relevant(rules, x))
    {
      var i :| 0 <= i < |rows| && Tag(rows, role)[i] == x;
      assert rows[i] in rows;
    }
  }

  /** Tagging rows drawn from `rows` gives rows drawn from `rows` tagged. */
  lemma TagFrom(sub: seq<Listing>, rows: seq<Listing>, role: string)
    requires forall x :: x in sub ==> x in rows
    ensures forall x :: x in Tag(sub, role) ==> x in Tag(rows, role)
  {
    forall x | x in Tag(sub, role) ensures x in Tag(rows, role) {
      var i :| 0 <= i < |sub| && Tag(sub, role)[i] == x;
      assert sub[i] in rows;
      var j :| 0 <= j < |rows| && rows[j] == sub[i];
      assert Tag(rows, role)[j] == x;
    }
  }

  /** The result of searching for `role`, given what the provider returned
      (`Failure` when the scrape raised). Every path that finds nothing,
      including an exception, gives `pd.DataFrame()`. */
  function FetchJobs(rules: RuleSet, fetched: Result<Frame, string>, role: string): (r: Frame)
    ensures IsEmpty(r) ==> r == EmptyFrame
    ensures fetched.Failure? ==> r == EmptyFrame
    ensures fetched.Success? && IsEmpty(fetched.value) ==> r == EmptyFrame
    ensures fetched.Success? && !(Title in fetched.value.columns && Description in fetched.value.columns) ==>
              r == EmptyFrame
    ensures !IsEmpty(r) ==> fetched.Success? && r.columns == fetched.value.columns + {SearchTerm}
    ensures forall x :: x in r.rows ==> x.searchTerm == Some(role) && Relevant(rules, x)
    ensures fetched.Success? ==> |r.rows| <= |fetched.value.rows|
    ensures forall x :: x in r.rows ==> fetched.Success? && x in Tag(fetched.value.rows, role)
  {
    match fetched
    case Failure(_) => EmptyFrame
    case Success(jobs) =>
      if IsEmpty(jobs) then EmptyFrame
      // reading a column the frame lacks raises KeyError, caught like any exception
      else if Title !in jobs.columns || Description !in jobs.columns then EmptyFrame
      else
        var kept := Filter(rules, jobs.rows);
        if kept == [] then EmptyFrame
        else
          var tagged := Tag(kept, role);
          TagKeeps(rules, kept, jobs.columns, role);
          TagFrom(kept, jobs.rows, role);
          Table(jobs.columns + {SearchTerm}, tagged)
  }

  /** A search that gets an answer with both text columns returns, tagged with
      the role, exactly the rows the mask holds for, in their original order. */
  lemma FetchJobsSelects(rules: RuleSet, jobs: Frame, role: string)
    requires Title in jobs.columns && Description in jobs.columns
    ensures exists idx :: Embeds(FetchJobs(rules, Success(jobs), role).rows, Tag(jobs.rows, role), idx)
                          && forall i :: 0 <= i < |jobs.rows| ==> (i in idx <==> Relevant(rules, jobs.rows[i]))
  {
    var kept := Filter(rules, jobs.rows);
    FilterSelects(rules, jobs.rows);
    var idx :| Embeds(kept, jobs.rows, idx)
               && forall i :: 0 <= i < |jobs.rows| ==> (i in idx <==> Relevant(rules, jobs.rows[i]));
    assert Embeds(Tag(kept, role), Tag(jobs.rows, role), idx);
    if kept == [] {
      assert Embeds(FetchJobs(rules, Success(jobs), role).rows, Tag(jobs.rows, role), idx);
    } else {
      assert FetchJobs(rules, Success(jobs), role).rows == Tag(kept, role);
    }
  }

  /** A relevant row of a usable answer reaches the search's result, tagged
      with the role, and the result is not empty. */
  lemma FetchJobsKeeps(rules: RuleSet, jobs: Frame, role: string, y: Listing)
    requires Title in jobs.columns && Description in jobs.columns
    requires y in jobs.rows && Relevant(rules, y)
    ensures !IsEmpty(FetchJobs(rules, Success(jobs), role))
    ensures y.(searchTerm := Some(role)) in FetchJobs(rules, Success(jobs), role).rows
  {
    var kept := Filter(rules, jobs.rows);
    FilterKeepsRelevant(rules, jobs.rows, y);
    var i :| 0 <= i < |kept| && kept[i] == y;
    assert Tag(kept, role)[i] == y.(searchTerm := Some(role));
  }
}
