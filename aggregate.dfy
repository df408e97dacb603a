/** The search loop: every role in order, each search's rows appended to one
    accumulating frame. */
module Aggregate {
  import opened Wrappers
  import opened Frames
  import opened Rules
  import opened Fetch

  /** What the job board answers for a search term: rows, or the exception it raised. */
  type Provider = string -> Result<Frame, string>

  /** The search of one role. */
  function Search(rules: RuleSet, p: Provider, role: string): Frame
  {
    FetchJobs(rules, p(role), role)
  }

  /** Each role's search result, in role order. */
  function Searches(rules: RuleSet, p: Provider, roles: seq<string>): seq<Frame>
  {
    seq(|roles|, i requires 0 <= i < |roles| => Search(rules, p, roles[i]))
  }

  /** The frame built by concatenating, in order, every result that is not
      empty onto an initially empty frame. */
  function Accumulate(results: seq<Frame>): Frame
    decreases |results|
  {
    if results == [] then EmptyFrame
    else
      var acc := Accumulate(results[..|results| - 1]);
      var found := results[|results| - 1];
      if IsEmpty(found) then acc else Concat(acc, found)
  }

  /** The accumulator after searching `roles` in order. */
  function Collect(rules: RuleSet, p: Provider, roles: seq<string>): Frame
  {
    Accumulate(Searches(rules, p, roles))
  }

  /** One more role: its search result is concatenated unless it is empty. */
  lemma CollectStep(rules: RuleSet, p: Provider, roles: seq<string>, role: string)
    ensures Collect(rules, p, roles + [role])
            == var found := Search(rules, p, role);
               if IsEmpty(found) then Collect(rules, p, roles) else Concat(Collect(rules, p, roles), found)
  {
    var rs := Searches(rules, p, roles + [role]);
    assert rs[..|roles|] == Searches(rules, p, roles);
  }

  /** Runs the search loop: one search per role, in order, appending every
      non-empty result. `searched` lists the search terms sent to the provider. */
  method FetchAll(rules: RuleSet, p: Provider, roles: seq<string>) returns (all: Frame, searched: seq<string>)
    ensures all == Collect(rules, p, roles)
    ensures searched == roles
  {
    all := EmptyFrame;
    searched := [];
    var i := 0;
    while i < |roles|
      invariant 0 <= i <= |roles|
      invariant all == Collect(rules, p, roles[..i])
      invariant searched == roles[..i]
    {
      var role := roles[i];
      var jobs := FetchJobs(rules, p(role), role);
      searched := searched + [role];
      if !IsEmpty(jobs) {
        all := Concat(all, jobs);
      }
      assert roles[..i + 1] == roles[..i] + [role];
      CollectStep(rules, p, roles[..i], role);
      i := i + 1;
    }
    assert roles[..|roles|] == roles;
  }

  /** Accumulating two lists of results gives the rows of the first followed
      by the rows of the second, over the union of their columns. */
  lemma {:induction false} AccumulateAppend(xs: seq<Frame>, ys: seq<Frame>)
    ensures Accumulate(xs + ys).rows == Accumulate(xs).rows + Accumulate(ys).rows
    ensures Accumulate(xs + ys).columns == Accumulate(xs).columns + Accumulate(ys).columns
    decreases |ys|
  {
    if ys == [] {
      assert xs + ys == xs;
    } else {
      var ys', last := ys[..|ys| - 1], ys[|ys| - 1];
      assert (xs + ys)[..|xs + ys| - 1] == xs + ys';
      assert (xs + ys)[|xs + ys| - 1] == last;
      AccumulateAppend(xs, ys');
    }
  }

  /** Every accumulated row is a row of one of the results. */
  lemma {:induction false} AccumulateFrom(results: seq<Frame>, x: Listing)
    requires x in Accumulate(results).rows
    ensures exists k :: 0 <= k < |results| && x in results[k].rows
    decreases |results|
  {
    var init := results[..|results| - 1];
    if x in Accumulate(init).rows {
      AccumulateFrom(init, x);
      var k :| 0 <= k < |init| && x in init[k].rows;
      assert results[k] == init[k];
    }
  }

  /** Every accumulated row passes the mask and is tagged with one of the
      roles searched. */
  lemma CollectSound(rules: RuleSet, p: Provider, roles: seq<string>, x: Listing)
    requires x in Collect(rules, p, roles).rows
    ensures Relevant(rules, x) && x.searchTerm.Some? && x.searchTerm.value in roles
  {
    var results := Searches(rules, p, roles);
    AccumulateFrom(results, x);
    var k :| 0 <= k < |results| && x in results[k].rows;
    assert results[k] == FetchJobs(rules, p(roles[k]), roles[k]);
  }

  /** Searching `a` and then `b` gives the rows of `a`'s searches followed by
      those of `b`'s, over the union of their columns. */
  lemma CollectAppend(rules: RuleSet, p: Provider, a: seq<string>, b: seq<string>)
    ensures Collect(rules, p, a + b).rows == Collect(rules, p, a).rows + Collect(rules, p, b).rows
    ensures Collect(rules, p, a + b).columns == Collect(rules, p, a).columns + Collect(rules, p, b).columns
  {
    SearchesAppend(rules, p, a, b);
    AccumulateAppend(Searches(rules, p, a), Searches(rules, p, b));
  }

  lemma SearchesAppend(rules: RuleSet, p: Provider, a: seq<string>, b: seq<string>)
    ensures Searches(rules, p, a + b) == Searches(rules, p, a) + Searches(rules, p, b)
  {
    var ab, sa, sb := Searches(rules, p, a + b), Searches(rules, p, a), Searches(rules, p, b);
    forall i | 0 <= i < |ab| ensures ab[i] == (sa + sb)[i] {
      if i < |a| {
        assert (a + b)[i] == a[i];
      } else {
        assert (a + b)[i] == b[i - |a|];
      }
    }
  }

  /** Searching a single role gives that search's rows. */
  lemma CollectOne(rules: RuleSet, p: Provider, role: string)
    ensures Collect(rules, p, [role]).rows == Search(rules, p, role).rows
  {
    var rs := Searches(rules, p, [role]);
    var found := Search(rules, p, role);
    assert rs == [found];
    assert rs[..0] == [];
    assert Accumulate(rs) == if IsEmpty(found) then EmptyFrame else Concat(EmptyFrame, found);
  }

  /** The rows of each role's search, concatenated in role order. */
  function Concatenated(rules: RuleSet, p: Provider, roles: seq<string>): seq<Listing>
    decreases |roles|
  {
    if roles == [] then [] else Search(rules, p, roles[0]).rows + Concatenated(rules, p, roles[1..])
  }

  /** The accumulated rows are exactly the concatenation, in role order, of
      every role's filtered and tagged rows. */
  lemma {:induction false} CollectConcatenates(rules: RuleSet, p: Provider, roles: seq<string>)
    ensures Collect(rules, p, roles).rows == Concatenated(rules, p, roles)
    decreases |roles|
  {
    if roles == [] {
      assert Searches(rules, p, roles) == [];
    } else {
      assert roles == [roles[0]] + roles[1..];
      CollectAppend(rules, p, [roles[0]], roles[1..]);
      CollectOne(rules, p, roles[0]);
      CollectConcatenates(rules, p, roles[1..]);
    }
  }

  /** A role whose search raises or finds nothing contributes nothing: the
      result is what the roles before it and the roles after it give. */
  lemma RoleIsolation(rules: RuleSet, p: Provider, roles: seq<string>, i: int)
    requires 0 <= i < |roles|
    requires p(roles[i]).Failure? || IsEmpty(Search(rules, p, roles[i]))
    ensures Collect(rules, p, roles).rows
            == Collect(rules, p, roles[..i]).rows + Collect(rules, p, roles[i + 1..]).rows
  {
    var before, role, after := roles[..i], roles[i], roles[i + 1..];
    assert roles == before + [role] + after;
    CollectAppend(rules, p, before + [role], after);
    CollectAppend(rules, p, before, [role]);
    CollectOne(rules, p, role);
  }

  /** Every relevant row of every role whose search gets a usable answer is in
      the accumulated frame, tagged with that role, whatever the other roles'
      searches do. */
  lemma CollectComplete(rules: RuleSet, p: Provider, roles: seq<string>, i: int, y: Listing)
    requires 0 <= i < |roles| && p(roles[i]).Success?
    requires Title in p(roles[i]).value.columns && Description in p(roles[i]).value.columns
    requires y in p(roles[i]).value.rows && Relevant(rules, y)
    ensures y.(searchTerm := Some(roles[i])) in Collect(rules, p, roles).rows
  {
    var before, role, after := roles[..i], roles[i], roles[i + 1..];
    assert roles == before + [role] + after;
    CollectAppend(rules, p, before + [role], after);
    CollectAppend(rules, p, before, [role]);
    CollectOne(rules, p, role);
    FetchJobsKeeps(rules, p(role).value, role, y);
  }
}
