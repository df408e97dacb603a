/** `drop_duplicates(subset=[key], keep="first")` on the accumulated frame. */
module Dedup {
  import opened Wrappers
  import opened Seqs
  import opened Frames

  /** The key column, chosen once for the whole frame: `job_url` when the frame
      has that column, `title` otherwise. */
  predicate KeyByUrl(f: Frame)
  {
    JobUrl in f.columns
  }

  /** A row's key; missing keys (NaN) compare equal to each other. */
  function Key(l: Listing, byUrl: bool): Option<string>
  {
    if byUrl then l.jobUrl else l.title
  }

  function KeysOf(rows: seq<Listing>, byUrl: bool): set<Option<string>>
  {
    set l | l in rows :: Key(l, byUrl)
  }

  lemma KeysOfAppend(rows: seq<Listing>, x: Listing, byUrl: bool)
    ensures KeysOf(rows + [x], byUrl) == KeysOf(rows, byUrl) + {Key(x, byUrl)}
  {
    var s := rows + [x];
    forall l | l in s ensures l in rows || l == x { }
    assert forall l :: l in rows ==> l in s;
  }

  /** No earlier row has the same key as row `i`. */
  ghost predicate FirstOccurrence(rows: seq<Listing>, byUrl: bool, i: int)
    requires 0 <= i < |rows|
  {
    forall j :: 0 <= j < i ==> Key(rows[j], byUrl) != Key(rows[i], byUrl)
  }

  /** Keep-first deduplication: a row is kept unless an earlier row has its key. */
  function KeepFirst(rows: seq<Listing>, byUrl: bool): (r: seq<Listing>)
    ensures forall x :: x in r ==> x in rows
    ensures KeysOf(r, byUrl) == KeysOf(rows, byUrl)
    ensures forall i, j :: 0 <= i < j < |r| ==> Key(r[i], byUrl) != Key(r[j], byUrl)
    decreases |rows|
  {
    if rows == [] then []
    else
      var init, last := rows[..|rows| - 1], rows[|rows| - 1];
      var prev := KeepFirst(init, byUrl);
      assert rows == init + [last];
      KeysOfAppend(init, last, byUrl);
      if Key(last, byUrl) in KeysOf(init, byUrl) then
        prev
      else
        KeysOfAppend(prev, last, byUrl);
        assert forall i :: 0 <= i < |prev| ==> Key(prev[i], byUrl) in KeysOf(prev, byUrl);
        prev + [last]
  }

  /** One more row: it is kept exactly when its key is new. */
  lemma KeepFirstAppend(rows: seq<Listing>, x: Listing, byUrl: bool)
    ensures KeepFirst(rows + [x], byUrl)
            == KeepFirst(rows, byUrl) + (if Key(x, byUrl) in KeysOf(rows, byUrl) then [] else [x])
  {
    assert (rows + [x])[..|rows|] == rows;
  }

  /** Row `n` of `rows + [x]`, the appended one, is a first occurrence exactly
      when its key is new; the earlier rows keep their status. */
  lemma FirstOccurrenceAppend(rows: seq<Listing>, x: Listing, byUrl: bool)
    ensures FirstOccurrence(rows + [x], byUrl, |rows|) <==> Key(x, byUrl) !in KeysOf(rows, byUrl)
    ensures forall i :: 0 <= i < |rows| ==>
              (FirstOccurrence(rows + [x], byUrl, i) <==> FirstOccurrence(rows, byUrl, i))
  {
    var s := rows + [x];
    if Key(x, byUrl) in KeysOf(rows, byUrl) {
      var l :| l in rows && Key(l, byUrl) == Key(x, byUrl);
      var j :| 0 <= j < |rows| && rows[j] == l;
      assert s[j] == l;
    } else {
      forall j | 0 <= j < |rows| ensures Key(s[j], byUrl) != Key(x, byUrl) {
        assert rows[j] in rows;
      }
    }
    forall i | 0 <= i < |rows|
      ensures FirstOccurrence(s, byUrl, i) <==> FirstOccurrence(rows, byUrl, i)
    {
      assert forall j :: 0 <= j <= i ==> s[j] == rows[j];
    }
  }

  /** The positions of the first row of each key, in increasing order. */
  ghost function FirstPositions(rows: seq<Listing>, byUrl: bool): seq<int>
    decreases |rows|
  {
    if rows == [] then []
    else
      var init := rows[..|rows| - 1];
      FirstPositions(init, byUrl)
      + (if Key(rows[|rows| - 1], byUrl) in KeysOf(init, byUrl) then [] else [|init|])
  }

  /** `FirstPositions` embeds the deduplicated rows and lists exactly the
      first occurrences. */
  lemma {:induction false} FirstPositionsExact(rows: seq<Listing>, byUrl: bool)
    ensures Embeds(KeepFirst(rows, byUrl), rows, FirstPositions(rows, byUrl))
    ensures forall i :: 0 <= i < |rows| ==> (i in FirstPositions(rows, byUrl) <==> FirstOccurrence(rows, byUrl, i))
    decreases |rows|
  {
    if rows != [] {
      var init, last := rows[..|rows| - 1], rows[|rows| - 1];
      assert rows == init + [last];
      var prev, idx := KeepFirst(init, byUrl), FirstPositions(init, byUrl);
      FirstPositionsExact(init, byUrl);
      KeepFirstAppend(init, last, byUrl);
      FirstOccurrenceAppend(init, last, byUrl);
      if Key(last, byUrl) in KeysOf(init, byUrl) {
        EmbedsSkip(prev, init, idx, last);
      } else {
        EmbedsTake(prev, init, idx, last);
      }
    }
  }

  /** Deduplication keeps exactly the first row of each key, in the original
      order: its result is the subsequence of first occurrences. */
  lemma KeepFirstSelects(rows: seq<Listing>, byUrl: bool)
    ensures exists idx :: Embeds(KeepFirst(rows, byUrl), rows, idx)
                          && forall i :: 0 <= i < |rows| ==> (i in idx <==> FirstOccurrence(rows, byUrl, i))
  {
    FirstPositionsExact(rows, byUrl);
  }

  /** `all_jobs_df.drop_duplicates(subset=[key], keep="first")`, scanning the
      rows once and remembering the keys already seen. */
  method DropDuplicates(f: Frame) returns (r: Frame)
    ensures r.columns == f.columns
    ensures r.rows == KeepFirst(f.rows, KeyByUrl(f))
    ensures forall i, j :: 0 <= i < j < |r.rows| ==> Key(r.rows[i], KeyByUrl(f)) != Key(r.rows[j], KeyByUrl(f))
    ensures KeysOf(r.rows, KeyByUrl(f)) == KeysOf(f.rows, KeyByUrl(f))
  {
    var byUrl := JobUrl in f.columns;
    var seen: set<Option<string>> := {};
    var kept: seq<Listing> := [];
    var i := 0;
    while i < |f.rows|
      invariant 0 <= i <= |f.rows|
      invariant seen == KeysOf(f.rows[..i], byUrl)
      invariant kept == KeepFirst(f.rows[..i], byUrl)
    {
      var row := f.rows[i];
      assert f.rows[..i + 1] == f.rows[..i] + [row];
      KeysOfAppend(f.rows[..i], row, byUrl);
      KeepFirstAppend(f.rows[..i], row, byUrl);
      var key := Key(row, byUrl);
      if key !in seen {
        kept := kept + [row];
        seen := seen + {key};
      }
      i := i + 1;
    }
    assert f.rows[..|f.rows|] == f.rows;
    r := Table(f.columns, kept);
  }
}
