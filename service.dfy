/** The request-level engine of reconcile.py: the cached index (`get_countries`,
    lines 46-58), one search (`search`, lines 100-128) and the batch dispatch of
    `/reconcile` (lines 170-192).  Flask's `g` is the `Context` object. */
module Service {
  import opened Wrappers
  import opened Similarity
  import opened Records
  import opened Index
  import opened Ranking

  /** One entry of the parsed `queries` mapping: the caller's key, and the
      entry's `query` and `type` fields, either of which may be absent. */
  datatype Entry = Entry(key: string, query: Option<string>, qtype: Option<string>)

  /** `{"result": data}` for one caller key. */
  datatype Envelope = Envelope(result: seq<ReconResult>)

  /** What `/reconcile` answers: the metadata document, the per-key results, or
      the failure raised by `query['query']` on an entry without a `query` field. */
  datatype Response =
    | MetadataDoc(doc: ServiceMetadata)
    | BatchResults(results: map<string, Envelope>)
    | MissingQueryField(key: string)

  /** An entry that can be searched: it has both a `type` and a `query`. */
  predicate Complete(e: Entry)
  {
    e.qtype.Some? && e.query.Some?
  }

  /** The response to a batch, given what `search` returns for each query;
      `acc` holds the results of the entries already handled. */
  function Dispatch(search: string -> seq<ReconResult>, batch: seq<Entry>, acc: map<string, Envelope>): (r: Response)
    ensures r.MetadataDoc? ==> r.doc == METADATA && exists e :: e in batch && e.qtype.None?
    ensures r.MissingQueryField? ==> exists e :: e in batch && e.key == r.key && e.qtype.Some? && e.query.None?
    ensures r.BatchResults? ==> acc.Keys <= r.results.Keys
    decreases |batch|
  {
    if batch == [] then BatchResults(acc)
    else
      var e := batch[0];
      if e.qtype.None? then MetadataDoc(METADATA)
      else if e.query.None? then MissingQueryField(e.key)
      else Dispatch(search, batch[1..], acc[e.key := Envelope(search(e.query.value))])
  }

  /** The per-key results after handling `entries` in order, none of which
      stops the dispatch. */
  function Collected(search: string -> seq<ReconResult>, entries: seq<Entry>): map<string, Envelope>
    decreases |entries|
  {
    if entries == [] then map[]
    else
      var e := entries[|entries| - 1];
      var acc := Collected(search, entries[..|entries| - 1]);
      if e.query.Some? then acc[e.key := Envelope(search(e.query.value))] else acc
  }

  /** Handling a prefix of complete entries leaves the rest of the batch to
      dispatch with the results collected so far. */
  lemma {:induction false} DispatchAfterPrefix(search: string -> seq<ReconResult>, batch: seq<Entry>, i: nat)
    requires i <= |batch|
    requires forall j :: 0 <= j < i ==> Complete(batch[j])
    ensures Dispatch(search, batch, map[]) == Dispatch(search, batch[i..], Collected(search, batch[..i]))
    decreases i
  {
    if i == 0 {
      assert batch[0..] == batch;
    } else {
      DispatchAfterPrefix(search, batch, i - 1);
      assert batch[i - 1..][1..] == batch[i..];
      assert batch[..i][..i - 1] == batch[..i - 1];
    }
  }

  /** One more complete entry adds its key with the results of its query. */
  lemma CollectedStep(search: string -> seq<ReconResult>, batch: seq<Entry>, i: nat)
    requires i < |batch| && Complete(batch[i])
    ensures Collected(search, batch[..i + 1]) ==
            Collected(search, batch[..i])[batch[i].key := Envelope(search(batch[i].query.value))]
  {
    assert batch[..i + 1][..i] == batch[..i];
  }

  /** A batch whose first `i` entries are complete and whose entry `i` is not
      (or that has no entry `i`) answers what its first incomplete entry
      dictates, or the results of all its entries. */
  lemma DispatchStopsAt(search: string -> seq<ReconResult>, batch: seq<Entry>, i: nat)
    requires i <= |batch|
    requires forall j :: 0 <= j < i ==> Complete(batch[j])
    requires i == |batch| || !Complete(batch[i])
    ensures Dispatch(search, batch, map[]) ==
      if i == |batch| then BatchResults(Collected(search, batch[..i]))
      else if batch[i].qtype.None? then MetadataDoc(METADATA)
      else MissingQueryField(batch[i].key)
  {
    DispatchAfterPrefix(search, batch, i);
    if i < |batch| {
      assert batch[i..][0] == batch[i];
    } else {
      assert batch[i..] == [];
    }
  }

  /** `search` against a fixed index. */
  function Ranker(fp: string -> string, idx: Buckets): string -> seq<ReconResult>
  {
    q => PureSearch(fp, idx, q)
  }

  /** The queries a batch actually searches, in order: those before the first
      entry that stops the dispatch. */
  function Searched(batch: seq<Entry>): seq<string>
    decreases |batch|
  {
    if batch == [] || !Complete(batch[0]) then []
    else [batch[0].query.value] + Searched(batch[1..])
  }

  /** The first `|done|` entries of `batch` are complete and their queries are `done`. */
  predicate SearchedSoFar(batch: seq<Entry>, done: seq<string>)
  {
    && |done| <= |batch|
    && forall j :: 0 <= j < |done| ==> Complete(batch[j]) && done[j] == batch[j].query.value
  }

  /** Searching the next complete entry extends the searched prefix by its query. */
  lemma SearchedSoFarStep(batch: seq<Entry>, done: seq<string>)
    requires SearchedSoFar(batch, done)
    requires |done| < |batch| && Complete(batch[|done|])
    ensures SearchedSoFar(batch, done + [batch[|done|].query.value])
  {
  }

  /** When the first `|done|` entries are complete and searched `done`, and the
      batch stops right after them, the batch searches exactly `done`. */
  lemma {:induction false} SearchedPrefix(batch: seq<Entry>, done: seq<string>)
    requires SearchedSoFar(batch, done)
    requires |done| == |batch| || !Complete(batch[|done|])
    ensures Searched(batch) == done
    decreases |done|
  {
    if done != [] {
      SearchedPrefix(batch[1..], done[1..]);
      assert done == [done[0]] + done[1..];
    }
  }

  /** The index after searching each of `qs` in turn: one `Touch` per lookup. */
  function TouchAll(fp: string -> string, m: Buckets, qs: seq<string>): Buckets
    decreases |qs|
  {
    if qs == [] then m
    else Touch(TouchAll(fp, m, qs[..|qs| - 1]), SearchKey(fp, qs[|qs| - 1]))
  }

  /** The `comparison_score` of row `r` after searching each of `qs` in turn:
      the score from the last search whose bucket holds `r`, or `before`. */
  function ScoreAfter(fp: string -> string, idx: Buckets, qs: seq<string>, r: Row, before: Option<Fraction>): Option<Fraction>
    decreases |qs|
  {
    if qs == [] then before
    else
      var q := qs[|qs| - 1];
      if r in Lookup(idx, SearchKey(fp, q)) then Some(QuickRatio(fp(q), fp(r.nameToMatch)))
      else ScoreAfter(fp, idx, qs[..|qs| - 1], r, before)
  }

  lemma StepOfFolds(fp: string -> string, idx: Buckets, done: seq<string>, q: string)
    ensures TouchAll(fp, idx, done + [q]) == Touch(TouchAll(fp, idx, done), SearchKey(fp, q))
    ensures forall r: Row, before: Option<Fraction> ::
      ScoreAfter(fp, idx, done + [q], r, before) ==
        (if r in Lookup(idx, SearchKey(fp, q)) then Some(QuickRatio(fp(q), fp(r.nameToMatch)))
         else ScoreAfter(fp, idx, done, r, before))
  {
    assert (done + [q])[..|done|] == done;
  }

  /** The lookups of a batch change no bucket's contents, no set of rows and
      no invariant. */
  lemma {:induction false} TouchAllPreserves(fp: string -> string, m: Buckets, qs: seq<string>)
    ensures forall k :: Lookup(TouchAll(fp, m, qs), k) == Lookup(m, k)
    ensures RowsOf(TouchAll(fp, m, qs)) == RowsOf(m)
    ensures BucketInvariant(fp, m) ==> BucketInvariant(fp, TouchAll(fp, m, qs))
    decreases |qs|
  {
    if qs != [] {
      TouchAllPreserves(fp, m, qs[..|qs| - 1]);
      TouchPreserves(fp, TouchAll(fp, m, qs[..|qs| - 1]), SearchKey(fp, qs[|qs| - 1]));
    }
  }

  /** Each lookup of a batch adds the key it looked up, with an empty bucket
      when the key was missing; no other key appears. */
  lemma {:induction false} TouchAllKeys(fp: string -> string, m: Buckets, qs: seq<string>)
    ensures TouchAll(fp, m, qs).Keys == m.Keys + (set q | q in qs :: SearchKey(fp, q))
    decreases |qs|
  {
    if qs != [] {
      var init := qs[..|qs| - 1];
      TouchAllKeys(fp, m, init);
      assert qs == init + [qs[|qs| - 1]];
    }
  }

  /** A search's results depend on the index only through the bucket it reads. */
  lemma SearchReadsOneBucket(fp: string -> string, m1: Buckets, m2: Buckets, q: string)
    requires Lookup(m1, SearchKey(fp, q)) == Lookup(m2, SearchKey(fp, q))
    ensures PureSearch(fp, m1, q) == PureSearch(fp, m2, q)
  {
  }

  /** All or nothing: the response carries results exactly when every entry
      of the batch has both a `type` and a `query`. */
  lemma {:induction false} ResultsIffAllComplete(search: string -> seq<ReconResult>, batch: seq<Entry>, acc: map<string, Envelope>)
    ensures Dispatch(search, batch, acc).BatchResults? <==> forall e :: e in batch ==> Complete(e)
    decreases |batch|
  {
    if batch != [] {
      var e := batch[0];
      if Complete(e) {
        ResultsIffAllComplete(search, batch[1..], acc[e.key := Envelope(search(e.query.value))]);
        assert batch == [e] + batch[1..];
      }
    }
  }

  /** Fail-fast: when every entry has a `query` field and some entry lacks a
      `type`, the whole batch answers with the metadata document. */
  lemma {:induction false} MissingTypeGivesMetadata(search: string -> seq<ReconResult>, batch: seq<Entry>, acc: map<string, Envelope>)
    requires forall e :: e in batch ==> e.query.Some?
    requires exists e :: e in batch && e.qtype.None?
    ensures Dispatch(search, batch, acc) == MetadataDoc(METADATA)
    decreases |batch|
  {
    var e := batch[0];
    if e.qtype.Some? {
      var e' :| e' in batch && e'.qtype.None?;
      assert e' in batch[1..];
      MissingTypeGivesMetadata(search, batch[1..], acc[e.key := Envelope(search(e.query.value))]);
    }
  }

  /** The caller keys of a batch. */
  function KeysOf(batch: seq<Entry>): set<string>
  {
    set e | e in batch :: e.key
  }

  /** A complete batch answers with exactly the caller's keys, besides those
      already in `acc`, whose results it leaves alone. */
  lemma {:induction false} CompleteBatchKeys(search: string -> seq<ReconResult>, batch: seq<Entry>, acc: map<string, Envelope>)
    requires forall i :: 0 <= i < |batch| ==> batch[i].qtype.Some? && batch[i].query.Some?
    ensures Dispatch(search, batch, acc).BatchResults?
    ensures var out := Dispatch(search, batch, acc).results;
            && out.Keys == acc.Keys + KeysOf(batch)
            && (forall k :: k in acc && k !in KeysOf(batch) ==> out[k] == acc[k])
    decreases |batch|
  {
    if batch != [] {
      var e, rest := batch[0], batch[1..];
      CompleteBatchKeys(search, rest, acc[e.key := Envelope(search(e.query.value))]);
      assert batch == [e] + rest;
      assert KeysOf(batch) == {e.key} + KeysOf(rest);
    }
  }

  lemma FirstKeyNotRepeated(batch: seq<Entry>)
    requires batch != []
    requires forall i, j :: 0 <= i < j < |batch| ==> batch[i].key != batch[j].key
    ensures batch[0].key !in KeysOf(batch[1..])
  {
    forall e | e in batch[1..] ensures e.key != batch[0].key {
      var j :| 0 <= j < |batch[1..]| && batch[1..][j] == e;
      assert batch[j + 1] == e;
    }
  }

  /** In a complete batch with distinct keys (as a parsed JSON object has),
      each caller key maps to `{"result": search(query)}` for its entry. */
  lemma {:induction false} CompleteBatchResults(search: string -> seq<ReconResult>, batch: seq<Entry>, acc: map<string, Envelope>)
    requires forall i :: 0 <= i < |batch| ==> batch[i].qtype.Some? && batch[i].query.Some?
    requires forall i, j :: 0 <= i < j < |batch| ==> batch[i].key != batch[j].key
    ensures Dispatch(search, batch, acc).BatchResults?
    ensures forall i :: 0 <= i < |batch| ==>
      && batch[i].key in Dispatch(search, batch, acc).results
      && Dispatch(search, batch, acc).results[batch[i].key] == Envelope(search(batch[i].query.value))
    decreases |batch|
  {
    CompleteBatchKeys(search, batch, acc);
    if batch != [] {
      var e, rest := batch[0], batch[1..];
      var acc' := acc[e.key := Envelope(search(e.query.value))];
      CompleteBatchResults(search, rest, acc');
      CompleteBatchKeys(search, rest, acc');
      FirstKeyNotRepeated(batch);
      var out := Dispatch(search, batch, acc).results;
      forall i | 0 <= i < |batch|
        ensures batch[i].key in out && out[batch[i].key] == Envelope(search(batch[i].query.value))
      {
        assert batch[i] in batch;
        if i > 0 {
          assert rest[i - 1] == batch[i];
        }
      }
    }
  }

  /** The second loop of `search`: one result record per ranked candidate, in order. */
  method EmitResults(ordered: seq<Scored>) returns (rv: seq<ReconResult>)
    ensures rv == Results(ordered)
  {
    rv := [];
    for i := 0 to |ordered|
      invariant |rv| == i
      invariant forall j :: 0 <= j < i ==> rv[j] == ResultOf(ordered[j])
    {
      rv := rv + [ResultOf(ordered[i])];
    }
  }

  /** The Flask application context `g`: the cached index, absent until the
      first search of the context builds it. */
  class Context {
    /** `fingerprints.generate`, treated as an arbitrary total function. */
    const fp: string -> string
    var countries: Option<Buckets>

    ghost predicate Valid()
      reads this
    {
      countries.Some? ==> BucketInvariant(fp, countries.value)
    }

    /** A fresh context: nothing cached yet. */
    constructor (fp: string -> string)
      ensures Valid() && this.fp == fp && countries == None
    {
      this.fp := fp;
      countries := None;
    }

    /** The index the next lookup reads: the cached one, or the one a build
        from `loaded` (what the backing store returns) would produce. */
    function IndexFor(loaded: seq<Row>): Buckets
      reads this
    {
      if countries.Some? then countries.value else Build(fp, loaded)
    }

    /** `get_countries`: returns the cached index; on first use builds it by
        appending every loaded row to the bucket of its fingerprint and caches it. */
    method GetCountries(loaded: seq<Row>) returns (index: Buckets)
      requires Valid()
      modifies this
      ensures Valid()
      ensures old(countries).Some? ==> index == old(countries).value && countries == old(countries)
      ensures old(countries).None? ==> index == Build(fp, loaded) && countries == Some(index)
    {
      if countries.Some? {
        index := countries.value;
        return;
      }
      index := map[];
      for i := 0 to |loaded|
        invariant index == Build(fp, loaded[..i])
      {
        var r := loaded[i];
        var key := fp(r.nameToMatch);
        var bucket := if key in index then index[key] else [];
        index := index[key := bucket + [r]];
        assert loaded[..i + 1][..i] == loaded[..i];
      }
      assert loaded[..|loaded|] == loaded;
      countries := Some(index);
    }

    /** `search(raw_query, query_type)`: looks the doubly fingerprinted query up
        (inserting an empty bucket for a missing key), stores each candidate's
        score in the row, and returns the ranked results.  `queryType` is unused. */
    method Search(rawQuery: string, queryType: string, loaded: seq<Row>) returns (rv: seq<ReconResult>)
      requires Valid()
      modifies this, RowsOf(IndexFor(loaded))
      ensures Valid()
      ensures rv == PureSearch(fp, old(IndexFor(loaded)), rawQuery)
      ensures countries == Some(Touch(old(IndexFor(loaded)), SearchKey(fp, rawQuery)))
      ensures forall r: Row :: old(allocated(r)) ==>
        r.comparisonScore ==
          if r in Lookup(old(IndexFor(loaded)), SearchKey(fp, rawQuery))
          then Some(QuickRatio(fp(rawQuery), fp(r.nameToMatch)))
          else old(r.comparisonScore)
    {
      var query := fp(rawQuery);
      var index := GetCountries(loaded);
      ghost var idx := index;
      assert idx == old(IndexFor(loaded));
      var key := fp(query);
      if key !in index {
        index := index[key := []];
        countries := Some(index);
      }
      TouchPreserves(fp, idx, key);
      var matches := index[key];
      assert matches == Lookup(idx, key);
      assert forall r :: r in matches ==> r in RowsOf(idx);
      StoreScores(query, matches);
      // The sort key `comparison_score` is the value just stored in each row.
      ScoreRowsFacts(fp, query, matches);
      assert forall c :: c in ScoreRows(fp, query, matches) ==> c.row.comparisonScore == Some(c.score);
      var ordered := SortDesc(ScoreRows(fp, query, matches));
      rv := EmitResults(ordered);
    }

    /** The first loop of `search`: each candidate row stores its quick_ratio
        against the fingerprinted query as its `comparison_score`. */
    method StoreScores(query: string, matches: seq<Row>)
      modifies set r | r in matches
      ensures forall r: Row :: old(allocated(r)) ==>
        r.comparisonScore ==
          if r in matches then Some(QuickRatio(query, fp(r.nameToMatch))) else old(r.comparisonScore)
    {
      for i := 0 to |matches|
        invariant forall r: Row :: old(allocated(r)) ==>
          r.comparisonScore ==
            if r in matches[..i] then Some(QuickRatio(query, fp(r.nameToMatch))) else old(r.comparisonScore)
      {
        var m := matches[i];
        m.comparisonScore := Some(QuickRatio(query, fp(m.nameToMatch)));
        assert matches[..i + 1] == matches[..i] + [m];
      }
      assert matches[..|matches|] == matches;
    }

    /** One complete entry of a batch: `search` of its query, once the queries
        `done` before it have been searched starting from the index `idx`.
        Only the bucket of this query matters, so the result is what the same
        search against `idx` gives. */
    method SearchNext(ghost idx: Buckets, ghost done: seq<string>, q: string, qtype: string, loaded: seq<Row>)
      returns (data: seq<ReconResult>)
      requires Valid()
      requires IndexFor(loaded) == TouchAll(fp, idx, done)
      modifies this, RowsOf(idx)
      ensures Valid()
      ensures data == PureSearch(fp, idx, q)
      ensures countries == Some(TouchAll(fp, idx, done + [q]))
      ensures IndexFor(loaded) == TouchAll(fp, idx, done + [q])
      ensures forall r: Row, before: Option<Fraction> ::
        old(allocated(r)) && old(r.comparisonScore) == ScoreAfter(fp, idx, done, r, before) ==>
        r.comparisonScore == ScoreAfter(fp, idx, done + [q], r, before)
    {
      TouchAllPreserves(fp, idx, done);
      StepOfFolds(fp, idx, done, q);
      SearchReadsOneBucket(fp, IndexFor(loaded), idx, q);
      data := Search(q, qtype, loaded);
    }

    /** `/reconcile`: with no `queries` (absent or an empty string) answers the
        metadata; otherwise searches the entries in order, stops at the first
        entry without a `type` (metadata) or without a `query` (failure), and
        else maps each caller key to its results. */
    method Reconcile(queries: Option<seq<Entry>>, loaded: seq<Row>) returns (resp: Response)
      requires Valid()
      modifies this, RowsOf(IndexFor(loaded))
      ensures Valid()
      ensures queries.None? ==> resp == MetadataDoc(METADATA)
      ensures queries.Some? ==> resp == Dispatch(Ranker(fp, old(IndexFor(loaded))), queries.value, map[])
      ensures var qs := if queries.None? then [] else Searched(queries.value);
              && countries == (if qs == [] then old(countries) else Some(TouchAll(fp, old(IndexFor(loaded)), qs)))
              && forall r: Row :: old(allocated(r)) ==>
                   r.comparisonScore == ScoreAfter(fp, old(IndexFor(loaded)), qs, r, old(r.comparisonScore))
    {
      if queries.None? {
        return MetadataDoc(METADATA);
      }
      resp := ReconcileBatch(queries.value, loaded);
    }

    /** The loop of `/reconcile` over the entries of a batch. */
    method ReconcileBatch(batch: seq<Entry>, loaded: seq<Row>) returns (resp: Response)
      requires Valid()
      modifies this, RowsOf(IndexFor(loaded))
      ensures Valid()
      ensures resp == Dispatch(Ranker(fp, old(IndexFor(loaded))), batch, map[])
      ensures countries == (if Searched(batch) == [] then old(countries) else Some(TouchAll(fp, old(IndexFor(loaded)), Searched(batch))))
      ensures forall r: Row :: old(allocated(r)) ==>
                r.comparisonScore == ScoreAfter(fp, old(IndexFor(loaded)), Searched(batch), r, old(r.comparisonScore))
    {
      ghost var idx := IndexFor(loaded);
      assert idx == old(IndexFor(loaded));
      ghost var done: seq<string> := [];
      var results := map[];
      var i := 0;
      while i < |batch| && Complete(batch[i])
        invariant 0 <= i <= |batch|
        invariant Valid()
        invariant results == Collected(Ranker(fp, idx), batch[..i])
        invariant |done| == i
        invariant SearchedSoFar(batch, done)
        invariant countries == if done == [] then old(countries) else Some(TouchAll(fp, idx, done))
        invariant IndexFor(loaded) == TouchAll(fp, idx, done)
        invariant forall r: Row :: old(allocated(r)) ==> r.comparisonScore == ScoreAfter(fp, idx, done, r, old(r.comparisonScore))
      {
        var e := batch[i];
        var q := e.query.value;
        var data := SearchNext(idx, done, q, e.qtype.value, loaded);
        assert Ranker(fp, idx)(q) == data;
        CollectedStep(Ranker(fp, idx), batch, i);
        results := results[e.key := Envelope(data)];
        SearchedSoFarStep(batch, done);
        done := done + [q];
        i := i + 1;
      }
      SearchedPrefix(batch, done);
      DispatchStopsAt(Ranker(fp, idx), batch, i);
      if i == |batch| {
        resp := BatchResults(results);
      } else if batch[i].qtype.None? {
        resp := MetadataDoc(METADATA);
      } else {
        resp := MissingQueryField(batch[i].key);
      }
    }
  }
}
