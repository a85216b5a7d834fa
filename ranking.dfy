/** Scoring and ranking the candidates of one query (reconcile.py:100-128):
    the query's bucket, each row scored with quick_ratio, sorted by descending
    score with Python's stable `sorted(..., reverse=True)`, one result per row. */
module Ranking {
  import opened Similarity
  import opened Records
  import opened Index
  import Decimal

  /** The rows of a ranked list, in order. */
  function Rows(s: seq<Scored>): (rows: seq<Row>)
    ensures |rows| == |s|
    decreases |s|
  {
    if s == [] then [] else [s[0].row] + Rows(s[1..])
  }

  /** Every candidate row paired with the quick_ratio of the fingerprinted
      query `q` against the fingerprint of the row's `name_to_match`. */
  function ScoreRows(fp: string -> string, q: string, rows: seq<Row>): seq<Scored>
    decreases |rows|
  {
    if rows == [] then []
    else [Scored(rows[0], QuickRatio(q, fp(rows[0].nameToMatch)))] + ScoreRows(fp, q, rows[1..])
  }

  /** Scores never increase along the list. */
  predicate Descending(s: seq<Scored>)
  {
    forall i, j :: 0 <= i < j < |s| ==> AtMost(s[j].score, s[i].score)
  }

  /** The entries of `s` whose score equals `k`, in their order in `s`. */
  function WithScore(s: seq<Scored>, k: Fraction): seq<Scored>
    decreases |s|
  {
    if s == [] then []
    else (if Same(s[0].score, k) then [s[0]] else []) + WithScore(s[1..], k)
  }

  /** Places `x` in front of the first entry that does not score strictly higher. */
  function Insert(x: Scored, t: seq<Scored>): (r: seq<Scored>)
    ensures multiset(r) == multiset{x} + multiset(t)
    decreases |t|
  {
    if t == [] || AtMost(t[0].score, x.score) then [x] + t
    else
      assert t == [t[0]] + t[1..];
      [t[0]] + Insert(x, t[1..])
  }

  /** `sorted(s, key=score, reverse=True)`: a stable sort by descending score. */
  function SortDesc(s: seq<Scored>): (r: seq<Scored>)
    ensures multiset(r) == multiset(s)
    decreases |s|
  {
    if s == [] then []
    else
      assert s == [s[0]] + s[1..];
      Insert(s[0], SortDesc(s[1..]))
  }

  lemma {:induction false} InsertDescending(x: Scored, t: seq<Scored>)
    requires Descending(t)
    ensures Descending(Insert(x, t))
    decreases |t|
  {
    var r := Insert(x, t);
    if t == [] {
    } else if AtMost(t[0].score, x.score) {
      forall i, j | 0 <= i < j < |r| ensures AtMost(r[j].score, r[i].score) {
        if i == 0 {
          AtMostTrans(t[j - 1].score, t[0].score, x.score);
        }
      }
    } else {
      var rest := Insert(x, t[1..]);
      InsertDescending(x, t[1..]);
      AtMostTotal(t[0].score, x.score);
      forall i, j | 0 <= i < j < |r| ensures AtMost(r[j].score, r[i].score) {
        if i == 0 {
          var e := rest[j - 1];
          assert e in multiset(rest);
          if e != x {
            assert e in t[1..];
          }
        }
      }
    }
  }

  /** The sorted list is in descending score order. */
  lemma {:induction false} SortDescending(s: seq<Scored>)
    ensures Descending(SortDesc(s))
    decreases |s|
  {
    if s != [] {
      SortDescending(s[1..]);
      InsertDescending(s[0], SortDesc(s[1..]));
    }
  }

  lemma {:induction false} InsertKeepsTies(x: Scored, t: seq<Scored>, k: Fraction)
    requires Descending(t)
    ensures WithScore(Insert(x, t), k) == WithScore([x] + t, k)
    decreases |t|
  {
    if t != [] && !AtMost(t[0].score, x.score) {
      InsertKeepsTies(x, t[1..], k);
      assert Descending(t[1..]);
      assert ([x] + t)[1..] == t;
      assert ([x] + t[1..])[1..] == t[1..];
      if Same(x.score, k) && Same(t[0].score, k) {
        SameTrans(t[0].score, k, x.score);
        assert false;
      }
    }
  }

  /** Stability: entries with equal scores keep their relative order. */
  lemma {:induction false} SortKeepsTies(s: seq<Scored>, k: Fraction)
    ensures WithScore(SortDesc(s), k) == WithScore(s, k)
    decreases |s|
  {
    if s != [] {
      SortKeepsTies(s[1..], k);
      SortDescending(s[1..]);
      InsertKeepsTies(s[0], SortDesc(s[1..]), k);
      assert ([s[0]] + SortDesc(s[1..]))[1..] == SortDesc(s[1..]);
    }
  }

  lemma {:induction false} InsertRows(x: Scored, t: seq<Scored>)
    ensures multiset(Rows(Insert(x, t))) == multiset{x.row} + multiset(Rows(t))
    decreases |t|
  {
    if t != [] && !AtMost(t[0].score, x.score) {
      InsertRows(x, t[1..]);
      assert ([t[0]] + Insert(x, t[1..]))[1..] == Insert(x, t[1..]);
    } else {
      assert ([x] + t)[1..] == t;
    }
  }

  /** Sorting moves rows around but neither drops nor duplicates one. */
  lemma {:induction false} SortRows(s: seq<Scored>)
    ensures multiset(Rows(SortDesc(s))) == multiset(Rows(s))
    decreases |s|
  {
    if s != [] {
      SortRows(s[1..]);
      InsertRows(s[0], SortDesc(s[1..]));
    }
  }

  lemma {:induction false} ScoreRowsFacts(fp: string -> string, q: string, rows: seq<Row>)
    ensures Rows(ScoreRows(fp, q, rows)) == rows
    ensures |ScoreRows(fp, q, rows)| == |rows|
    ensures forall c :: c in ScoreRows(fp, q, rows) ==> c.row in rows && c.score == QuickRatio(q, fp(c.row.nameToMatch))
    decreases |rows|
  {
    if rows != [] {
      ScoreRowsFacts(fp, q, rows[1..]);
    }
  }

  lemma {:induction false} WithScoreOfTies(s: seq<Scored>, k: Fraction)
    requires forall c :: c in s ==> Same(c.score, k)
    ensures WithScore(s, k) == s
    decreases |s|
  {
    if s != [] {
      WithScoreOfTies(s[1..], k);
    }
  }

  /** When every candidate has the same score, sorting leaves the list as it is. */
  lemma SortOfTiesIsIdentity(s: seq<Scored>, k: Fraction)
    requires forall c :: c in s ==> Same(c.score, k)
    ensures SortDesc(s) == s
  {
    var r := SortDesc(s);
    assert forall c :: c in r ==> c in multiset(s);
    SortKeepsTies(s, k);
    WithScoreOfTies(s, k);
    WithScoreOfTies(r, k);
  }

  /** The fingerprint whose bucket a search reads: the query is fingerprinted
      once, and that fingerprint is fingerprinted again for the lookup. */
  function SearchKey(fp: string -> string, rawQuery: string): string
  {
    fp(fp(rawQuery))
  }

  /** The candidates of a search in the order they are reported. */
  function Ranked(fp: string -> string, idx: Buckets, rawQuery: string): seq<Scored>
  {
    SortDesc(ScoreRows(fp, fp(rawQuery), Lookup(idx, SearchKey(fp, rawQuery))))
  }

  /** One result record per ranked candidate, in rank order. */
  function Results(ranked: seq<Scored>): seq<ReconResult>
  {
    seq(|ranked|, i requires 0 <= i < |ranked| => ResultOf(ranked[i]))
  }

  /** The list `search(raw_query)` returns against the index `idx`. */
  function PureSearch(fp: string -> string, idx: Buckets, rawQuery: string): (rv: seq<ReconResult>)
    ensures |rv| == |Lookup(idx, SearchKey(fp, rawQuery))|
    ensures forall i :: 0 <= i < |rv| ==> rv[i].types == ["/geo/country"]
  {
    var scored := ScoreRows(fp, fp(rawQuery), Lookup(idx, SearchKey(fp, rawQuery)));
    ScoreRowsFacts(fp, fp(rawQuery), Lookup(idx, SearchKey(fp, rawQuery)));
    assert |SortDesc(scored)| == |multiset(SortDesc(scored))| == |multiset(scored)| == |scored|;
    assert METADATA.defaultTypes[0].id == "/geo/country";
    Results(Ranked(fp, idx, rawQuery))
  }

  /** One result per row of the query's bucket; an empty bucket gives an empty
      list rather than an error. */
  lemma OneResultPerCandidate(fp: string -> string, idx: Buckets, rawQuery: string)
    ensures multiset(Rows(Ranked(fp, idx, rawQuery))) == multiset(Lookup(idx, SearchKey(fp, rawQuery)))
    ensures |PureSearch(fp, idx, rawQuery)| == |Lookup(idx, SearchKey(fp, rawQuery))|
    ensures PureSearch(fp, idx, rawQuery) == [] <==> Lookup(idx, SearchKey(fp, rawQuery)) == []
  {
    var bucket := Lookup(idx, SearchKey(fp, rawQuery));
    var scored := ScoreRows(fp, fp(rawQuery), bucket);
    ScoreRowsFacts(fp, fp(rawQuery), bucket);
    SortRows(scored);
    assert |SortDesc(scored)| == |multiset(SortDesc(scored))| == |multiset(scored)| == |scored|;
  }

  /** Results are reported by non-increasing score. */
  lemma ResultsByDescendingScore(fp: string -> string, idx: Buckets, rawQuery: string)
    ensures forall i, j :: 0 <= i < j < |PureSearch(fp, idx, rawQuery)| ==>
      AtMost(PureSearch(fp, idx, rawQuery)[j].score, PureSearch(fp, idx, rawQuery)[i].score)
  {
    var ranked := Ranked(fp, idx, rawQuery);
    var rv := PureSearch(fp, idx, rawQuery);
    SortDescending(ScoreRows(fp, fp(rawQuery), Lookup(idx, SearchKey(fp, rawQuery))));
    forall i, j | 0 <= i < j < |rv| ensures AtMost(rv[j].score, rv[i].score) {
      PercentKeepsOrder(ranked[j].score, ranked[i].score);
    }
  }

  /** Candidates with equal scores are reported in bucket (retrieval) order. */
  lemma TiesInBucketOrder(fp: string -> string, idx: Buckets, rawQuery: string, k: Fraction)
    ensures WithScore(Ranked(fp, idx, rawQuery), k)
         == WithScore(ScoreRows(fp, fp(rawQuery), Lookup(idx, SearchKey(fp, rawQuery))), k)
  {
    SortKeepsTies(ScoreRows(fp, fp(rawQuery), Lookup(idx, SearchKey(fp, rawQuery))), k);
  }

  /** What each result says about the bucket row it was built from: its id and
      display name, the fixed type, the score (quick_ratio of the fingerprinted
      query against the row's fingerprint, times 100, within [0, 100]) repeated
      under both auxiliary labels, and a match verdict that holds exactly for a
      country whose fingerprint has the same characters as the query's. */
  lemma ResultDescribesCandidate(fp: string -> string, idx: Buckets, rawQuery: string, i: nat)
    requires i < |PureSearch(fp, idx, rawQuery)|
    ensures var r := Ranked(fp, idx, rawQuery)[i].row;
            var res := PureSearch(fp, idx, rawQuery)[i];
            && r in Lookup(idx, SearchKey(fp, rawQuery))
            && res.id == Decimal.NatToDecimal(r.id)
            && res.name == r.canonicalName
            && res.types == ["/geo/country"]
            && res.score == Percent(QuickRatio(fp(rawQuery), fp(r.nameToMatch)))
            && res.score.num <= 100 * res.score.den
            && res.allLabels.score == res.score
            && res.allLabels.weighted == res.score
            && (res.isMatch <==> r.kind == Country && multiset(fp(rawQuery)) == multiset(fp(r.nameToMatch)))
  {
    var bucket := Lookup(idx, SearchKey(fp, rawQuery));
    var scored := ScoreRows(fp, fp(rawQuery), bucket);
    var c := Ranked(fp, idx, rawQuery)[i];
    assert c in multiset(scored);
    ScoreRowsFacts(fp, fp(rawQuery), bucket);
    QuickRatioIsOne(fp(rawQuery), fp(c.row.nameToMatch));
  }

  /** Under the bucket invariant every candidate of a search has the same
      fingerprint, so all scores are equal and the results follow bucket order. */
  lemma RankedIsBucketOrder(fp: string -> string, idx: Buckets, rawQuery: string)
    requires BucketInvariant(fp, idx)
    ensures Rows(Ranked(fp, idx, rawQuery)) == Lookup(idx, SearchKey(fp, rawQuery))
    ensures forall c :: c in Ranked(fp, idx, rawQuery) ==>
      c.score == QuickRatio(fp(rawQuery), SearchKey(fp, rawQuery))
  {
    var key := SearchKey(fp, rawQuery);
    var bucket := Lookup(idx, key);
    var scored := ScoreRows(fp, fp(rawQuery), bucket);
    var k := QuickRatio(fp(rawQuery), key);
    ScoreRowsFacts(fp, fp(rawQuery), bucket);
    assert forall c :: c in scored ==> c.score == k;
    SortOfTiesIsIdentity(scored, k);
  }

  /** If the fingerprint of the query is itself a fixed point of fingerprinting,
      every candidate scores 100 and the verdict is `match` exactly for the
      country rows, in bucket order. */
  lemma FixedPointQueryMatchesCountries(fp: string -> string, idx: Buckets, rawQuery: string)
    requires BucketInvariant(fp, idx)
    requires fp(fp(rawQuery)) == fp(rawQuery)
    ensures var rv := PureSearch(fp, idx, rawQuery);
            var bucket := Lookup(idx, SearchKey(fp, rawQuery));
            && |rv| == |bucket|
            && forall i :: 0 <= i < |rv| ==>
                 rv[i].score.num == 100 * rv[i].score.den && (rv[i].isMatch <==> bucket[i].kind == Country)
  {
    var rv := PureSearch(fp, idx, rawQuery);
    var bucket := Lookup(idx, SearchKey(fp, rawQuery));
    RankedIsBucketOrder(fp, idx, rawQuery);
    OneResultPerCandidate(fp, idx, rawQuery);
    QuickRatioOfSelf(fp(rawQuery));
    var ranked := Ranked(fp, idx, rawQuery);
    forall i | 0 <= i < |rv|
      ensures rv[i].score.num == 100 * rv[i].score.den && (rv[i].isMatch <==> bucket[i].kind == Country)
    {
      assert ranked[i] in ranked;
      RowsAt(ranked, i);
    }
  }

  lemma {:induction false} RowsAt(s: seq<Scored>, i: nat)
    requires i < |s|
    ensures Rows(s)[i] == s[i].row
    decreases |s|
  {
    if i > 0 {
      RowsAt(s[1..], i - 1);
    }
  }
}
