/** The reference index: loaded rows grouped by the fingerprint of their name
    (reconcile.py:46-58).  The index is a `defaultdict(list)`, so a lookup of a
    missing key inserts an empty bucket. */
module Index {
  import opened Records

  /** Fingerprint -> the rows whose `name_to_match` has that fingerprint. */
  type Buckets = map<string, seq<Row>>

  /** What `countries[k]` evaluates to: the bucket, or an empty list. */
  function Lookup(m: Buckets, k: string): seq<Row>
  {
    if k in m then m[k] else []
  }

  /** The index after `countries[k]` was evaluated: a missing key now holds an
      empty bucket and nothing else differs. */
  function Touch(m: Buckets, k: string): (m': Buckets)
    ensures m'.Keys == m.Keys + {k}
    ensures forall k' :: k' in m ==> m'[k'] == m[k']
    ensures k !in m ==> m'[k] == []
  {
    if k in m then m else m[k := []]
  }

  /** The index after `rv[k].append(r)`. */
  function AppendTo(m: Buckets, k: string, r: Row): Buckets
  {
    m[k := Lookup(m, k) + [r]]
  }

  /** The index built from `rows` by appending each row, in retrieval order,
      to the bucket of its fingerprint. */
  function Build(fp: string -> string, rows: seq<Row>): (m: Buckets)
    ensures BucketInvariant(fp, m)
    decreases |rows|
  {
    if rows == [] then map[]
    else
      var r := rows[|rows| - 1];
      AppendTo(Build(fp, rows[..|rows| - 1]), fp(r.nameToMatch), r)
  }

  /** Independent reference: the rows of `rows` whose fingerprint is `k`, in order. */
  function KeyedBy(fp: string -> string, rows: seq<Row>, k: string): seq<Row>
    decreases |rows|
  {
    if rows == [] then []
    else (if fp(rows[0].nameToMatch) == k then [rows[0]] else []) + KeyedBy(fp, rows[1..], k)
  }

  /** Every row sits in the bucket keyed by its own fingerprint. */
  ghost predicate BucketInvariant(fp: string -> string, m: Buckets)
  {
    forall k, r :: k in m && r in m[k] ==> fp(r.nameToMatch) == k
  }

  /** All rows held by the index. */
  function RowsOf(m: Buckets): set<Row>
  {
    set k, r | k in m && r in m[k] :: r
  }

  lemma {:induction false} KeyedByAppend(fp: string -> string, rows: seq<Row>, r: Row, k: string)
    ensures KeyedBy(fp, rows + [r], k) == KeyedBy(fp, rows, k) + (if fp(r.nameToMatch) == k then [r] else [])
    decreases |rows|
  {
    if rows != [] {
      assert (rows + [r])[1..] == rows[1..] + [r];
      KeyedByAppend(fp, rows[1..], r, k);
    }
  }

  /** After a build, the bucket for `k` holds exactly the loaded rows with
      fingerprint `k`, in retrieval order; a key no row has gives an empty bucket. */
  lemma {:induction false} BuildBucketIsFilter(fp: string -> string, rows: seq<Row>, k: string)
    ensures Lookup(Build(fp, rows), k) == KeyedBy(fp, rows, k)
    decreases |rows|
  {
    if rows != [] {
      var init, r := rows[..|rows| - 1], rows[|rows| - 1];
      assert rows == init + [r];
      BuildBucketIsFilter(fp, init, k);
      KeyedByAppend(fp, init, r, k);
    }
  }

  /** The keys of a freshly built index are exactly the fingerprints of the loaded rows. */
  lemma {:induction false} BuildKeys(fp: string -> string, rows: seq<Row>)
    ensures Build(fp, rows).Keys == set r | r in rows :: fp(r.nameToMatch)
    decreases |rows|
  {
    if rows != [] {
      var init, r := rows[..|rows| - 1], rows[|rows| - 1];
      assert rows == init + [r];
      BuildKeys(fp, init);
    }
  }

  lemma {:induction false} KeyedByCount(fp: string -> string, rows: seq<Row>, k: string, r: Row)
    ensures multiset(KeyedBy(fp, rows, k))[r] == if fp(r.nameToMatch) == k then multiset(rows)[r] else 0
    decreases |rows|
  {
    if rows != [] {
      assert rows == [rows[0]] + rows[1..];
      KeyedByCount(fp, rows[1..], k, r);
    }
  }

  /** No row is lost or duplicated: each occurrence of a loaded row is found once,
      in the bucket of its fingerprint, and in no other bucket. */
  lemma BuildKeepsEveryRowOnce(fp: string -> string, rows: seq<Row>, k: string, r: Row)
    ensures multiset(Lookup(Build(fp, rows), k))[r] == if fp(r.nameToMatch) == k then multiset(rows)[r] else 0
  {
    BuildBucketIsFilter(fp, rows, k);
    KeyedByCount(fp, rows, k, r);
  }

  /** A freshly built index holds exactly the loaded rows. */
  lemma BuildRows(fp: string -> string, rows: seq<Row>)
    ensures RowsOf(Build(fp, rows)) == set r | r in rows
  {
    var m := Build(fp, rows);
    BuildKeys(fp, rows);
    forall r | r in rows ensures r in RowsOf(m) {
      var k := fp(r.nameToMatch);
      BuildKeepsEveryRowOnce(fp, rows, k, r);
      assert k in m && r in m[k];
    }
    forall r | r in RowsOf(m) ensures r in rows {
      var k :| k in m && r in m[k];
      BuildKeepsEveryRowOnce(fp, rows, k, r);
    }
  }

  /** The empty bucket a lookup inserts changes no lookup, no row set and no invariant. */
  lemma TouchPreserves(fp: string -> string, m: Buckets, k: string)
    ensures forall k' :: Lookup(Touch(m, k), k') == Lookup(m, k')
    ensures RowsOf(Touch(m, k)) == RowsOf(m)
    ensures BucketInvariant(fp, m) ==> BucketInvariant(fp, Touch(m, k))
  {
  }
}
