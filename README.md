# lc-reconcile: a Dafny model of the reconciliation engine

This project models the request-level engine of the OWID country
reconciliation service (`reconcile.py`), an OpenRefine reconciliation
endpoint. The model covers three parts:

- **The cached fingerprint index** (`get_countries`). It groups every
  loaded row under the fingerprint of its `name_to_match`, keeps rows in
  retrieval order, and caches the result in Flask's `g`.
- **One search** (`search`). It fingerprints the query, fingerprints that
  fingerprint again, and looks up the bucket of the result. The
  `defaultdict` inserts an empty bucket when the key is missing. The search writes each candidate's
  quick_ratio into the row as `comparison_score`, sorts the candidates
  by descending score (stable), and emits one result record per
  candidate.
- **The `/reconcile` batch dispatch.** It answers with metadata when
  there are no queries. Otherwise it handles the entries in order, and
  the first entry that lacks a `type` or a `query` decides the answer:
  metadata when it lacks a `type`, a failure when it has a `type` but no
  `query`. When no entry lacks either, each caller key maps to
  `{"result": ...}`.

Modules, one file each:

- `wrappers.dfy`: `Option`.
- `similarity.dfy`: difflib's `quick_ratio`, computed as an exact
  fraction.
- `decimal.dfy`: `str(id)` for a non-negative id.
- `records.dfy`: rows, the metadata document and result records.
- `index.dfy`: the bucket map, its construction and the `defaultdict`
  lookup.
- `ranking.dfy`: scoring, the stable descending sort and the result list
  as functions, with their properties.
- `service.dfy`: the imperative part. Class `Context` stands for `g` and
  has the methods `GetCountries`, `Search` and `Reconcile`. The module
  also holds the batch-dispatch specification and its lemmas.

`fingerprints.generate` is an arbitrary total function `fp` (a constant of
the context). Nothing about it is assumed. The rows returned by the
database query are a parameter `loaded`.

Details of the code's behaviour that are easy to misread, kept as the
code has them:

- The bucket key is the fingerprint of the *fingerprinted* query,
  `fp(fp(raw))` (reconcile.py:101,106).
- The score compares `fp(raw)` with `fp(name_to_match)` (reconcile.py:108-110).
- quick_ratio is 1.0 exactly when the two fingerprints are anagrams, not
  only when they are equal. `Similarity.QuickRatioIsOne` states this.
- An entry with a `type` but no `query` raises `KeyError`, modelled as
  `MissingQueryField` (reconcile.py:187).
- A lookup of a missing fingerprint adds an empty bucket to the cached
  index (reconcile.py:50,106).

## Model

| member | source | states |
|---|---|---|
| Similarity.QuickRatio | reconcile.py:108-110 | quick_ratio is a fraction in [0, 1]; two empty strings score exactly 1 |
| Similarity.QuickRatioIsOne | reconcile.py:108-110 | the score is exactly 1.0 if and only if the two strings have the same characters with the same multiplicities |
| Similarity.QuickRatioOfSelf | reconcile.py:108-110 | a fingerprint compared with itself scores 1.0 |
| Similarity.QuickRatioSymmetric | reconcile.py:108-110 | the score does not depend on the order of the two strings |
| Similarity.QuickRatioDisjoint | reconcile.py:108-110 | strings with no character in common score 0 |
| Similarity.AtMostTrans | reconcile.py:112-114 | the order used as the sort key is transitive |
| Similarity.SameTrans | reconcile.py:112-114 | equality of scores (the tie relation of the sort) is transitive |
| Similarity.Percent | reconcile.py:120-124 | `score * 100` lies in [0, 100] for a score in [0, 1] and is exactly 100 for a score of 1 |
| Similarity.PercentKeepsOrder | reconcile.py:112-120 | scaling by 100 keeps the order of scores, in both directions |
| Decimal.NatToDecimal | reconcile.py:117 | `str(id)` is a decimal numeral: non-empty, digits only, no leading zero |
| Decimal.DecimalRoundTrip | reconcile.py:117 | reading the numeral back gives the id |
| Decimal.DecimalInjective | reconcile.py:117 | distinct ids get distinct `id` strings |
| Index.Touch | reconcile.py:106 | evaluating `countries[k]` adds key `k` with an empty bucket if it is missing and changes no other bucket |
| Index.TouchPreserves | reconcile.py:106 | the inserted empty bucket changes no lookup, no set of indexed rows and not the bucket invariant |
| Index.BuildBucketIsFilter | reconcile.py:50-55 | after the build, the bucket for `k` is exactly the loaded rows whose fingerprint is `k`, in retrieval order |
| Index.BuildKeys | reconcile.py:54-55 | the keys of the built index are exactly the fingerprints of the loaded rows |
| Index.BuildKeepsEveryRowOnce | reconcile.py:54-55 | each loaded row occurs in its own fingerprint's bucket as often as it was loaded, and in no other bucket |
| Index.Build | reconcile.py:50-55 | the index built by appending each loaded row to the bucket of its fingerprint; every row it holds sits under its own fingerprint. Its contents are stated by `Index.BuildBucketIsFilter`, `Index.BuildKeys`, `Index.BuildKeepsEveryRowOnce` and `Index.BuildRows` |
| Index.BuildRows | reconcile.py:54-55 | the built index holds exactly the loaded rows |
| Records.ResultOf | reconcile.py:115-126 | the record for one ranked candidate: its `id` is a numeral that reads back as the row's id, its name is the canonical name, its type is the first default type the metadata document advertises (reconcile.py:61-84, `Records.METADATA`), both labels repeat the score, the score is at most 100 for a quick_ratio of at most 1, and `match` holds exactly for a country scoring 100 |
| Ranking.Insert | reconcile.py:112-114 | one insertion step of the sort keeps all candidates (multiset) |
| Ranking.SortDesc | reconcile.py:112-114 | `sorted(..., reverse=True)` returns a permutation of its input |
| Ranking.SortDescending | reconcile.py:112-114 | the sorted candidates have non-increasing scores |
| Ranking.SortKeepsTies | reconcile.py:112-114 | the sort is stable: candidates with equal scores keep their relative order |
| Ranking.SortRows | reconcile.py:112-114 | the sort keeps the same rows with the same multiplicities |
| Ranking.ScoreRowsFacts | reconcile.py:107-110 | each candidate is paired with its quick_ratio against the fingerprinted query, in bucket order |
| Ranking.SortOfTiesIsIdentity | reconcile.py:112-114 | a list whose scores are all equal comes out of the sort unchanged |
| Ranking.PureSearch | reconcile.py:100-128 | the list `search` returns against a given index: as many results as the query's bucket has rows, each of type `/geo/country`. Its order, ties, records and match verdicts are stated by `Ranking.OneResultPerCandidate`, `Ranking.ResultsByDescendingScore`, `Ranking.TiesInBucketOrder` and `Ranking.ResultDescribesCandidate` |
| Ranking.OneResultPerCandidate | reconcile.py:106-128 | one result per row of the bucket (same rows, same multiplicities); no result exactly when the bucket is empty |
| Ranking.ResultsByDescendingScore | reconcile.py:112-120 | the reported scores are non-increasing along the result list |
| Ranking.TiesInBucketOrder | reconcile.py:106-114 | candidates with the same score appear in bucket (retrieval) order |
| Ranking.ResultDescribesCandidate | reconcile.py:115-126 | each result comes from a bucket row and gives `str(id)`, the canonical name, type `["/geo/country"]`, 100 × quick_ratio (at most 100) under `score` and both labels, and `match` if and only if the row is a country whose fingerprint is an anagram of the query's |
| Ranking.RankedIsBucketOrder | reconcile.py:106-114 | when every row sits under its own fingerprint, all candidates score the same and the results follow bucket order |
| Ranking.FixedPointQueryMatchesCountries | reconcile.py:101-121 | when fingerprinting the query's fingerprint changes nothing, every candidate scores 100 and `match` holds exactly for the country rows, in bucket order |
| Service.EmitResults | reconcile.py:112-126 | the emitting loop builds one record per ranked candidate, in ranked order |
| Service.Context.constructor | reconcile.py:47 | a fresh application context has no cached index |
| Service.Context.GetCountries | reconcile.py:46-58 | returns the cached index unchanged if there is one; otherwise builds it from the loaded rows, caches it, and the cache satisfies the bucket invariant |
| Service.Context.StoreScores | reconcile.py:107-110 | each candidate row's `comparison_score` becomes its quick_ratio against the query; no other row changes |
| Service.Context.Search | reconcile.py:100-128 | returns the ranked results for the query's bucket; the cache gains the empty bucket for a missing key; exactly the bucket's rows get their scores written |
| Service.Context.SearchNext | reconcile.py:187 | searching one more query of a batch reads only that query's bucket and extends the cache and score history by that query |
| Service.Context.Reconcile | reconcile.py:170-192 | no queries: the metadata document and no state change; otherwise the response of the batch dispatch against the index as it was on entry, with the cache and row scores left as the searched queries dictate |
| Service.Context.ReconcileBatch | reconcile.py:182-189 | the loop answers what the dispatch specification prescribes; the cache is touched once per searched query and each row keeps the score of the last search whose bucket holds it |
| Service.Dispatch | reconcile.py:182-189 | the response to a batch: a metadata answer is the document `Records.METADATA` (reconcile.py:69-84) and only comes from an entry without a `type`; a failure names the key of an entry with a `type` but no `query`; results keep every key already collected. Its all-or-nothing and per-key behaviour is stated by `Service.ResultsIffAllComplete`, `Service.MissingTypeGivesMetadata`, `Service.CompleteBatchKeys` and `Service.CompleteBatchResults` |
| Service.DispatchAfterPrefix | reconcile.py:183-188 | handling a prefix of complete entries leaves the rest of the batch to dispatch with the results collected so far |
| Service.DispatchStopsAt | reconcile.py:183-189 | the batch answers what its first incomplete entry dictates (metadata without `type`, failure without `query`), or all results when there is none |
| Service.ResultsIffAllComplete | reconcile.py:183-189 | all or nothing: the batch answers with results exactly when every entry has a `type` and a `query` |
| Service.MissingTypeGivesMetadata | reconcile.py:184-186 | when every entry has a `query` and some entry lacks a `type`, the whole batch answers with the metadata document |
| Service.CompleteBatchKeys | reconcile.py:182-189 | a complete batch answers with exactly the caller's keys |
| Service.CompleteBatchResults | reconcile.py:182-189 | in a complete batch with distinct keys, each key maps to `{"result": search(query)}` for its own entry |
| Service.TouchAllPreserves | reconcile.py:183-188 | the empty buckets inserted during a batch change no lookup, no set of rows and not the bucket invariant |
| Service.TouchAllKeys | reconcile.py:183-188 | after a batch, the cache has the original keys plus the search key of every searched query |
| Service.SearchReadsOneBucket | reconcile.py:106-128 | a search depends only on the bucket of its own key, so earlier lookups in the same batch do not change its results |

## Left out

- Flask routing, the choice between form and query-string `queries` by HTTP method (reconcile.py:175-178) and the JSONP wrapper `jsonpify` (reconcile.py:87-97) are not modelled. Responses are values of the `Response` datatype.
- `json.loads` (reconcile.py:181) is not modelled. `queries` arrives already parsed as an ordered list of entries, and `None` stands for an absent or empty parameter. Malformed JSON, or JSON that is not an object, is not modelled.
- A `query` value that is not a string is not modelled. A `type` that is JSON `null` behaves like a missing one (`qtype` is `None`).
- Duplicate keys in the `queries` object: `json.loads` keeps only the last one, while the model accepts any entry list. `Service.CompleteBatchResults` therefore requires distinct keys.
- The MySQL connection, the SQL text and the cursors (reconcile.py:14-23,52-53) are not modelled. The fetched rows are the parameter `loaded`, and the `type` column is the `Kind` datatype. Database failures are not modelled.
- `suggest_entity` and `flyout` (reconcile.py:131-167), the application configuration and `__main__` (reconcile.py:41-43,195-203) are not part of this model.
- `fingerprints.generate` is an uninterpreted total function. Its normalisation rules (case, punctuation, token order) are not modelled, so properties that depend on them appear as hypotheses, as in `Ranking.FixedPointQueryMatchesCountries`.
- Floating point: quick_ratio and `score * 100` are exact fractions. `score == 1.0` is read as "the fraction equals 1", which agrees with the float test for any realistic string length.
- Python's sort (Timsort) is modelled as a stable insertion sort. Both produce the same list, since a stable sort's output is unique.
- The `query_type` argument of `search` is accepted and ignored, as in the source.
- Row ids are non-negative integers (`nat`). A negative id would make `str(id)` start with `-`, which is not modelled.
- The lifetime of `g` (one application context per request) is not modelled. The `Context` object may be reused across any number of calls.
- Service.Context.Search: the score postcondition covers rows that existed before the call; rows allocated during the call are not mentioned.
- Service.Context.Reconcile: the score postcondition covers rows that existed before the call; rows allocated during the call are not mentioned.
