/** The rows the matching engine works on, the result records it emits and the
    static service metadata (reconcile.py:14-23, 61-84, 116-126). */
module Records {
  import opened Wrappers
  import opened Similarity
  import Decimal

  /** The `type` column of a loaded row: a country name variant or another entity. */
  datatype Kind = Country | Entity

  /** One row of the reference list as the backing store returns it.  The
      columns never change; `comparisonScore` is absent until a search scores
      the row and is then overwritten by every search that looks at its bucket. */
  class Row {
    const id: nat
    const nameToMatch: string
    const canonicalName: string
    const kind: Kind
    var comparisonScore: Option<Fraction>

    constructor (id: nat, nameToMatch: string, canonicalName: string, kind: Kind)
      ensures this.id == id && this.nameToMatch == nameToMatch
      ensures this.canonicalName == canonicalName && this.kind == kind
      ensures comparisonScore == None
    {
      this.id := id;
      this.nameToMatch := nameToMatch;
      this.canonicalName := canonicalName;
      this.kind := kind;
      comparisonScore := None;
    }
  }

  /** An entry of the service's type list. */
  datatype QueryType = QueryType(id: string, name: string)

  /** The only type the service offers. */
  const QUERY_TYPES: seq<QueryType> := [QueryType("/geo/country", "Countries")]

  /** The static document returned when there is nothing (or nothing well-typed) to reconcile. */
  datatype ServiceMetadata = ServiceMetadata(
    name: string,
    defaultTypes: seq<QueryType>,
    identifierSpace: string,
    schemaSpace: string,
    viewUrl: string,
    suggestServicePath: string,
    suggestServiceUrl: string)

  const METADATA: ServiceMetadata := ServiceMetadata(
    "OWID Country Reconciliation Service",
    QUERY_TYPES,
    "http://localhost/identifier",
    "http://localhost/schema",
    "{{id}}",
    "/suggest/entity",
    "http://localhost:5000")

  /** The auxiliary `all_labels` scores of a result. */
  datatype Labels = Labels(score: Fraction, weighted: Fraction)

  /** One candidate in a search response; scores are percentages. */
  datatype ReconResult = ReconResult(
    id: string,
    name: string,
    types: seq<string>,
    score: Fraction,
    isMatch: bool,
    allLabels: Labels)

  /** A candidate row together with its comparison score. */
  datatype Scored = Scored(row: Row, score: Fraction)

  /** The result record built for one ranked candidate. */
  function ResultOf(c: Scored): (r: ReconResult)
    ensures Decimal.IsNumeral(r.id) && Decimal.DecimalToNat(r.id) == c.row.id
    ensures r.name == c.row.canonicalName
    ensures r.types == [METADATA.defaultTypes[0].id]
    ensures r.allLabels.score == r.score && r.allLabels.weighted == r.score
    ensures c.score.num <= c.score.den ==> r.score.num <= 100 * r.score.den
    ensures r.isMatch <==> c.row.kind == Country && r.score.num == 100 * r.score.den
  {
    Decimal.DecimalRoundTrip(c.row.id);
    var pct := Percent(c.score);
    ReconResult(
      Decimal.NatToDecimal(c.row.id),
      c.row.canonicalName,
      [QUERY_TYPES[0].id],
      pct,
      c.row.kind == Country && IsOne(c.score),
      Labels(pct, pct))
  }
}
