/**
 * The document store's REST vocabulary as the workday codec uses it: tagged
 * field values, documents, the structured query of the `runQuery` endpoint
 * and the array of result wrappers that endpoint answers with.
 *
 * The store itself is not part of the source. `RunQuery` below is a reference
 * reading of the query semantics the codec relies on (exact equality filters
 * joined by AND over one collection, at most `limit` documents, and a single
 * result wrapper without a document when nothing matches); it is what the
 * lemmas about looking a workday up are stated against.
 */
module Firestore {
  import opened Wrappers

  /** A field value in the store's tagged encoding. */
  datatype Value =
    | StringValue(stringValue: string)
    | IntegerValue(integerValue: int)
    | BooleanValue(booleanValue: bool)
    | ArrayValue(values: seq<Value>)
    | MapValue(fields: map<string, Value>)

  /** The `fields` object of a document or of a create request body. */
  type Fields = map<string, Value>

  /** A stored document: its full resource name and its fields. */
  datatype Document = Document(name: string, fields: Fields)

  /** One element of the array `runQuery` answers with; `document` is absent when nothing matched. */
  datatype QueryResult = QueryResult(document: Option<Document>)

  datatype FieldFilter = FieldFilter(fieldPath: string, op: string, value: Value)
  datatype CompositeFilter = CompositeFilter(op: string, filters: seq<FieldFilter>)

  /** The body of a `runQuery` request: collection ids, a composite filter, a limit. */
  datatype StructuredQuery = StructuredQuery(from: seq<string>, where: CompositeFilter, limit: int)

  /** An `EQUAL` field filter holds of fields that carry exactly the filter's value under its path. */
  predicate FilterHolds(f: FieldFilter, fields: Fields) {
    f.op == "EQUAL" && f.fieldPath in fields && fields[f.fieldPath] == f.value
  }

  /** An `AND` composite filter holds when each of its field filters does. */
  predicate WhereHolds(c: CompositeFilter, fields: Fields) {
    c.op == "AND" && forall i :: 0 <= i < |c.filters| ==> FilterHolds(c.filters[i], fields)
  }

  /** The documents of `docs`, in order, of which the query's filter holds. */
  function Matching(q: StructuredQuery, docs: seq<Document>): (r: seq<Document>)
    ensures |r| <= |docs|
    ensures forall i :: 0 <= i < |r| ==> r[i] in docs && WhereHolds(q.where, r[i].fields)
    ensures forall d :: d in docs && WhereHolds(q.where, d.fields) ==> d in r
    decreases |docs|
  {
    if docs == [] then []
    else
      var rest := Matching(q, docs[1..]);
      if WhereHolds(q.where, docs[0].fields) then [docs[0]] + rest else rest
  }

  /**
   * Reference answer of `runQuery` over a store that maps collection ids to
   * their documents: the first `limit` matching documents of the first
   * collection named in `from`, one wrapper each, or a single wrapper with no
   * document when none matches.
   */
  function RunQuery(q: StructuredQuery, store: map<string, seq<Document>>): (r: seq<QueryResult>)
    ensures |r| >= 1
    ensures q.limit >= 1 ==> |r| <= q.limit
  {
    var docs := if |q.from| >= 1 && q.from[0] in store then store[q.from[0]] else [];
    var found := Matching(q, docs);
    var taken := if q.limit < 0 then found else found[..if q.limit < |found| then q.limit else |found|];
    if taken == [] then [QueryResult(None)]
    else seq(|taken|, i requires 0 <= i < |taken| => QueryResult(Some(taken[i])))
  }
}
