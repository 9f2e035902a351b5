/** The query construction of the tour list handler (`getAllTours`) and the
    "top five cheap tours" alias that runs before it (`aliasTopTours`).

    The builder is a pure function from the raw query map and the total
    number of tours in the collection to either an error or the query
    specification handed to the document store: the filter, the sort string,
    the projection string, and the skip/limit pair. Executing that
    specification is the document store's business and is not modelled.
 */
module TourController {
  import opened Results
  import opened QueryValues
  import opened OperatorRewrite
  import opened CommaList
  import opened Pagination

  /** Control parameters that never reach the filter. */
  const ReservedKeys: set<string> := {"page", "sort", "limit", "fields"}

  const DefaultSort: string := "-createdAt"
  const DefaultSelect: string := "-__v"

  /** What makes the build fail. `SplitNotAFunction(key)` is the TypeError of
      calling `.split` on a `sort` or `fields` parameter that is a list or an
      object rather than a string; `PageNotFound` is the handler's own
      "This page does not exist". */
  datatype QueryError = SplitNotAFunction(key: string) | PageNotFound

  datatype QuerySpec = QuerySpec(
    filter: Query,
    sort: string,
    select: string,
    skip: int,
    limit: int)

  /** The shallow copy of the query with the control parameters deleted. */
  function StripReserved(q: Query): (r: Query)
    ensures r.Keys == q.Keys - ReservedKeys
    ensures forall k :: k in r ==> r[k] == q[k]
  {
    q - ReservedKeys
  }

  /** The operator rewrite applied to the whole JSON text of a value: every
      object key and every string, at every depth. */
  function RewriteValue(v: QueryValue): (r: QueryValue)
    ensures v.Str? <==> r.Str?
    ensures v.Arr? <==> r.Arr?
    ensures v.Obj? <==> r.Obj?
    ensures r.Arr? ==> |r.items| == |v.items|
  {
    match v
    case Str(s) => Str(Rewrite(s))
    case Arr(items) => Arr(seq(|items|, i requires 0 <= i < |items| => RewriteValue(items[i])))
    case Obj(m) =>
      var keys := set k | k in m :: Rewrite(k);
      Obj(map t | t in keys :: RewriteValue(m[Restore(t)]))
  }

  /** The rewritten object holds the rewritten value of every entry under the
      rewritten key, and nothing else. */
  lemma RewriteObject(m: map<string, QueryValue>)
    ensures RewriteValue(Obj(m)).Obj?
    ensures forall k :: k in m ==> Rewrite(k) in RewriteValue(Obj(m)).fields
    ensures forall k :: k in m ==> RewriteValue(Obj(m)).fields[Rewrite(k)] == RewriteValue(m[k])
    ensures forall t :: t in RewriteValue(Obj(m)).fields ==> exists k :: k in m && t == Rewrite(k)
  {
  }

  /** A control parameter name contains no `$`, so the rewrite only produces
      it from itself. */
  lemma ReservedOnlyFromItself(k: string, t: string)
    requires t in ReservedKeys && t == Rewrite(k)
    ensures k == t
  {
    ReservedKeysHaveNoDollar(t);
    RewriteHitsDollarFreeOnlyFromItself(k, t);
  }

  lemma ReservedKeysHaveNoDollar(t: string)
    requires t in ReservedKeys
    ensures '$' !in t
  {
  }

  /** No rewritten key is a control parameter. */
  lemma NoReservedKeyAfterRewrite(m: map<string, QueryValue>)
    requires forall k :: k in m ==> k !in ReservedKeys
    ensures forall t :: t in ReservedKeys ==> t !in RewriteValue(Obj(m)).fields
  {
    RewriteObject(m);
    var fields := RewriteValue(Obj(m)).fields;
    forall t | t in ReservedKeys
      ensures t !in fields
    {
      if t in fields {
        var k :| k in m && t == Rewrite(k);
        ReservedOnlyFromItself(k, t);
      }
    }
  }

  /** `JSON.parse(rewrite(JSON.stringify(queryObj)))`. */
  function BuildFilter(q: Query): (filter: Query)
    ensures forall k :: k in ReservedKeys ==> k !in filter
    ensures forall k :: k in q && k !in ReservedKeys ==> Rewrite(k) in filter && filter[Rewrite(k)] == RewriteValue(q[k])
    ensures forall t :: t in filter ==> exists k :: k in q && k !in ReservedKeys && t == Rewrite(k)
  {
    var stripped := StripReserved(q);
    RewriteObject(stripped);
    NoReservedKeyAfterRewrite(stripped);
    RewriteValue(Obj(stripped)).fields
  }

  /** The `sort` and `fields` stages: a supplied string parameter is split on
      commas and joined with spaces, a missing or empty one gives the
      fallback, and a list or object parameter has no `.split`. */
  function ListParam(q: Query, key: string, fallback: string): (r: Result<string, QueryError>)
    ensures !Supplied(q, key) ==> r == Ok(fallback)
    ensures Supplied(q, key) && q[key].Str? ==> r == Ok(ReplaceChar(q[key].s, ',', ' '))
    ensures Supplied(q, key) && !q[key].Str? ==> r == Err(SplitNotAFunction(key))
  {
    if Supplied(q, key) then
      match q[key]
      case Str(s) => Ok(SpaceSeparated(s))
      case _ => Err(SplitNotAFunction(key))
    else Ok(fallback)
  }

  function SortStage(q: Query): Result<string, QueryError> {
    ListParam(q, "sort", DefaultSort)
  }

  function SelectStage(q: Query): Result<string, QueryError> {
    ListParam(q, "fields", DefaultSelect)
  }

  /** The query built by the list handler for the query `q`, when the
      collection holds `totalCount` tours. The stages run in the handler's
      order, so a malformed `sort` is reported before a malformed `fields`,
      and both before an out-of-range page. */
  function Build(q: Query, totalCount: nat): (r: Result<QuerySpec, QueryError>)
    ensures r.Ok? ==> forall k :: k in ReservedKeys ==> k !in r.value.filter
    ensures r.Ok? ==> r.value.limit != 0 && r.value.skip % r.value.limit == 0
    ensures r.Ok? && !Supplied(q, "page") ==> r.value.skip == 0
    ensures r.Ok? && Supplied(q, "page") ==> r.value.skip < totalCount
    ensures r == Err(PageNotFound) ==> Supplied(q, "page") && totalCount <= Skip(PageOf(q), LimitOf(q))
  {
    var sort :- SortStage(q);
    var select :- SelectStage(q);
    var page := PageOf(q);
    var limit := LimitOf(q);
    var skip := Skip(page, limit);
    if Supplied(q, "page") && skip >= totalCount then Err(PageNotFound)
    else Ok(QuerySpec(BuildFilter(q), sort, select, skip, limit))
  }

  const TopToursLimit: string := "5"
  const TopToursSort: string := "-ratingsAverage,price"
  const TopToursFields: string := "name,price,ratingsAverage,summary,difficulty"

  /** The alias middleware: it overwrites three control parameters and
      leaves everything else as it was. */
  function AliasTopTours(q: Query): (r: Query)
    ensures r.Keys == q.Keys + {"limit", "sort", "fields"}
    ensures r["limit"] == Str(TopToursLimit) && r["sort"] == Str(TopToursSort) && r["fields"] == Str(TopToursFields)
    ensures forall k :: k in q && k !in {"limit", "sort", "fields"} ==> r[k] == q[k]
  {
    q["limit" := Str(TopToursLimit)]["sort" := Str(TopToursSort)]["fields" := Str(TopToursFields)]
  }
}
