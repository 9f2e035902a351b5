/** Properties of the tour list query builder: what the filter keeps and
    rewrites, when the page check fires, and what the top-tours alias
    produces.
 */
module TourQueryProperties {
  import opened Results
  import opened QueryValues
  import opened OperatorRewrite
  import opened CommaList
  import opened Pagination
  import opened TourController

  // ---------------------------------------------------------------------
  // Filter
  // ---------------------------------------------------------------------

  /** Every string of the value, keys included, holds no whole-word operator. */
  predicate ValueOperatorFree(v: QueryValue) {
    match v
    case Str(s) => OperatorFree(s)
    case Arr(items) => forall i :: 0 <= i < |items| ==> ValueOperatorFree(items[i])
    case Obj(m) => forall k :: k in m ==> OperatorFree(k) && ValueOperatorFree(m[k])
  }

  /** A value without operator words is left exactly as it was. */
  lemma {:induction false} RewriteValueOperatorFree(v: QueryValue)
    requires ValueOperatorFree(v)
    ensures RewriteValue(v) == v
  {
    match v
    case Str(s) =>
      RewriteWithoutMatch(s);
    case Arr(items) =>
      forall i | 0 <= i < |items|
        ensures RewriteValue(items[i]) == items[i]
      {
        RewriteValueOperatorFree(items[i]);
      }
      assert RewriteValue(v).items == items;
    case Obj(m) =>
      RewriteObject(m);
      var r := RewriteValue(v).fields;
      forall k | k in m
        ensures Rewrite(k) == k && RewriteValue(m[k]) == m[k]
      {
        RewriteWithoutMatch(k);
        RewriteValueOperatorFree(m[k]);
      }
      assert r.Keys == m.Keys;
      assert r == m;
  }

  /** The value rewrite loses nothing: distinct values stay distinct. */
  lemma {:induction false} RewriteValueInjective(a: QueryValue, b: QueryValue)
    requires RewriteValue(a) == RewriteValue(b)
    ensures a == b
  {
    match a
    case Str(s) =>
      assert Restore(Rewrite(s)) == s && Restore(Rewrite(b.s)) == b.s;
    case Arr(xs) =>
      var ys := b.items;
      forall i | 0 <= i < |xs|
        ensures xs[i] == ys[i]
      {
        assert RewriteValue(a).items[i] == RewriteValue(b).items[i];
        RewriteValueInjective(xs[i], ys[i]);
      }
    case Obj(m) =>
      var n := b.fields;
      RewriteObject(m);
      RewriteObject(n);
      RewriteInjective();
      var r := RewriteValue(a).fields;
      forall k | k in m
        ensures k in n && m[k] == n[k]
      {
        var k' :| k' in n && Rewrite(k) == Rewrite(k');
        RewriteValueInjective(m[k], n[k]);
      }
      forall k | k in n
        ensures k in m
      {
        var k' :| k' in m && Rewrite(k) == Rewrite(k');
      }
      assert m == n;
  }

  /** A query of plain equality conditions becomes a filter equal to the
      query with the control parameters removed. */
  lemma EqualityQueryFilter(q: Query)
    requires forall k :: k in q && k !in ReservedKeys ==> OperatorFree(k) && ValueOperatorFree(q[k])
    ensures BuildFilter(q) == StripReserved(q)
  {
    var stripped := StripReserved(q);
    assert ValueOperatorFree(Obj(stripped));
    RewriteValueOperatorFree(Obj(stripped));
  }

  /** A query made only of control parameters filters on nothing. */
  lemma ControlOnlyQueryHasEmptyFilter(q: Query)
    requires q.Keys <= ReservedKeys
    ensures BuildFilter(q) == map[]
  {
  }

  /** Every key other than a control parameter survives into the filter, and
      one without operator words keeps its name and its rewritten value. */
  lemma FilterKeepsOtherKeys(q: Query, k: string)
    requires k in q && k !in ReservedKeys && OperatorFree(k)
    ensures k in BuildFilter(q) && BuildFilter(q)[k] == RewriteValue(q[k])
  {
    RewriteWithoutMatch(k);
  }

  /** A one-entry object rewrites to the one rewritten entry. */
  lemma RewriteSingleEntry(k: string, v: QueryValue)
    ensures RewriteValue(Obj(map[k := v])) == Obj(map[Rewrite(k) := RewriteValue(v)])
  {
    var m := map[k := v];
    var keys := set k' | k' in m :: Rewrite(k');
    assert keys == {Rewrite(k)};
    var f := map t | t in keys :: RewriteValue(m[Restore(t)]);
    assert RewriteValue(Obj(m)) == Obj(f);
    assert f[Rewrite(k)] == RewriteValue(v);
    assert f == map[Rewrite(k) := RewriteValue(v)];
  }

  /** The inner condition `{gte: '5'}` becomes `{$gte: '5'}`. */
  lemma AtLeastFiveCondition()
    ensures RewriteValue(Obj(map["gte" := Str("5")])) == Obj(map["$gte" := Str("5")])
  {
    PlainWordUnchanged("5");
    OperatorGainsDollar("gte");
    assert "$" + "gte" == "$gte";
    RewriteSingleEntry("gte", Str("5"));
  }

  /** `?duration[gte]=5&page=2` filters on `{duration: {$gte: '5'}}`; the
      control parameter is dropped. */
  lemma DurationAtLeastExample()
    ensures BuildFilter(map["duration" := Obj(map["gte" := Str("5")]), "page" := Str("2")])
         == map["duration" := Obj(map["$gte" := Str("5")])]
  {
    var inner := Obj(map["gte" := Str("5")]);
    var q := map["duration" := inner, "page" := Str("2")];
    assert StripReserved(q) == map["duration" := inner];
    PlainWordUnchanged("duration");
    AtLeastFiveCondition();
    RewriteSingleEntry("duration", inner);
  }

  /** A query key that is an operator word on its own becomes that word with
      a `$` in front, holding the rewritten value, whatever the value is. */
  lemma OperatorKeyIsRewritten(t: string, v: QueryValue)
    requires t in Operators
    ensures BuildFilter(map[t := v]) == map["$" + t := RewriteValue(v)]
  {
    OperatorGainsDollar(t);
    var q := map[t := v];
    assert t !in ReservedKeys;
    assert StripReserved(q) == q;
    RewriteSingleEntry(t, v);
  }

  /** `?gte=lt`: a field literally named `gte` becomes `$gte`, and the value
      `lt` becomes `$lt`. */
  lemma OperatorNamedFieldIsRewritten()
    ensures BuildFilter(map["gte" := Str("lt")]) == map["$gte" := Str("$lt")]
  {
    OperatorGainsDollar("gte");
    OperatorGainsDollar("lt");
    assert "$" + "gte" == "$gte";
    assert "$" + "lt" == "$lt";
    var q := map["gte" := Str("lt")];
    assert StripReserved(q) == q;
    RewriteSingleEntry("gte", Str("lt"));
  }

  /** Operators inside longer words are left alone: `gtex`, `length` and
      `lt5` are single words that are not operators. */
  lemma EmbeddedGteUntouched()
    ensures Rewrite("gtex") == "gtex"
  {
    PlainWordUnchanged("gtex");
  }

  lemma EmbeddedLtUntouched()
    ensures Rewrite("length") == "length"
    ensures Rewrite("lt5") == "lt5"
  {
    PlainWordUnchanged("length");
    PlainWordUnchanged("lt5");
  }

  // ---------------------------------------------------------------------
  // Stages and the page check
  // ---------------------------------------------------------------------

  /** The stages of a successful build, each stated on its own terms. */
  lemma BuildStages(q: Query, totalCount: nat)
    requires Build(q, totalCount).Ok?
    ensures Build(q, totalCount).value.filter == BuildFilter(q)
    ensures Build(q, totalCount).value.sort
         == if Supplied(q, "sort") then ReplaceChar(q["sort"].s, ',', ' ') else DefaultSort
    ensures Build(q, totalCount).value.select
         == if Supplied(q, "fields") then ReplaceChar(q["fields"].s, ',', ' ') else DefaultSelect
    ensures Build(q, totalCount).value.limit == LimitOf(q)
    ensures Build(q, totalCount).value.skip == (PageOf(q) - 1) * LimitOf(q)
  {
  }

  /** The sort and projection strings of a successful build hold no comma,
      and a supplied parameter keeps its length. */
  lemma SortAndSelectHaveNoComma(q: Query, totalCount: nat)
    requires Build(q, totalCount).Ok?
    ensures ',' !in Build(q, totalCount).value.sort
    ensures ',' !in Build(q, totalCount).value.select
    ensures Supplied(q, "sort") ==> |Build(q, totalCount).value.sort| == |q["sort"].s|
    ensures Supplied(q, "fields") ==> |Build(q, totalCount).value.select| == |q["fields"].s|
  {
    var r := Build(q, totalCount).value;
    assert ',' !in DefaultSort && ',' !in DefaultSelect;
    if Supplied(q, "sort") {
      assert forall i :: 0 <= i < |r.sort| ==> r.sort[i] != ',';
    }
    if Supplied(q, "fields") {
      assert forall i :: 0 <= i < |r.select| ==> r.select[i] != ',';
    }
  }

  /** The stages fail in the handler's order: a list-valued `sort` is reported
      even when `fields` is malformed too and the page is out of range. */
  lemma BuildErrorOrder(q: Query, totalCount: nat)
    ensures Supplied(q, "sort") && !q["sort"].Str? ==> Build(q, totalCount) == Err(SplitNotAFunction("sort"))
    ensures SortStage(q).Ok? && Supplied(q, "fields") && !q["fields"].Str?
         ==> Build(q, totalCount) == Err(SplitNotAFunction("fields"))
  {
  }

  /** With a well-formed `sort` and `fields` and a supplied `page`, the build
      fails exactly when the page starts at or beyond the number of tours. */
  lemma PageCheckedAgainstCount(q: Query, totalCount: nat)
    requires SortStage(q).Ok? && SelectStage(q).Ok? && Supplied(q, "page")
    ensures Build(q, totalCount) == Err(PageNotFound) <==> Skip(PageOf(q), LimitOf(q)) >= totalCount
    ensures Build(q, totalCount).Ok? <==> Skip(PageOf(q), LimitOf(q)) < totalCount
  {
  }

  /** Without a `page` parameter there is no page check: the build does not
      depend on the number of tours at all. */
  lemma NoPageNoCheck(q: Query, n: nat, m: nat)
    requires !Supplied(q, "page")
    ensures Build(q, n) != Err(PageNotFound)
    ensures Build(q, n) == Build(q, m)
  {
  }

  /** More tours never turn an accepted page into a missing one. */
  lemma MoreToursStillAccepted(q: Query, n: nat, m: nat)
    requires n <= m && Build(q, n).Ok?
    ensures Build(q, m) == Build(q, n)
  {
  }

  /** On an empty collection every explicitly requested page with a positive
      page size is reported missing, the first one included. */
  lemma EmptyCollectionHasNoPages(q: Query)
    requires SortStage(q).Ok? && SelectStage(q).Ok? && Supplied(q, "page")
    requires PageOf(q) >= 1 && LimitOf(q) >= 1
    ensures Build(q, 0) == Err(PageNotFound)
  {
  }

  lemma ParseTen()
    ensures ParseNumber("10") == Some(10)
  {
    assert DigitsValue("10") == 10 by { assert "10"[..1] == "1"; }
  }

  /** `?page=2&limit=10` over 25 tours skips the first 10 and takes 10. */
  lemma SecondPageExample()
    ensures Build(map["page" := Str("2"), "limit" := Str("10")], 25)
         == Ok(QuerySpec(map[], DefaultSort, DefaultSelect, 10, 10))
  {
    var q := map["page" := Str("2"), "limit" := Str("10")];
    assert ParseNumber("2") == Some(2);
    ParseTen();
    assert PageOf(q) == 2 && LimitOf(q) == 10;
    assert Skip(2, 10) == 10;
    assert SortStage(q) == Ok(DefaultSort) && SelectStage(q) == Ok(DefaultSelect);
    ControlOnlyQueryHasEmptyFilter(q);
  }

  /** `?page=100&limit=10` over 25 tours is reported missing. */
  lemma PageBeyondCollectionExample()
    ensures Build(map["page" := Str("100"), "limit" := Str("10")], 25) == Err(PageNotFound)
  {
    var q := map["page" := Str("100"), "limit" := Str("10")];
    ParseTen();
    assert DigitsValue("100") == 100 by { assert "100"[..2] == "10"; assert "10"[..1] == "1"; }
    assert PageOf(q) == 100 && LimitOf(q) == 10;
  }

  /** `?page=0` reads as page 1 but still triggers the page check, so it is
      accepted exactly when there is at least one tour. */
  lemma ZeroPageIsFirstPage(q: Query, totalCount: nat)
    requires SortStage(q).Ok? && SelectStage(q).Ok?
    requires "page" in q && q["page"] == Str("0")
    ensures Build(q, totalCount).Ok? <==> totalCount > 0
    ensures Build(q, totalCount).Ok? ==> Build(q, totalCount).value.skip == 0
  {
    assert ParseNumber("0") == Some(0);
  }

  // ---------------------------------------------------------------------
  // Top-tours alias
  // ---------------------------------------------------------------------

  /** The alias only touches control parameters, so the filter is the one the
      original query builds. */
  lemma AliasKeepsFilter(q: Query)
    ensures BuildFilter(AliasTopTours(q)) == BuildFilter(q)
  {
    assert StripReserved(AliasTopTours(q)) == StripReserved(q);
  }

  lemma TopToursSortText()
    ensures ReplaceChar(TopToursSort, ',', ' ') == "-ratingsAverage price"
  {
  }

  lemma TopToursSelectText()
    ensures ReplaceChar(TopToursFields, ',', ' ') == "name price ratingsAverage summary difficulty"
  {
    var e := "name price ratingsAverage summary difficulty";
    var r := ReplaceChar(TopToursFields, ',', ' ');
    assert |r| == |e|;
    forall i | 0 <= i < |r|
      ensures r[i] == e[i]
    {
    }
  }

  /** Without a `page`, the alias yields the five best-rated, cheapest tours:
      limit 5 from the first tour on, sorted by rating descending then price,
      projected to the five summary fields. */
  lemma TopToursQuery(q: Query, totalCount: nat)
    requires !Supplied(q, "page")
    ensures Build(AliasTopTours(q), totalCount)
         == Ok(QuerySpec(BuildFilter(q), "-ratingsAverage price",
                         "name price ratingsAverage summary difficulty", 0, 5))
  {
    var a := AliasTopTours(q);
    AliasKeepsFilter(q);
    assert ParseNumber("5") == Some(5);
    assert LimitOf(a) == 5;
    assert !Supplied(a, "page") && PageOf(a) == 1 by {
      assert Lookup(a, "page") == Lookup(q, "page");
      assert ParseNumber("") == Some(0);
    }
    TopToursSortText();
    TopToursSelectText();
    assert SortStage(a) == Ok("-ratingsAverage price");
    assert SelectStage(a) == Ok("name price ratingsAverage summary difficulty");
    assert Skip(PageOf(a), LimitOf(a)) == 0;
  }
}
