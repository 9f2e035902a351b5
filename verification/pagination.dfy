/** Page and page-size arithmetic of the list handler:
    `page = req.query.page * 1 || 1`, `limit = req.query.limit * 1 || 100`,
    `skip = (page - 1) * limit`.
 */
module Pagination {
  import opened Results
  import opened QueryValues

  const DefaultPage: int := 1
  const DefaultLimit: int := 100

  /** The requested page. Absent, non-numeric and zero values fall back to 1;
      negative values are kept. */
  function PageOf(q: Query): (page: int)
    ensures page != 0
    ensures page == DefaultPage || ToNumber(Lookup(q, "page")) == Some(page)
    ensures "page" !in q ==> page == DefaultPage
    ensures ToNumber(Lookup(q, "page")) in {None, Some(0)} ==> page == DefaultPage
    ensures forall n :: ToNumber(Lookup(q, "page")) == Some(n) && n != 0 ==> page == n
  {
    NumberOr(ToNumber(Lookup(q, "page")), DefaultPage)
  }

  /** The page size. Absent, non-numeric and zero values fall back to 100;
      negative values are kept. */
  function LimitOf(q: Query): (limit: int)
    ensures limit != 0
    ensures limit == DefaultLimit || ToNumber(Lookup(q, "limit")) == Some(limit)
    ensures "limit" !in q ==> limit == DefaultLimit
    ensures ToNumber(Lookup(q, "limit")) in {None, Some(0)} ==> limit == DefaultLimit
    ensures forall n :: ToNumber(Lookup(q, "limit")) == Some(n) && n != 0 ==> limit == n
  {
    NumberOr(ToNumber(Lookup(q, "limit")), DefaultLimit)
  }

  /** Absolute value of an integer. */
  function Abs(x: int): nat { if x < 0 then -x else x }

  /** A positive natural factor does not make a natural product smaller. */
  lemma NatProductAtLeast(a: nat, b: nat)
    requires a >= 1
    ensures a * b >= b
  {
    assert a * b == (a - 1) * b + b;
    var a1: nat := a - 1;
    assert a1 * b >= 0;
  }

  /** The absolute value of a product is the product of the absolute values. */
  lemma AbsProduct(e: int, l: int)
    ensures Abs(e * l) == Abs(e) * Abs(l)
  {
    if e < 0 && l < 0 { assert e * l == (-e) * (-l); }
    else if e < 0 { assert e * l == -((-e) * l); }
    else if l < 0 { assert e * l == -(e * (-l)); }
  }

  /** A non-zero multiple of `limit` is at least `|limit|` in size. */
  lemma ProductAtLeastFactor(e: int, limit: int)
    requires e != 0
    ensures Abs(e * limit) >= Abs(limit)
  {
    AbsProduct(e, limit);
    NatProductAtLeast(Abs(e), Abs(limit));
  }

  /** Dividing a multiple of a non-zero `limit` by it leaves no remainder and
      gives back the factor. */
  lemma MultipleDivides(k: int, limit: int)
    ensures limit != 0 ==> (k * limit) % limit == 0 && (k * limit) / limit == k
  {
    if limit != 0 {
      var p := k * limit;
      var d, m := p / limit, p % limit;
      assert p == d * limit + m;
      assert 0 <= m < Abs(limit);
      assert (k - d) * limit == m by {
        assert (k - d) * limit == k * limit - d * limit;
      }
      if k != d {
        ProductAtLeastFactor(k - d, limit);
      }
    }
  }

  /** Number of documents passed over before the requested page. The page is
      recoverable from it, so distinct pages of the same size never share a
      starting offset. */
  function Skip(page: int, limit: int): (skip: int)
    ensures page == 1 ==> skip == 0
    ensures limit != 0 ==> skip % limit == 0 && skip / limit == page - 1
    ensures page >= 1 && limit >= 1 ==> skip >= 0
  {
    MultipleDivides(page - 1, limit);
    (page - 1) * limit
  }

  /** The sign of the skip for pages and sizes the handler does not reject:
      a page below 1 with a positive size, or a page above 1 with a negative
      size, starts before the first document; a page below 1 with a negative
      size starts after it. */
  lemma SkipSign(page: int, limit: int)
    ensures page < 1 && limit > 0 ==> Skip(page, limit) < 0
    ensures page > 1 && limit < 0 ==> Skip(page, limit) < 0
    ensures page < 1 && limit < 0 ==> Skip(page, limit) > 0
  {
    var e := page - 1;
    if e != 0 && limit != 0 {
      ProductAtLeastFactor(e, limit);
      AbsProduct(e, limit);
    }
  }

  /** With a positive page size, consecutive pages are adjacent windows: page
      `p` ends where page `p + 1` starts. */
  lemma PagesAreAdjacent(page: int, limit: int)
    ensures Skip(page, limit) + limit == Skip(page + 1, limit)
  {
  }
}
