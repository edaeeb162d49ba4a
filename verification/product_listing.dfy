/**
 * `listProducts` (GET /cms/products): the published products, optionally only
 * featured or only non-featured ones, ordered by `sort_order` ascending and
 * then newest first, optionally cut to a limit. Placeholders are numbered by
 * the parameters pushed so far, so the limit is `$1` or `$2`.
 */
module ProductListing {
  import opened Common
  import opened Seqs
  import opened Ordering
  import opened Sql
  import opened ProductModel

  /** The query text and parameters the handler assembles. */
  function ListingQuery(featured: Option<bool>, limit: Option<int>): SelectQuery<Column> {
    var conditions := [IsTrue(Published)] + match featured
      case None => []
      case Some(_) => [EqualsParam(Featured, 1)];
    var params := match featured
      case None => []
      case Some(f) => [Bool(f)];
    match limit
    case None => SelectQuery(conditions, None, params)
    case Some(n) => SelectQuery(conditions, Some(|params| + 1), params + [Num(n)])
  }

  /** A row the listing shows: published, and of the requested featured state when one is given. */
  predicate Visible(featured: Option<bool>, row: ProductRow) {
    row.published && (featured.Some? ==> row.featured == featured.value)
  }

  function VisibleTo(featured: Option<bool>): ProductRow -> bool {
    (row: ProductRow) => Visible(featured, row)
  }

  lemma ListingBound(featured: Option<bool>, limit: Option<int>)
    ensures SelectBound(ListingQuery(featured, limit))
  {
    var q := ListingQuery(featured, limit);
    if featured.Some? {
      assert q.conditions[1] == EqualsParam(Featured, 1);
    }
  }

  lemma ListingWhere(featured: Option<bool>, limit: Option<int>, row: ProductRow)
    ensures Where(Get, row, ListingQuery(featured, limit)) <==> Visible(featured, row)
  {
    var q := ListingQuery(featured, limit);
    if Visible(featured, row) {
      assert forall i :: 0 <= i < |q.conditions| ==> Satisfies(Get, row, q.conditions[i], q.params);
    } else if !row.published {
      assert !Satisfies(Get, row, q.conditions[0], q.params);
    } else {
      assert !Satisfies(Get, row, q.conditions[1], q.params);
    }
  }

  function ToProducts(rows: seq<ProductRow>): (r: seq<Product>)
    ensures |r| == |rows|
    ensures forall i :: 0 <= i < |rows| ==> r[i] == ToProduct(rows[i])
  {
    seq(|rows|, i requires 0 <= i < |rows| => ToProduct(rows[i]))
  }

  /** The visible rows in listing order. */
  function AllListed(t: Table<ProductRow>, featured: Option<bool>): seq<ProductRow> {
    SortBy(Filter(t.rows, VisibleTo(featured)), ListingKey)
  }

  /** The reference listing: the visible rows in listing order, the first `n` of them when a limit is given. */
  function Listed(t: Table<ProductRow>, featured: Option<bool>, limit: Option<nat>): seq<ProductRow> {
    match limit
    case None => AllListed(t, featured)
    case Some(n) => Take(AllListed(t, featured), n)
  }

  /**
   * The handler. A negative limit makes PostgreSQL reject the statement;
   * otherwise the answer is the reference listing, mapped to the API.
   */
  function ListProducts(t: Table<ProductRow>, featured: Option<bool>, limit: Option<int>): (r: Result<seq<Product>>)
    ensures limit.Some? && limit.value < 0 ==> r == Err(StorageFailure("LIMIT must not be negative"))
    ensures limit.None? ==> r == Ok(ToProducts(Listed(t, featured, None)))
    ensures limit.Some? && limit.value >= 0 ==> r == Ok(ToProducts(Listed(t, featured, Some(limit.value))))
  {
    ListingRuns(t, featured, limit);
    match RunSelect(Get, t, ListingQuery(featured, limit), Some(ListingKey))
    case Err(e) => Err(e)
    case Ok(rows) => Ok(ToProducts(rows))
  }

  /** The assembled SELECT returns the reference listing, or fails on a negative limit. */
  lemma ListingRuns(t: Table<ProductRow>, featured: Option<bool>, limit: Option<int>)
    ensures limit.Some? && limit.value < 0 ==>
      RunSelect(Get, t, ListingQuery(featured, limit), Some(ListingKey)) == Err(StorageFailure("LIMIT must not be negative"))
    ensures limit.None? ==>
      RunSelect(Get, t, ListingQuery(featured, limit), Some(ListingKey)) == Ok(Listed(t, featured, None))
    ensures limit.Some? && limit.value >= 0 ==>
      RunSelect(Get, t, ListingQuery(featured, limit), Some(ListingKey)) == Ok(Listed(t, featured, Some(limit.value)))
  {
    var q := ListingQuery(featured, limit);
    ListingBound(featured, limit);
    forall i | 0 <= i < |t.rows| ensures Where(Get, t.rows[i], q) == Visible(featured, t.rows[i]) {
      ListingWhere(featured, limit, t.rows[i]);
    }
    SelectMeans(Get, t, q, Some(ListingKey), VisibleTo(featured));
    var all := AllListed(t, featured);
    assert Arrange(Filter(t.rows, VisibleTo(featured)), Some(ListingKey)) == all;
    if limit.Some? {
      assert q.limit == Some(|q.params|) && q.params[|q.params| - 1] == Num(limit.value);
    }
  }

  /** The listing before any limit: the visible rows in listing order. */
  lemma FullListing(t: Table<ProductRow>, featured: Option<bool>)
    ensures var rows := Listed(t, featured, None);
      && Sorted(rows, ListingKey)
      && forall i :: 0 <= i < |rows| ==> Visible(featured, rows[i])
  {
    var kept := Filter(t.rows, VisibleTo(featured));
    var rows := Listed(t, featured, None);
    forall i | 0 <= i < |rows| ensures Visible(featured, rows[i]) {
      assert rows[i] in multiset(kept);
      FilterMember(t.rows, VisibleTo(featured), rows[i]);
    }
  }

  /** A limited listing is the head of the full one. */
  lemma LimitedListing(t: Table<ProductRow>, featured: Option<bool>, limit: Option<nat>)
    ensures Listed(t, featured, limit) <= Listed(t, featured, None)
    ensures limit.Some? ==> |Listed(t, featured, limit)| <= limit.value
  {
  }

  /** Everything listed is visible, comes in listing order, and there are at most `limit` of it. */
  lemma ListedSound(t: Table<ProductRow>, featured: Option<bool>, limit: Option<nat>)
    ensures var rows := Listed(t, featured, limit);
      && (forall i :: 0 <= i < |rows| ==> Visible(featured, rows[i]))
      && (forall i, j :: 0 <= i < j < |rows| ==>
            rows[i].sortOrder < rows[j].sortOrder
            || (rows[i].sortOrder == rows[j].sortOrder && rows[i].createdAt >= rows[j].createdAt))
      && (limit.Some? ==> |rows| <= limit.value)
  {
    FullListing(t, featured);
    LimitedListing(t, featured, limit);
    var full := Listed(t, featured, None);
    var rows := Listed(t, featured, limit);
    forall i | 0 <= i < |rows| ensures Visible(featured, rows[i]) {
      assert rows[i] == full[i];
    }
    assert Sorted(rows, ListingKey) by {
      forall i, j | 0 <= i < j < |rows| ensures LexLe(ListingKey(rows[i]), ListingKey(rows[j])) {
        assert rows[i] == full[i] && rows[j] == full[j];
      }
    }
    ListingOrder(rows);
  }

  /** Listing order in the API's terms: `sortOrder` ascending, then `createdAt` descending. */
  lemma ListingOrder(rows: seq<ProductRow>)
    requires Sorted(rows, ListingKey)
    ensures forall i, j :: 0 <= i < j < |rows| ==>
      rows[i].sortOrder < rows[j].sortOrder
      || (rows[i].sortOrder == rows[j].sortOrder && rows[i].createdAt >= rows[j].createdAt)
  {
    forall i, j | 0 <= i < j < |rows|
      ensures rows[i].sortOrder < rows[j].sortOrder
              || (rows[i].sortOrder == rows[j].sortOrder && rows[i].createdAt >= rows[j].createdAt)
    {
      PairKeyOrder(rows[i].sortOrder, rows[i].createdAt, rows[j].sortOrder, rows[j].createdAt);
    }
  }

  /** Without a limit every visible row is listed, as often as it is stored. */
  lemma ListedComplete(t: Table<ProductRow>, featured: Option<bool>, row: ProductRow)
    requires Visible(featured, row)
    ensures multiset(Listed(t, featured, None))[row] == multiset(t.rows)[row]
  {
    FilterCount(t.rows, VisibleTo(featured), row);
  }

  /**
   * With a limit, a visible row left out sorts no earlier than anything
   * listed; the listing is the head of the full listing.
   */
  lemma ListedTop(t: Table<ProductRow>, featured: Option<bool>, n: nat, row: ProductRow)
    requires Visible(featured, row) && row in t.rows
    requires row !in Listed(t, featured, Some(n))
    ensures forall i :: 0 <= i < |Listed(t, featured, Some(n))| ==>
      LexLe(ListingKey(Listed(t, featured, Some(n))[i]), ListingKey(row))
  {
    var full := Listed(t, featured, None);
    var top := Listed(t, featured, Some(n));
    ListedComplete(t, featured, row);
    assert row in multiset(full);
    var j :| 0 <= j < |full| && full[j] == row;
    LimitedListing(t, featured, Some(n));
    FullListing(t, featured);
    assert top == full[..|top|];
    forall i | 0 <= i < |top| ensures LexLe(ListingKey(top[i]), ListingKey(row)) {
      assert top[i] == full[i];
    }
  }
}
