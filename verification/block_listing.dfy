/**
 * `listContentBlocks` (GET /cms/content-blocks): the published blocks,
 * optionally only those of one page and/or one type, ordered by `sort_order`
 * ascending and then newest first. Placeholders are numbered by the
 * parameters pushed so far, so the type filter is `$1` or `$2`.
 */
module BlockListing {
  import opened Common
  import opened Seqs
  import opened Ordering
  import opened Sql
  import opened BlockModel

  /** The query the handler assembles. */
  function ListingQuery(pageSlug: Option<string>, blockType: Option<string>): SelectQuery<Column> {
    var (c1, p1) := match pageSlug
      case None => ([IsTrue(Published)], [])
      case Some(s) => ([IsTrue(Published), EqualsParam(PageSlug, 1)], [Text(s)]);
    match blockType
    case None => SelectQuery(c1, None, p1)
    case Some(b) => SelectQuery(c1 + [EqualsParam(BlockType, |p1| + 1)], None, p1 + [Text(b)])
  }

  /**
   * A block the listing shows: published, of the requested page and type. A
   * block with no page (NULL `page_slug`) never equals a requested page.
   */
  predicate Visible(pageSlug: Option<string>, blockType: Option<string>, row: BlockRow) {
    && row.published
    && (pageSlug.Some? ==> row.pageSlug == pageSlug)
    && (blockType.Some? ==> row.blockType == blockType.value)
  }

  function VisibleTo(pageSlug: Option<string>, blockType: Option<string>): BlockRow -> bool {
    (row: BlockRow) => Visible(pageSlug, blockType, row)
  }

  lemma ListingBound(pageSlug: Option<string>, blockType: Option<string>)
    ensures SelectBound(ListingQuery(pageSlug, blockType))
  {
    var q := ListingQuery(pageSlug, blockType);
    if pageSlug.Some? {
      assert q.conditions[1] == EqualsParam(PageSlug, 1);
    }
    if blockType.Some? {
      assert q.conditions[|q.conditions| - 1] == EqualsParam(BlockType, |q.params|);
    }
  }

  lemma ListingWhere(pageSlug: Option<string>, blockType: Option<string>, row: BlockRow)
    ensures Where(Get, row, ListingQuery(pageSlug, blockType)) <==> Visible(pageSlug, blockType, row)
  {
    var q := ListingQuery(pageSlug, blockType);
    var last := |q.conditions| - 1;
    if Visible(pageSlug, blockType, row) {
      forall i | 0 <= i < |q.conditions| ensures Satisfies(Get, row, q.conditions[i], q.params) {
      }
    } else if !row.published {
      assert !Satisfies(Get, row, q.conditions[0], q.params);
    } else if pageSlug.Some? && row.pageSlug != pageSlug {
      assert !Satisfies(Get, row, q.conditions[1], q.params);
    } else {
      assert !Satisfies(Get, row, q.conditions[last], q.params);
    }
  }

  function ToBlocks(rows: seq<BlockRow>): (r: seq<ContentBlock>)
    ensures |r| == |rows|
    ensures forall i :: 0 <= i < |rows| ==> r[i] == ToBlock(rows[i])
  {
    seq(|rows|, i requires 0 <= i < |rows| => ToBlock(rows[i]))
  }

  /** The reference listing: the visible blocks in listing order. */
  function Listed(t: Table<BlockRow>, pageSlug: Option<string>, blockType: Option<string>): seq<BlockRow> {
    SortBy(Filter(t.rows, VisibleTo(pageSlug, blockType)), ListingKey)
  }

  /** The handler: the reference listing, mapped to the API. */
  function ListContentBlocks(t: Table<BlockRow>, pageSlug: Option<string>, blockType: Option<string>): (r: seq<ContentBlock>)
    ensures r == ToBlocks(Listed(t, pageSlug, blockType))
  {
    var q := ListingQuery(pageSlug, blockType);
    ListingBound(pageSlug, blockType);
    forall i | 0 <= i < |t.rows| ensures Where(Get, t.rows[i], q) == Visible(pageSlug, blockType, t.rows[i]) {
      ListingWhere(pageSlug, blockType, t.rows[i]);
    }
    SelectMeans(Get, t, q, Some(ListingKey), VisibleTo(pageSlug, blockType));
    match RunSelect(Get, t, q, Some(ListingKey))
    case Ok(rows) => ToBlocks(rows)
    case Err(_) => []
  }

  /**
   * Exactly the visible blocks are listed, each as often as it is stored, in
   * `sortOrder` order and newest first among equals.
   */
  lemma ListedExactly(t: Table<BlockRow>, pageSlug: Option<string>, blockType: Option<string>, row: BlockRow)
    ensures multiset(Listed(t, pageSlug, blockType))[row] ==
      if Visible(pageSlug, blockType, row) then multiset(t.rows)[row] else 0
  {
    var p := VisibleTo(pageSlug, blockType);
    if Visible(pageSlug, blockType, row) {
      FilterCount(t.rows, p, row);
    } else if row in Listed(t, pageSlug, blockType) {
      assert row in multiset(Filter(t.rows, p));
      FilterMember(t.rows, p, row);
    }
  }

  lemma ListedOrder(t: Table<BlockRow>, pageSlug: Option<string>, blockType: Option<string>)
    ensures var rows := Listed(t, pageSlug, blockType);
      forall i, j :: 0 <= i < j < |rows| ==>
        rows[i].sortOrder < rows[j].sortOrder
        || (rows[i].sortOrder == rows[j].sortOrder && rows[i].createdAt >= rows[j].createdAt)
  {
    KeyOrder(Listed(t, pageSlug, blockType));
  }

  /** Listing order in the API's terms: `sortOrder` ascending, then `createdAt` descending. */
  lemma KeyOrder(rows: seq<BlockRow>)
    requires Sorted(rows, ListingKey)
    ensures forall i, j :: 0 <= i < j < |rows| ==>
      rows[i].sortOrder < rows[j].sortOrder
      || (rows[i].sortOrder == rows[j].sortOrder && rows[i].createdAt >= rows[j].createdAt)
  {
    forall i, j | 0 <= i < j < |rows|
      ensures rows[i].sortOrder < rows[j].sortOrder
              || (rows[i].sortOrder == rows[j].sortOrder && rows[i].createdAt >= rows[j].createdAt)
    {
      PairKeyOrder(rows[i].sortOrder, rows[i].createdAt, rows[j].sortOrder, rows[j].createdAt);
    }
  }

  /** Filtering by page returns only blocks of that page, never a block without a page. */
  lemma PageFilterSkipsUnassigned(t: Table<BlockRow>, slug: string, blockType: Option<string>)
    ensures forall i :: 0 <= i < |Listed(t, Some(slug), blockType)| ==>
      Listed(t, Some(slug), blockType)[i].pageSlug == Some(slug)
  {
    var rows := Listed(t, Some(slug), blockType);
    forall i | 0 <= i < |rows| ensures rows[i].pageSlug == Some(slug) {
      ListedExactly(t, Some(slug), blockType, rows[i]);
      assert rows[i] in multiset(rows);
    }
  }
}
