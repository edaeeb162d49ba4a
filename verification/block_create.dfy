/**
 * `createContentBlock` (POST /cms/admin/content-blocks): insert a block with
 * the handler's defaults and answer with the stored row mapped to the API.
 * Nothing is checked first: several blocks may share a type, page and order.
 */
module BlockCreate {
  import opened Common
  import opened Sql
  import opened BlockModel

  /** The request body. Optional members are None when absent. */
  datatype NewBlock = NewBlock(
    blockType: string,
    title: Option<string>,
    content: Json,
    pageSlug: Option<string>,
    sortOrder: Option<int>,
    published: Option<bool>)

  /** The inserted row: the next serial id, "" stored as NULL, `|| 0` and `|| false` defaults, both timestamps the insertion time. */
  function Inserted(id: int, req: NewBlock, now: int): BlockRow {
    BlockRow(id, req.blockType, OrAbsent(req.title), req.content, OrAbsent(req.pageSlug),
             req.sortOrder.GetOr(0), req.published.GetOr(false), now, now)
  }

  /** The handler: one row appended and returned; it cannot fail. */
  function CreateContentBlock(t: Table<BlockRow>, req: NewBlock, now: int): (r: (ContentBlock, Table<BlockRow>))
    ensures r.1.serial == t.serial + 1
    ensures |r.1.rows| == |t.rows| + 1 && r.1.rows[..|t.rows|] == t.rows
    ensures r.0 == ToBlock(r.1.rows[|t.rows|])
  {
    var row := Inserted(t.serial, req, now);
    var t' := Append(t, row);
    assert t'.rows[..|t.rows|] == t.rows;
    (ToBlock(row), t')
  }

  /**
   * What the create answers: the new id, the request's type and content, the
   * title and page absent when they were absent or empty (and stored as NULL
   * then) and the request's text otherwise, and the order and flag as sent or
   * defaulted.
   */
  lemma CreatedBlock(t: Table<BlockRow>, req: NewBlock, now: int)
    ensures var b := CreateContentBlock(t, req, now).0;
      && b.id == t.serial
      && b.blockType == req.blockType && b.content == req.content
      && (b.title.None? <==> (req.title.None? || req.title == Some("")))
      && (b.title.Some? ==> b.title == req.title)
      && (b.pageSlug.None? <==> (req.pageSlug.None? || req.pageSlug == Some("")))
      && (b.pageSlug.Some? ==> b.pageSlug == req.pageSlug)
      && b.sortOrder == req.sortOrder.GetOr(0)
      && (b.published <==> req.published == Some(true))
      && b.createdAt == now && b.updatedAt == now
    ensures var row := CreateContentBlock(t, req, now).1.rows[|t.rows|];
      row.title == OrAbsent(req.title) && row.pageSlug == OrAbsent(req.pageSlug)
  {
  }

  /** Creating keeps ids unique and below the serial. */
  lemma CreateKeepsValid(t: Table<BlockRow>, req: NewBlock, now: int)
    requires Valid(t)
    ensures Valid(CreateContentBlock(t, req, now).1)
  {
    var t' := CreateContentBlock(t, req, now).1;
    var n := |t.rows|;
    forall i, j | 0 <= i < j < |t'.rows| ensures t'.rows[i].id != t'.rows[j].id {
      assert t'.rows[i] == t.rows[i];
      if j < n {
        assert t'.rows[j] == t.rows[j];
      }
    }
  }
}
