/**
 * How the block handlers fit together: where a created or moved block shows
 * up in the public listing.
 */
module BlockFlows {
  import opened Common
  import opened Sql
  import opened BlockModel
  import opened BlockCreate
  import opened BlockUpdate
  import opened BlockListing

  /**
   * A created block is listed under a page and type filter exactly when it
   * was created published, on that (non-empty) page, and of that type.
   */
  lemma CreatedBlockListed(t: Table<BlockRow>, req: NewBlock, now: int, slug: string, blockType: Option<string>)
    ensures var t' := CreateContentBlock(t, req, now).1;
      t'.rows[|t.rows|] in Listed(t', Some(slug), blockType) <==>
        && req.published == Some(true)
        && slug != "" && req.pageSlug == Some(slug)
        && (blockType.Some? ==> req.blockType == blockType.value)
  {
    var t' := CreateContentBlock(t, req, now).1;
    var row := t'.rows[|t.rows|];
    ListedExactly(t', Some(slug), blockType, row);
    assert row in multiset(t'.rows);
  }

  /**
   * Creating stores an empty page as NULL, while updating stores it as "":
   * both blocks read back without a page, yet the filter `pageSlug = ""`
   * lists the updated one and never the created one.
   */
  lemma EmptyPageDiffers(t: Table<BlockRow>, req: NewBlock, id: int, ch: BlockChanges, now: int, k: nat)
    requires Valid(t) && k < |t.rows| && t.rows[k].id == id
    requires req.pageSlug == Some("") && req.published == Some(true)
    requires ch.pageSlug == Some("") && ch.published == Some(true) && ch.blockType.None?
    ensures var (created, t1) := CreateContentBlock(t, req, now);
      var (moved, t2) := UpdateContentBlock(t, id, ch, now);
      && created.pageSlug.None? && moved.Ok? && moved.value.pageSlug.None?
      && t1.rows[|t.rows|] !in Listed(t1, Some(""), None)
      && t2.rows[k] in Listed(t2, Some(""), None)
  {
    var t1 := CreateContentBlock(t, req, now).1;
    CreatedBlockListed(t, req, now, "", None);
    UpdateTouchesOne(t, id, ch, now, k);
    var t2 := UpdateContentBlock(t, id, ch, now).1;
    ListedExactly(t2, Some(""), None, t2.rows[k]);
    assert t2.rows[k] in multiset(t2.rows);
  }
}
