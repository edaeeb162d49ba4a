/**
 * How the product handlers fit together: what the admin creates or
 * unpublishes is what the public reads see.
 */
module ProductFlows {
  import opened Common
  import opened Sql
  import opened ProductModel
  import opened ProductUpdate
  import opened ProductCreate
  import opened ProductLookup
  import opened ProductListing

  /** A product created published is found under its slug, exactly as the create answered. */
  lemma CreateThenGet(t: Table<ProductRow>, req: NewProduct, now: int)
    requires Valid(t) && !SlugTaken(t, req.slug) && req.published == Some(true)
    ensures var (created, t') := CreateProduct(t, req, now);
      created.Ok? && GetProduct(t', req.slug) == created
  {
    var t' := CreateProduct(t, req, now).1;
    CreateKeepsValid(t, req, now);
    assert t'.rows[|t.rows|] == Inserted(t.serial, req, now);
    GetUnique(t', req.slug, |t.rows|);
  }

  /** A product the lookup finds is in the full public listing. */
  lemma GetInListing(t: Table<ProductRow>, slug: string)
    requires GetProduct(t, slug).Ok?
    ensures ListProducts(t, None, None).Ok?
    ensures GetProduct(t, slug).value in ListProducts(t, None, None).value
  {
    var i :| 0 <= i < |t.rows| && Shown(slug, t.rows[i]) && GetProduct(t, slug).value == ToProduct(t.rows[i]);
    var row := t.rows[i];
    ListedComplete(t, None, row);
    assert row in multiset(t.rows);
    var listed := Listed(t, None, None);
    assert row in multiset(listed);
    var k :| 0 <= k < |listed| && listed[k] == row;
    assert ToProducts(listed)[k] == ToProduct(row);
  }

  /** Unpublishing a product hides it from the lookup by slug. */
  lemma UnpublishHides(t: Table<ProductRow>, id: int, ch: ProductChanges, now: int, k: nat)
    requires Valid(t) && k < |t.rows| && t.rows[k].id == id
    requires ch.published == Some(false)
    ensures GetProduct(UpdateProduct(t, id, ch, now).1, t.rows[k].slug) == Err(NotFound("product not found"))
  {
    var t' := UpdateProduct(t, id, ch, now).1;
    UpdateTouchesOne(t, id, ch, now, k);
    forall i | 0 <= i < |t'.rows| ensures !Shown(t.rows[k].slug, t'.rows[i]) {
      if i != k {
        assert t'.rows[i] == t.rows[i];
      }
    }
  }
}
