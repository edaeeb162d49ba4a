/**
 * `getProduct` (GET /cms/products/:slug): the published product with a slug.
 * The query has no ORDER BY, so the row returned is the first match in storage
 * order; the create handler keeps slugs unique, so there is at most one.
 */
module ProductLookup {
  import opened Common
  import opened Seqs
  import opened Sql
  import opened ProductModel

  /** `WHERE slug = $1 AND published = true`. */
  function LookupQuery(slug: string): SelectQuery<Column> {
    SelectQuery([EqualsParam(Slug, 1), IsTrue(Published)], None, [Text(slug)])
  }

  /** What the public may see under a slug. */
  predicate Shown(slug: string, row: ProductRow) {
    row.slug == slug && row.published
  }

  lemma LookupBound(slug: string)
    ensures SelectBound(LookupQuery(slug))
  {
    assert LookupQuery(slug).conditions[0] == EqualsParam(Slug, 1);
  }

  lemma LookupWhere(slug: string, row: ProductRow)
    ensures Where(Get, row, LookupQuery(slug)) <==> Shown(slug, row)
  {
    var q := LookupQuery(slug);
    if Shown(slug, row) {
      assert forall i :: 0 <= i < 2 ==> Satisfies(Get, row, q.conditions[i], q.params);
    } else if row.slug != slug {
      assert !Satisfies(Get, row, q.conditions[0], q.params);
    } else {
      assert !Satisfies(Get, row, q.conditions[1], q.params);
    }
  }

  /**
   * The handler: the first published row with the slug, mapped to the API, or
   * "product not found" when there is none (an unpublished product included).
   */
  function GetProduct(t: Table<ProductRow>, slug: string): (r: Result<Product>)
    ensures r.Err? <==> forall i :: 0 <= i < |t.rows| ==> !Shown(slug, t.rows[i])
    ensures r.Err? ==> r.error == NotFound("product not found")
    ensures r.Ok? ==> exists i :: 0 <= i < |t.rows| && Shown(slug, t.rows[i]) && r.value == ToProduct(t.rows[i])
    ensures r.Ok? ==> r.value.slug == slug && r.value.published
  {
    var q := LookupQuery(slug);
    forall i | 0 <= i < |t.rows| ensures Where(Get, t.rows[i], q) == Shown(slug, t.rows[i]) {
      LookupWhere(slug, t.rows[i]);
    }
    LookupBound(slug);
    SelectMeans(Get, t, q, None, (row: ProductRow) => Shown(slug, row));
    match RunSelect(Get, t, q, None)
    case Err(e) => Err(e)
    case Ok(rows) =>
      if rows == [] then Err(NotFound("product not found"))
      else
        FilterMember(t.rows, (row: ProductRow) => Shown(slug, row), rows[0]);
        Ok(ToProduct(rows[0]))
  }

  /** In a valid table the product found is the one stored under the slug. */
  lemma GetUnique(t: Table<ProductRow>, slug: string, k: nat)
    requires Valid(t) && k < |t.rows| && Shown(slug, t.rows[k])
    ensures GetProduct(t, slug) == Ok(ToProduct(t.rows[k]))
  {
    var r := GetProduct(t, slug);
    assert r.Ok?;
    var i :| 0 <= i < |t.rows| && Shown(slug, t.rows[i]) && r.value == ToProduct(t.rows[i]);
    assert t.rows[i].slug == t.rows[k].slug;
    assert i == k;
  }
}
