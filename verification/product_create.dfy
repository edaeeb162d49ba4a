/**
 * `createProduct` (POST /cms/admin/products): refuse a slug already in use,
 * otherwise insert a row with the request's values and the handler's
 * defaults, and answer with the stored row mapped to the API.
 */
module ProductCreate {
  import opened Common
  import opened Sql
  import opened ProductModel

  /** The request body. Optional members are None when absent. */
  datatype NewProduct = NewProduct(
    name: string,
    slug: string,
    description: Option<string>,
    longDescription: Option<string>,
    price: int,
    size: Option<string>,
    notes: ScentNotes,
    images: Option<seq<string>>,
    featured: Option<bool>,
    published: Option<bool>,
    sortOrder: Option<int>)

  /** `SELECT id FROM products WHERE slug = $1` finds a row, published or not. */
  predicate SlugTaken(t: Table<ProductRow>, slug: string) {
    exists i :: 0 <= i < |t.rows| && t.rows[i].slug == slug
  }

  /**
   * The inserted row: the next serial id; `|| null` on the optional strings,
   * so "" is stored as NULL; notes and images as JSON (images `|| []`);
   * `|| false` and `|| 0` on the rest; both timestamps the insertion time.
   */
  function Inserted(id: int, req: NewProduct, now: int): ProductRow {
    ProductRow(id, req.name, req.slug, OrAbsent(req.description), OrAbsent(req.longDescription),
               req.price, OrAbsent(req.size), NotesJson(req.notes), StringArray(req.images.GetOr([])),
               req.featured.GetOr(false), req.published.GetOr(false), req.sortOrder.GetOr(0), now, now)
  }

  /**
   * The handler. A taken slug fails with "product with this slug already
   * exists" and changes nothing; otherwise one row is appended and returned.
   */
  function CreateProduct(t: Table<ProductRow>, req: NewProduct, now: int): (r: (Result<Product>, Table<ProductRow>))
    ensures SlugTaken(t, req.slug) ==> r == (Err(AlreadyExists("product with this slug already exists")), t)
    ensures !SlugTaken(t, req.slug) ==>
      && r.1.serial == t.serial + 1
      && |r.1.rows| == |t.rows| + 1
      && r.1.rows[..|t.rows|] == t.rows
      && r.0 == Ok(ToProduct(r.1.rows[|t.rows|]))
  {
    if SlugTaken(t, req.slug) then (Err(AlreadyExists("product with this slug already exists")), t)
    else
      var row := Inserted(t.serial, req, now);
      var t' := Append(t, row);
      assert t'.rows[..|t.rows|] == t.rows;
      (Ok(ToProduct(row)), t')
  }

  /**
   * What a successful create answers: the new id, the request's name, slug
   * and price, optional strings absent when they were absent or empty (and
   * stored as NULL then) and the request's text otherwise, the
   * notes and images read back as sent, and the flags and sort order as sent
   * or defaulted.
   */
  lemma CreatedProduct(t: Table<ProductRow>, req: NewProduct, now: int)
    requires !SlugTaken(t, req.slug)
    ensures var p := CreateProduct(t, req, now).0;
      && p.Ok?
      && p.value.id == t.serial
      && p.value.name == req.name && p.value.slug == req.slug && p.value.price == req.price
      && (p.value.description.None? <==> (req.description.None? || req.description == Some("")))
      && (p.value.description.Some? ==> p.value.description == req.description)
      && (p.value.longDescription.None? <==> (req.longDescription.None? || req.longDescription == Some("")))
      && (p.value.longDescription.Some? ==> p.value.longDescription == req.longDescription)
      && (p.value.size.None? <==> (req.size.None? || req.size == Some("")))
      && (p.value.size.Some? ==> p.value.size == req.size)
      && AsNotes(p.value.notes) == Some(req.notes)
      && AsStrings(p.value.images) == Some(req.images.GetOr([]))
      && (p.value.featured <==> req.featured == Some(true))
      && (p.value.published <==> req.published == Some(true))
      && p.value.sortOrder == req.sortOrder.GetOr(0)
      && p.value.createdAt == now && p.value.updatedAt == now
    ensures var row := CreateProduct(t, req, now).1.rows[|t.rows|];
      && row.description == OrAbsent(req.description)
      && row.longDescription == OrAbsent(req.longDescription)
      && row.size == OrAbsent(req.size)
  {
    NotesRoundTrip(req.notes);
    StringArrayRoundTrip(req.images.GetOr([]));
  }

  /** Creating keeps ids unique and below the serial, and slugs unique. */
  lemma CreateKeepsValid(t: Table<ProductRow>, req: NewProduct, now: int)
    requires Valid(t)
    ensures Valid(CreateProduct(t, req, now).1)
  {
    var t' := CreateProduct(t, req, now).1;
    if !SlugTaken(t, req.slug) {
      var n := |t.rows|;
      forall i, j | 0 <= i < j < |t'.rows| ensures t'.rows[i].id != t'.rows[j].id && t'.rows[i].slug != t'.rows[j].slug {
        assert t'.rows[i] == t.rows[i];
        if j < n {
          assert t'.rows[j] == t.rows[j];
        } else {
          assert t'.rows[j] == Inserted(t.serial, req, now);
        }
      }
    }
  }
}
