/**
 * The admin screen's side of the API: how its forms and buttons shape the
 * requests they send, and what the backend then stores and shows.
 */
module Admin {
  import opened Common
  import opened FormText
  import Sql
  import ProductModel
  import ProductCreate
  import ProductUpdate
  import ProductListing
  import PageModel
  import PageCreate
  import PageUpdate
  import PageListing
  import Ordering
  import BlockModel
  import BlockListing

  // ---------------------------------------------------------------------------
  // Page form

  /** The new-page form: text inputs, the content textarea, and the published checkbox. */
  datatype PageForm = PageForm(
    slug: string,
    title: string,
    subtitle: string,
    metaTitle: string,
    metaDescription: string,
    published: bool)

  /**
   * The createPage request the form sends. `content` is what
   * `JSON.parse(form.content || '{}')` gives; None when it throws, and then
   * nothing is sent.
   */
  function PageRequest(form: PageForm, content: Option<Json>): (r: Option<PageCreate.NewPage>)
    ensures r.None? <==> content.None?
    ensures r.Some? ==>
      && r.value.slug == form.slug && r.value.title == form.title && r.value.content == content.value
      && (r.value.subtitle.None? <==> form.subtitle == "")
      && (r.value.subtitle.Some? ==> r.value.subtitle.value == form.subtitle)
      && (r.value.metaTitle.None? <==> form.metaTitle == "")
      && (r.value.metaTitle.Some? ==> r.value.metaTitle.value == form.metaTitle)
      && (r.value.metaDescription.None? <==> form.metaDescription == "")
      && (r.value.metaDescription.Some? ==> r.value.metaDescription.value == form.metaDescription)
      && r.value.published.Some? && (r.value.published.value <==> form.published)
  {
    match content
    case None => None
    case Some(j) =>
      Some(PageCreate.NewPage(form.slug, form.title, NonEmpty(form.subtitle), j, NonEmpty(form.metaTitle),
                              NonEmpty(form.metaDescription), Some(form.published)))
  }

  /**
   * A page created from the form answers with the form's texts (an empty
   * input read back absent) and checkbox, and the public page list shows it
   * exactly when the box was ticked.
   */
  lemma PageFormCreated(t: Sql.Table<PageModel.PageRow>, form: PageForm, content: Json, now: int)
    requires !PageCreate.SlugTaken(t, form.slug)
    ensures var req := PageRequest(form, Some(content)).value;
      var (p, t') := PageCreate.CreatePage(t, req, now);
      && p.Ok?
      && p.value.slug == form.slug && p.value.title == form.title && p.value.content == content
      && p.value.subtitle == NonEmpty(form.subtitle)
      && p.value.metaTitle == NonEmpty(form.metaTitle)
      && p.value.metaDescription == NonEmpty(form.metaDescription)
      && p.value.published == form.published
      && (t'.rows[|t.rows|] in PageListing.Listed(t') <==> form.published)
  {
    var req := PageRequest(form, Some(content)).value;
    var t' := PageCreate.CreatePage(t, req, now).1;
    var row := t'.rows[|t.rows|];
    PageCreate.CreatedPage(t, req, now);
    PageListing.ListedExactly(t', row);
    assert row in multiset(t'.rows);
  }

  // ---------------------------------------------------------------------------
  // Product form

  /** The new-product form: text inputs (price and sort order as typed), checkboxes, and comma-separated lists. */
  datatype ProductForm = ProductForm(
    name: string,
    slug: string,
    size: string,
    description: string,
    longDescription: string,
    featured: bool,
    published: bool,
    notesTop: string,
    notesHeart: string,
    notesBase: string,
    images: string)

  /** `parseFloat(form.price) || 0`, with `price` the parse (None for NaN): the parsed price, or 0. */
  function PriceField(price: Option<int>): (r: int)
    ensures price.Some? ==> r == price.value
    ensures price.None? ==> r == 0
  {
    ParsedOr(price, 0)
  }

  /**
   * `parseInt(form.sortOrder) || 1` as written: NaN and also a parsed 0 give
   * 1, so a product cannot be given sort order 0 from the form.
   */
  function SortOrderAsWritten(sortOrder: Option<int>): (r: int)
    ensures r == 1 <==> (sortOrder.None? || sortOrder == Some(0) || sortOrder == Some(1))
    ensures r != 1 ==> sortOrder == Some(r)
  {
    ParsedOr(sortOrder, 1)
  }

  /** The sort order field with only NaN replaced by the default 1. */
  function SortOrderField(sortOrder: Option<int>): (r: int)
    ensures sortOrder.Some? ==> r == sortOrder.value
    ensures sortOrder.None? ==> r == 1
  {
    match sortOrder
    case None => 1
    case Some(n) => n
  }

  /** The two readings differ exactly on a typed 0. */
  lemma SortOrderReadings(sortOrder: Option<int>)
    ensures SortOrderAsWritten(sortOrder) != SortOrderField(sortOrder) <==> sortOrder == Some(0)
  {
  }

  /** The three note lists, each parsed from its comma-separated input. */
  function NotesField(form: ProductForm): (r: ProductModel.ScentNotes)
    ensures r.top == ParseList(form.notesTop) && r.heart == ParseList(form.notesHeart) && r.base == ParseList(form.notesBase)
  {
    ProductModel.ScentNotes(ParseList(form.notesTop), ParseList(form.notesHeart), ParseList(form.notesBase))
  }

  /**
   * The createProduct request the form sends, given what `parseFloat` and
   * `parseInt` make of the price and sort order inputs.
   */
  function ProductRequest(form: ProductForm, price: Option<int>, sortOrder: Option<int>): (r: ProductCreate.NewProduct)
    ensures r.name == form.name && r.slug == form.slug
    ensures r.size == NonEmpty(form.size) && r.description == NonEmpty(form.description)
    ensures r.longDescription == NonEmpty(form.longDescription)
    ensures price.Some? ==> r.price == price.value
    ensures price.None? ==> r.price == 0
    ensures r.sortOrder == Some(SortOrderAsWritten(sortOrder))
    ensures r.featured == Some(form.featured) && r.published == Some(form.published)
    ensures r.images.Some? && (r.images.value == [] <==> form.images == "")
  {
    ProductCreate.NewProduct(form.name, form.slug, NonEmpty(form.description), NonEmpty(form.longDescription),
                             PriceField(price), NonEmpty(form.size), NotesField(form), Some(ParseList(form.images)),
                             Some(form.featured), Some(form.published), Some(SortOrderAsWritten(sortOrder)))
  }

  /**
   * A product created from the form answers with the form's texts (an empty
   * input read back absent), the checkboxes as ticked, the price and sort
   * order as the form computes them, and the note and image lists as parsed
   * from their inputs.
   */
  lemma ProductFormCreated(t: Sql.Table<ProductModel.ProductRow>, form: ProductForm, price: Option<int>, sortOrder: Option<int>, now: int)
    requires !ProductCreate.SlugTaken(t, form.slug)
    ensures var p := ProductCreate.CreateProduct(t, ProductRequest(form, price, sortOrder), now).0;
      && p.Ok?
      && p.value.name == form.name && p.value.slug == form.slug
      && p.value.size == NonEmpty(form.size)
      && p.value.description == NonEmpty(form.description)
      && p.value.longDescription == NonEmpty(form.longDescription)
      && p.value.price == PriceField(price)
      && p.value.sortOrder == SortOrderAsWritten(sortOrder)
      && p.value.featured == form.featured && p.value.published == form.published
      && ProductModel.AsNotes(p.value.notes) == Some(NotesField(form))
      && AsStrings(p.value.images) == Some(ParseList(form.images))
  {
    ProductCreate.CreatedProduct(t, ProductRequest(form, price, sortOrder), now);
  }

  /** A product created from the form with "0" typed as its sort order is stored with sort order 1. */
  lemma ZeroSortOrderLost(t: Sql.Table<ProductModel.ProductRow>, form: ProductForm, price: Option<int>, now: int)
    requires !ProductCreate.SlugTaken(t, form.slug)
    ensures ProductRequest(form, price, Some(0)).sortOrder == Some(1)
    ensures var (p, t') := ProductCreate.CreateProduct(t, ProductRequest(form, price, Some(0)), now);
      p.Ok? && p.value.sortOrder == 1 && t'.rows[|t.rows|].sortOrder == 1
  {
    ProductFormCreated(t, form, price, Some(0), now);
  }

  /** The request with the corrected sort order field: the same request in every other member. */
  function ProductRequestFixed(form: ProductForm, price: Option<int>, sortOrder: Option<int>): (r: ProductCreate.NewProduct)
    ensures r.sortOrder == Some(SortOrderField(sortOrder))
    ensures r.(sortOrder := None) == ProductRequest(form, price, sortOrder).(sortOrder := None)
  {
    ProductRequest(form, price, sortOrder).(sortOrder := Some(SortOrderField(sortOrder)))
  }

  /**
   * With the corrected field every typed number, 0 included, is stored as
   * the product's sort order, and the product is otherwise the one the form
   * as written creates.
   */
  lemma FixedSortOrderStored(t: Sql.Table<ProductModel.ProductRow>, form: ProductForm, price: Option<int>, n: int, now: int)
    requires !ProductCreate.SlugTaken(t, form.slug)
    ensures var p := ProductCreate.CreateProduct(t, ProductRequestFixed(form, price, Some(n)), now).0;
      var q := ProductCreate.CreateProduct(t, ProductRequest(form, price, Some(n)), now).0;
      && p.Ok? && q.Ok?
      && p.value.sortOrder == n
      && p.value == q.value.(sortOrder := n)
  {
    ProductFormCreated(t, form, price, Some(n), now);
  }

  /**
   * Notes typed as trimmed, comma-free names separated by commas are stored
   * as exactly those names; an empty input stores no notes.
   */
  lemma TypedNotesStored(t: Sql.Table<ProductModel.ProductRow>, form: ProductForm, price: Option<int>, sortOrder: Option<int>, now: int, top: seq<string>)
    requires !ProductCreate.SlugTaken(t, form.slug)
    requires top != [""] && forall i :: 0 <= i < |top| ==> Trimmed(top[i]) && ',' !in top[i]
    requires form.notesTop == Join(top)
    ensures var p := ProductCreate.CreateProduct(t, ProductRequest(form, price, sortOrder), now).0;
      p.Ok? && ProductModel.AsNotes(p.value.notes).Some? && ProductModel.AsNotes(p.value.notes).value.top == top
  {
    ProductFormCreated(t, form, price, sortOrder, now);
    if top != [] {
      ParseListJoin(top);
    }
  }

  // ---------------------------------------------------------------------------
  // Quick toggles

  /** The Publish/Unpublish button: an update of the shown page carrying only the opposite of the flag it shows. */
  function PublishToggle(page: PageModel.Page): (ch: PageUpdate.PageChanges)
    ensures !PageUpdate.NoChanges(ch)
    ensures ch.published == Some(!page.published)
    ensures ch.title.None? && ch.subtitle.None? && ch.content.None? && ch.metaTitle.None? && ch.metaDescription.None?
  {
    PageUpdate.PageChanges(None, None, None, None, None, Some(!page.published))
  }

  /**
   * Pressing the button sets the stored flag to the opposite of the one the
   * admin saw, stamps the row, and changes nothing else in the table.
   */
  lemma PublishToggleSets(t: Sql.Table<PageModel.PageRow>, page: PageModel.Page, k: nat, now: int)
    requires PageModel.Valid(t) && k < |t.rows| && t.rows[k].id == page.id
    ensures var (r, t') := PageUpdate.UpdatePage(t, page.id, PublishToggle(page), now);
      && r == Ok(PageModel.ToPage(t'.rows[k]))
      && t'.rows[k] == t.rows[k].(published := !page.published, updatedAt := now)
      && |t'.rows| == |t.rows|
      && forall i :: 0 <= i < |t.rows| && i != k ==> t'.rows[i] == t.rows[i]
  {
    PageUpdate.UpdateTouchesOne(t, page.id, PublishToggle(page), now, k);
  }

  /** Pressing the button twice, on the page each press answers with, leaves the flag as it was. */
  lemma PublishToggleTwice(t: Sql.Table<PageModel.PageRow>, k: nat, now1: int, now2: int)
    requires PageModel.Valid(t) && k < |t.rows|
    ensures var page := PageModel.ToPage(t.rows[k]);
      var (r1, t1) := PageUpdate.UpdatePage(t, page.id, PublishToggle(page), now1);
      r1.Ok? &&
      var (r2, t2) := PageUpdate.UpdatePage(t1, r1.value.id, PublishToggle(r1.value), now2);
      && r2.Ok?
      && t2.rows[k] == t.rows[k].(updatedAt := now2)
      && forall i :: 0 <= i < |t.rows| && i != k ==> t2.rows[i] == t.rows[i]
  {
    var page := PageModel.ToPage(t.rows[k]);
    PublishToggleSets(t, page, k, now1);
    var (r1, t1) := PageUpdate.UpdatePage(t, page.id, PublishToggle(page), now1);
    PageUpdate.UpdateKeepsValid(t, page.id, PublishToggle(page), now1);
    PublishToggleSets(t1, r1.value, k, now2);
  }

  /**
   * The pages tab lists what `listPages` answers, so it shows published pages
   * only: the "Draft" label never appears, and every press of the button
   * unpublishes.
   */
  lemma DraftsNeverShown(t: Sql.Table<PageModel.PageRow>)
    ensures forall i :: 0 <= i < |PageListing.ListPages(t)| ==>
      PageListing.ListPages(t)[i].published && PublishToggle(PageListing.ListPages(t)[i]).published == Some(false)
  {
    forall i | 0 <= i < |PageListing.ListPages(t)| ensures PageListing.ListPages(t)[i].published {
      var k := ShownRow(t, i);
    }
  }

  /** The stored row behind the i-th page the tab shows. */
  lemma ShownRow(t: Sql.Table<PageModel.PageRow>, i: nat) returns (k: nat)
    requires i < |PageListing.ListPages(t)|
    ensures k < |t.rows| && t.rows[k].published
    ensures PageListing.ListPages(t)[i] == PageModel.ToPage(t.rows[k])
  {
    var x := PageListing.Listed(t)[i];
    assert x in PageListing.Listed(t);
    PageListing.ListedExactly(t, x);
    assert x in multiset(t.rows);
    k :| 0 <= k < |t.rows| && t.rows[k] == x;
  }

  /**
   * Pressing the button on a page the tab shows unpublishes it, and the
   * refetched list no longer has it, so it cannot be published again from
   * this screen.
   */
  lemma UnpublishLeavesList(t: Sql.Table<PageModel.PageRow>, i: nat, now: int)
    requires PageModel.Valid(t) && i < |PageListing.ListPages(t)|
    ensures var page := PageListing.ListPages(t)[i];
      var (r, t') := PageUpdate.UpdatePage(t, page.id, PublishToggle(page), now);
      && r.Ok? && !r.value.published
      && forall j :: 0 <= j < |PageListing.ListPages(t')| ==> PageListing.ListPages(t')[j].id != page.id
  {
    var page := PageListing.ListPages(t)[i];
    var k := ShownRow(t, i);
    PublishToggleSets(t, page, k, now);
    var t' := PageUpdate.UpdatePage(t, page.id, PublishToggle(page), now).1;
    OnlyRowWithId(t, t', k);
    NotListed(t', page.id);
  }

  /** An update that changed only row k leaves row k the only row with its id. */
  lemma OnlyRowWithId(t: Sql.Table<PageModel.PageRow>, t': Sql.Table<PageModel.PageRow>, k: nat)
    requires PageModel.Valid(t) && k < |t.rows| && |t'.rows| == |t.rows|
    requires t'.rows[k].id == t.rows[k].id
    requires forall i :: 0 <= i < |t.rows| && i != k ==> t'.rows[i] == t.rows[i]
    ensures forall m :: 0 <= m < |t'.rows| && t'.rows[m].id == t.rows[k].id ==> m == k
  {
    forall m | 0 <= m < |t'.rows| && m != k ensures t'.rows[m].id != t.rows[k].id {
      assert t'.rows[m] == t.rows[m];
    }
  }

  /** When every stored page with the id is a draft, `listPages` answers no page with it. */
  lemma NotListed(t: Sql.Table<PageModel.PageRow>, id: int)
    requires forall m :: 0 <= m < |t.rows| && t.rows[m].id == id ==> !t.rows[m].published
    ensures forall j :: 0 <= j < |PageListing.ListPages(t)| ==> PageListing.ListPages(t)[j].id != id
  {
    forall j | 0 <= j < |PageListing.ListPages(t)| ensures PageListing.ListPages(t)[j].id != id {
      var m := ShownRow(t, j);
    }
  }

  /** The list the pages tab evidently needs: every stored page, drafts included, in slug order. */
  function AdminPages(t: Sql.Table<PageModel.PageRow>): (r: seq<PageModel.Page>)
    ensures |r| == |t.rows|
    ensures forall k :: 0 <= k < |t.rows| ==> PageModel.ToPage(t.rows[k]) in r
    ensures forall j :: 0 <= j < |r| ==> exists k :: 0 <= k < |t.rows| && r[j] == PageModel.ToPage(t.rows[k])
  {
    var sorted := Ordering.SortBy(t.rows, PageModel.SlugKey);
    var r := PageListing.ToPages(sorted);
    forall k | 0 <= k < |t.rows| ensures PageModel.ToPage(t.rows[k]) in r {
      assert t.rows[k] in multiset(sorted);
      var j :| 0 <= j < |sorted| && sorted[j] == t.rows[k];
      assert r[j] == PageModel.ToPage(t.rows[k]);
    }
    forall j | 0 <= j < |r| ensures exists k :: 0 <= k < |t.rows| && r[j] == PageModel.ToPage(t.rows[k]) {
      assert sorted[j] in multiset(t.rows);
      var k :| 0 <= k < |t.rows| && t.rows[k] == sorted[j];
      assert r[j] == PageModel.ToPage(t.rows[k]);
    }
    r
  }

  /**
   * With every page listed, the page a press answers with, now a draft or
   * published again, is still on the screen, so the button can always undo
   * it (see PublishToggleTwice).
   */
  lemma ToggledStaysShown(t: Sql.Table<PageModel.PageRow>, k: nat, now: int)
    requires PageModel.Valid(t) && k < |t.rows|
    ensures var page := PageModel.ToPage(t.rows[k]);
      var (r, t') := PageUpdate.UpdatePage(t, page.id, PublishToggle(page), now);
      && page in AdminPages(t)
      && r.Ok? && r.value.published == !page.published
      && r.value in AdminPages(t')
  {
    var page := PageModel.ToPage(t.rows[k]);
    PublishToggleSets(t, page, k, now);
  }

  /**
   * The products tab lists what `listProducts({})` answers, so it too shows
   * published products only: a product created as a draft never appears and
   * its "Draft" label is never shown.
   */
  lemma ProductDraftsNeverShown(t: Sql.Table<ProductModel.ProductRow>)
    ensures ProductListing.ListProducts(t, None, None).Ok?
    ensures var shown := ProductListing.ListProducts(t, None, None).value;
      forall i :: 0 <= i < |shown| ==> shown[i].published
  {
    ProductListing.ListedSound(t, None, None);
  }

  /** The Feature/Unfeature button: an update of the shown product carrying only the opposite of the flag it shows. */
  function FeatureToggle(product: ProductModel.Product): (ch: ProductUpdate.ProductChanges)
    ensures !ProductUpdate.NoChanges(ch)
    ensures ch.featured == Some(!product.featured)
    ensures ch.name.None? && ch.description.None? && ch.longDescription.None? && ch.price.None? && ch.size.None?
    ensures ch.notes.None? && ch.images.None? && ch.published.None? && ch.sortOrder.None?
  {
    ProductUpdate.ProductChanges(None, None, None, None, None, None, None, Some(!product.featured), None, None)
  }

  /**
   * Pressing the button sets the stored flag to the opposite of the one the
   * admin saw, stamps the row, and changes nothing else in the table.
   */
  lemma FeatureToggleSets(t: Sql.Table<ProductModel.ProductRow>, product: ProductModel.Product, k: nat, now: int)
    requires ProductModel.Valid(t) && k < |t.rows| && t.rows[k].id == product.id
    ensures var (r, t') := ProductUpdate.UpdateProduct(t, product.id, FeatureToggle(product), now);
      && r == Ok(ProductModel.ToProduct(t'.rows[k]))
      && t'.rows[k] == t.rows[k].(featured := !product.featured, updatedAt := now)
      && |t'.rows| == |t.rows|
      && forall i :: 0 <= i < |t.rows| && i != k ==> t'.rows[i] == t.rows[i]
  {
    ProductUpdate.UpdateTouchesOne(t, product.id, FeatureToggle(product), now, k);
  }

  /** Pressing the button twice, on the product each press answers with, leaves the flag as it was. */
  lemma FeatureToggleTwice(t: Sql.Table<ProductModel.ProductRow>, k: nat, now1: int, now2: int)
    requires ProductModel.Valid(t) && k < |t.rows|
    ensures var product := ProductModel.ToProduct(t.rows[k]);
      var (r1, t1) := ProductUpdate.UpdateProduct(t, product.id, FeatureToggle(product), now1);
      r1.Ok? &&
      var (r2, t2) := ProductUpdate.UpdateProduct(t1, r1.value.id, FeatureToggle(r1.value), now2);
      && r2.Ok?
      && t2.rows[k] == t.rows[k].(updatedAt := now2)
      && forall i :: 0 <= i < |t.rows| && i != k ==> t2.rows[i] == t.rows[i]
  {
    var product := ProductModel.ToProduct(t.rows[k]);
    FeatureToggleSets(t, product, k, now1);
    var (r1, t1) := ProductUpdate.UpdateProduct(t, product.id, FeatureToggle(product), now1);
    ProductUpdate.UpdateKeepsValid(t, product.id, FeatureToggle(product), now1);
    FeatureToggleSets(t1, r1.value, k, now2);
  }

  // ---------------------------------------------------------------------------
  // Block filters

  /** The blocks tab's fetch: each filter input is sent only when it is not empty. */
  function FetchBlocks(t: Sql.Table<BlockModel.BlockRow>, pageSlug: string, blockType: string): (r: seq<BlockModel.ContentBlock>)
    ensures r == BlockListing.ToBlocks(BlockListing.Listed(t, NonEmpty(pageSlug), NonEmpty(blockType)))
  {
    BlockListing.ListContentBlocks(t, NonEmpty(pageSlug), NonEmpty(blockType))
  }

  /**
   * What the blocks tab lists: a published block is shown when each filter
   * input is empty or matches it; unpublished blocks never are.
   */
  lemma FetchBlocksShows(t: Sql.Table<BlockModel.BlockRow>, pageSlug: string, blockType: string, row: BlockModel.BlockRow)
    requires row in t.rows
    ensures row in BlockListing.Listed(t, NonEmpty(pageSlug), NonEmpty(blockType)) <==>
      && row.published
      && (pageSlug == "" || row.pageSlug == Some(pageSlug))
      && (blockType == "" || row.blockType == blockType)
  {
    BlockListing.ListedExactly(t, NonEmpty(pageSlug), NonEmpty(blockType), row);
    assert row in multiset(t.rows);
  }
}
