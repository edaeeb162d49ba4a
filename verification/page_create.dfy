/**
 * `createPage` (POST /cms/admin/pages): refuse a slug already in use,
 * otherwise insert the page with the handler's defaults and answer with the
 * stored row mapped to the API.
 */
module PageCreate {
  import opened Common
  import opened Sql
  import opened PageModel

  /** The request body. Optional members are None when absent. */
  datatype NewPage = NewPage(
    slug: string,
    title: string,
    subtitle: Option<string>,
    content: Json,
    metaTitle: Option<string>,
    metaDescription: Option<string>,
    published: Option<bool>)

  /** `SELECT id FROM pages WHERE slug = $1` finds a row, published or not. */
  predicate SlugTaken(t: Table<PageRow>, slug: string) {
    exists i :: 0 <= i < |t.rows| && t.rows[i].slug == slug
  }

  /** The inserted row: the next serial id, "" stored as NULL, `published || false`, both timestamps the insertion time. */
  function Inserted(id: int, req: NewPage, now: int): PageRow {
    PageRow(id, req.slug, req.title, OrAbsent(req.subtitle), req.content, OrAbsent(req.metaTitle),
            OrAbsent(req.metaDescription), req.published.GetOr(false), now, now)
  }

  /**
   * The handler. A taken slug fails with "page with this slug already exists"
   * and changes nothing; otherwise one row is appended and returned.
   */
  function CreatePage(t: Table<PageRow>, req: NewPage, now: int): (r: (Result<Page>, Table<PageRow>))
    ensures SlugTaken(t, req.slug) ==> r == (Err(AlreadyExists("page with this slug already exists")), t)
    ensures !SlugTaken(t, req.slug) ==>
      && r.1.serial == t.serial + 1
      && |r.1.rows| == |t.rows| + 1
      && r.1.rows[..|t.rows|] == t.rows
      && r.0 == Ok(ToPage(r.1.rows[|t.rows|]))
  {
    if SlugTaken(t, req.slug) then (Err(AlreadyExists("page with this slug already exists")), t)
    else
      var row := Inserted(t.serial, req, now);
      var t' := Append(t, row);
      assert t'.rows[..|t.rows|] == t.rows;
      (Ok(ToPage(row)), t')
  }

  /**
   * What a successful create answers: the new id, the request's slug, title
   * and content, optional strings absent when they were absent or empty (and
   * stored as NULL then) and the request's text otherwise, and `published`
   * only when the request says so.
   */
  lemma CreatedPage(t: Table<PageRow>, req: NewPage, now: int)
    requires !SlugTaken(t, req.slug)
    ensures var p := CreatePage(t, req, now).0;
      && p.Ok?
      && p.value.id == t.serial
      && p.value.slug == req.slug && p.value.title == req.title && p.value.content == req.content
      && (p.value.subtitle.None? <==> (req.subtitle.None? || req.subtitle == Some("")))
      && (p.value.subtitle.Some? ==> p.value.subtitle == req.subtitle)
      && (p.value.metaTitle.None? <==> (req.metaTitle.None? || req.metaTitle == Some("")))
      && (p.value.metaTitle.Some? ==> p.value.metaTitle == req.metaTitle)
      && (p.value.metaDescription.None? <==> (req.metaDescription.None? || req.metaDescription == Some("")))
      && (p.value.metaDescription.Some? ==> p.value.metaDescription == req.metaDescription)
      && (p.value.published <==> req.published == Some(true))
      && p.value.createdAt == now && p.value.updatedAt == now
    ensures var row := CreatePage(t, req, now).1.rows[|t.rows|];
      && row.subtitle == OrAbsent(req.subtitle)
      && row.metaTitle == OrAbsent(req.metaTitle)
      && row.metaDescription == OrAbsent(req.metaDescription)
  {
  }

  /** Creating keeps ids unique and below the serial, and slugs unique. */
  lemma CreateKeepsValid(t: Table<PageRow>, req: NewPage, now: int)
    requires Valid(t)
    ensures Valid(CreatePage(t, req, now).1)
  {
    var t' := CreatePage(t, req, now).1;
    if !SlugTaken(t, req.slug) {
      var n := |t.rows|;
      forall i, j | 0 <= i < j < |t'.rows| ensures t'.rows[i].id != t'.rows[j].id && t'.rows[i].slug != t'.rows[j].slug {
        assert t'.rows[i] == t.rows[i];
        if j < n {
          assert t'.rows[j] == t.rows[j];
        } else {
          assert t'.rows[j] == Inserted(t.serial, req, now);
        }
      }
    }
  }
}
