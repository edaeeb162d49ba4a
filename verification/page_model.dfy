/**
 * Pages: the `pages` row, the API's Page record, the mapping between them,
 * and the table's schema.
 */
module PageModel {
  import opened Common
  import opened Sql

  /** A row of `pages`. None is SQL NULL; `content` is a JSON column. */
  datatype PageRow = PageRow(
    id: int,
    slug: string,
    title: string,
    subtitle: Option<string>,
    content: Json,
    metaTitle: Option<string>,
    metaDescription: Option<string>,
    published: bool,
    createdAt: int,
    updatedAt: int)

  /** The API's Page. None is `undefined`. */
  datatype Page = Page(
    id: int,
    slug: string,
    title: string,
    subtitle: Option<string>,
    content: Json,
    metaTitle: Option<string>,
    metaDescription: Option<string>,
    published: bool,
    createdAt: int,
    updatedAt: int)

  /** The row-to-API mapping of every page handler: `x || undefined` on the optional strings. */
  function ToPage(row: PageRow): Page {
    Page(row.id, row.slug, row.title, OrAbsent(row.subtitle), row.content, OrAbsent(row.metaTitle),
         OrAbsent(row.metaDescription), row.published, row.createdAt, row.updatedAt)
  }

  /** Two rows map to the same Page exactly when they differ at most by NULL versus "" in the optional strings. */
  lemma ToPageCollapse(a: PageRow, b: PageRow)
    ensures ToPage(a) == ToPage(b) <==>
      && a.(subtitle := None, metaTitle := None, metaDescription := None) == b.(subtitle := None, metaTitle := None, metaDescription := None)
      && (OrAbsent(a.subtitle) == OrAbsent(b.subtitle))
      && (OrAbsent(a.metaTitle) == OrAbsent(b.metaTitle))
      && (OrAbsent(a.metaDescription) == OrAbsent(b.metaDescription))
  {
  }

  // ---------------------------------------------------------------------------
  // Schema

  datatype Column =
    | Id | Slug | Title | Subtitle | Content | MetaTitle | MetaDescription | Published | CreatedAt | UpdatedAt

  function ColumnKind(c: Column): Kind {
    match c
    case Id => NumKind
    case Slug => TextKind
    case Title => TextKind
    case Subtitle => TextKind
    case Content => DocKind
    case MetaTitle => TextKind
    case MetaDescription => TextKind
    case Published => BoolKind
    case CreatedAt => TimeKind
    case UpdatedAt => TimeKind
  }

  /** The order in which `updatePage` tests its fields; `updated_at` comes after all of them. */
  function Rank(c: Column): nat {
    match c
    case Title => 0
    case Subtitle => 1
    case Content => 2
    case MetaTitle => 3
    case MetaDescription => 4
    case Published => 5
    case UpdatedAt => 6
    case Id => 7
    case Slug => 8
    case CreatedAt => 9
  }

  function Get(row: PageRow, c: Column): Value {
    match c
    case Id => Num(row.id)
    case Slug => Text(row.slug)
    case Title => Text(row.title)
    case Subtitle => TextOrNull(row.subtitle)
    case Content => Doc(row.content)
    case MetaTitle => TextOrNull(row.metaTitle)
    case MetaDescription => TextOrNull(row.metaDescription)
    case Published => Bool(row.published)
    case CreatedAt => Time(row.createdAt)
    case UpdatedAt => Time(row.updatedAt)
  }

  /** Writing one column. A value of the wrong type never gets here: binding rejects it first. */
  function Put(row: PageRow, c: Column, v: Value): PageRow {
    match (c, v)
    case (Id, Num(n)) => row.(id := n)
    case (Slug, Text(s)) => row.(slug := s)
    case (Title, Text(s)) => row.(title := s)
    case (Subtitle, Text(s)) => row.(subtitle := Some(s))
    case (Content, Doc(j)) => row.(content := j)
    case (MetaTitle, Text(s)) => row.(metaTitle := Some(s))
    case (MetaDescription, Text(s)) => row.(metaDescription := Some(s))
    case (Published, Bool(b)) => row.(published := b)
    case (CreatedAt, Time(t)) => row.(createdAt := t)
    case (UpdatedAt, Time(t)) => row.(updatedAt := t)
    case _ => row
  }

  /** Reading a column back after writing a value of its type gives that value; other columns keep theirs. */
  lemma PutGet(row: PageRow, c: Column, v: Value, d: Column)
    requires ColumnKind(c) == KindOf(v)
    ensures Get(Put(row, c, v), d) == if d == c then v else Get(row, d)
  {
  }

  const Pages: Schema<PageRow, Column> := Schema(ColumnKind, Rank, Get, Put, Id, UpdatedAt)

  /** `ORDER BY slug`, compared code point by code point (the C collation). */
  function SlugKey(row: PageRow): seq<int> {
    seq(|row.slug|, i requires 0 <= i < |row.slug| => row.slug[i] as int)
  }

  /** The table's keys: ids distinct and below the next serial value, slugs distinct. */
  ghost predicate Valid(t: Table<PageRow>) {
    && (forall i :: 0 <= i < |t.rows| ==> t.rows[i].id < t.serial)
    && (forall i, j :: 0 <= i < j < |t.rows| ==> t.rows[i].id != t.rows[j].id && t.rows[i].slug != t.rows[j].slug)
  }
}
