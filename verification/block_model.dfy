/**
 * Content blocks: the `content_blocks` row, the API's ContentBlock record, the
 * mapping between them, and the table's schema. A block belongs to the page
 * whose slug it names, or to no page when `page_slug` is NULL.
 */
module BlockModel {
  import opened Common
  import opened Sql

  /** A row of `content_blocks`. None is SQL NULL; `content` is a JSON column. */
  datatype BlockRow = BlockRow(
    id: int,
    blockType: string,
    title: Option<string>,
    content: Json,
    pageSlug: Option<string>,
    sortOrder: int,
    published: bool,
    createdAt: int,
    updatedAt: int)

  /** The API's ContentBlock. None is `undefined`. */
  datatype ContentBlock = ContentBlock(
    id: int,
    blockType: string,
    title: Option<string>,
    content: Json,
    pageSlug: Option<string>,
    sortOrder: int,
    published: bool,
    createdAt: int,
    updatedAt: int)

  /** The row-to-API mapping of every block handler: `x || undefined` on the optional strings. */
  function ToBlock(row: BlockRow): ContentBlock {
    ContentBlock(row.id, row.blockType, OrAbsent(row.title), row.content, OrAbsent(row.pageSlug),
                 row.sortOrder, row.published, row.createdAt, row.updatedAt)
  }

  /** Two rows map to the same block exactly when they differ at most by NULL versus "" in the optional strings. */
  lemma ToBlockCollapse(a: BlockRow, b: BlockRow)
    ensures ToBlock(a) == ToBlock(b) <==>
      && a.(title := None, pageSlug := None) == b.(title := None, pageSlug := None)
      && OrAbsent(a.title) == OrAbsent(b.title)
      && OrAbsent(a.pageSlug) == OrAbsent(b.pageSlug)
  {
  }

  // ---------------------------------------------------------------------------
  // Schema

  datatype Column = Id | BlockType | Title | Content | PageSlug | SortOrder | Published | CreatedAt | UpdatedAt

  function ColumnKind(c: Column): Kind {
    match c
    case Id => NumKind
    case BlockType => TextKind
    case Title => TextKind
    case Content => DocKind
    case PageSlug => TextKind
    case SortOrder => NumKind
    case Published => BoolKind
    case CreatedAt => TimeKind
    case UpdatedAt => TimeKind
  }

  /** The order in which `updateContentBlock` tests its fields; `updated_at` comes after all of them. */
  function Rank(c: Column): nat {
    match c
    case BlockType => 0
    case Title => 1
    case Content => 2
    case PageSlug => 3
    case SortOrder => 4
    case Published => 5
    case UpdatedAt => 6
    case Id => 7
    case CreatedAt => 8
  }

  function Get(row: BlockRow, c: Column): Value {
    match c
    case Id => Num(row.id)
    case BlockType => Text(row.blockType)
    case Title => TextOrNull(row.title)
    case Content => Doc(row.content)
    case PageSlug => TextOrNull(row.pageSlug)
    case SortOrder => Num(row.sortOrder)
    case Published => Bool(row.published)
    case CreatedAt => Time(row.createdAt)
    case UpdatedAt => Time(row.updatedAt)
  }

  /** Writing one column. A value of the wrong type never gets here: binding rejects it first. */
  function Put(row: BlockRow, c: Column, v: Value): BlockRow {
    match (c, v)
    case (Id, Num(n)) => row.(id := n)
    case (BlockType, Text(s)) => row.(blockType := s)
    case (Title, Text(s)) => row.(title := Some(s))
    case (Content, Doc(j)) => row.(content := j)
    case (PageSlug, Text(s)) => row.(pageSlug := Some(s))
    case (SortOrder, Num(n)) => row.(sortOrder := n)
    case (Published, Bool(b)) => row.(published := b)
    case (CreatedAt, Time(t)) => row.(createdAt := t)
    case (UpdatedAt, Time(t)) => row.(updatedAt := t)
    case _ => row
  }

  /** Reading a column back after writing a value of its type gives that value; other columns keep theirs. */
  lemma PutGet(row: BlockRow, c: Column, v: Value, d: Column)
    requires ColumnKind(c) == KindOf(v)
    ensures Get(Put(row, c, v), d) == if d == c then v else Get(row, d)
  {
  }

  const Blocks: Schema<BlockRow, Column> := Schema(ColumnKind, Rank, Get, Put, Id, UpdatedAt)

  /** `ORDER BY sort_order ASC, created_at DESC`. */
  function ListingKey(row: BlockRow): seq<int> {
    [row.sortOrder, -row.createdAt]
  }

  /** The table's keys: ids distinct and below the next serial value. */
  ghost predicate Valid(t: Table<BlockRow>) {
    && (forall i :: 0 <= i < |t.rows| ==> t.rows[i].id < t.serial)
    && (forall i, j :: 0 <= i < j < |t.rows| ==> t.rows[i].id != t.rows[j].id)
  }
}
