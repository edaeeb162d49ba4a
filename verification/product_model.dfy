/**
 * Products: the `products` row, the API's Product record, the mapping between
 * them, and the table's schema (columns, types, field order).
 */
module ProductModel {
  import opened Common
  import opened Sql

  /** A product's scent notes (the `notes` field of types.ts). */
  datatype ScentNotes = ScentNotes(top: seq<string>, heart: seq<string>, base: seq<string>)

  /** `JSON.stringify(notes)`, kept structured. */
  function NotesJson(n: ScentNotes): Json {
    JObject([("top", StringArray(n.top)), ("heart", StringArray(n.heart)), ("base", StringArray(n.base))])
  }

  /** Reads scent notes back from a JSON column. */
  function AsNotes(j: Json): Option<ScentNotes> {
    if !j.JObject? then None
    else
      match (Member(j.members, "top"), Member(j.members, "heart"), Member(j.members, "base"))
      case (Some(t), Some(h), Some(b)) =>
        (match (AsStrings(t), AsStrings(h), AsStrings(b))
         case (Some(top), Some(heart), Some(base)) => Some(ScentNotes(top, heart, base))
         case _ => None)
      case _ => None
  }

  /** Notes stored as JSON read back as the same notes. */
  lemma NotesRoundTrip(n: ScentNotes)
    ensures AsNotes(NotesJson(n)) == Some(n)
  {
    StringArrayRoundTrip(n.top);
    StringArrayRoundTrip(n.heart);
    StringArrayRoundTrip(n.base);
    var ms := NotesJson(n).members;
    assert Member(ms, "top") == Some(StringArray(n.top));
    assert ms[1..] == [("heart", StringArray(n.heart)), ("base", StringArray(n.base))];
    assert Member(ms, "heart") == Some(StringArray(n.heart));
    assert ms[1..][1..] == [("base", StringArray(n.base))];
    assert Member(ms[1..][1..], "base") == Some(StringArray(n.base));
    assert Member(ms[1..], "base") == Some(StringArray(n.base));
  }

  /** A row of `products`. None is SQL NULL; `notes` and `images` are JSON columns; times are clock readings. */
  datatype ProductRow = ProductRow(
    id: int,
    name: string,
    slug: string,
    description: Option<string>,
    longDescription: Option<string>,
    price: int,
    size: Option<string>,
    notes: Json,
    images: Json,
    featured: bool,
    published: bool,
    sortOrder: int,
    createdAt: int,
    updatedAt: int)

  /** The API's Product. None is `undefined`; notes and images are the JSON the column holds. */
  datatype Product = Product(
    id: int,
    name: string,
    slug: string,
    description: Option<string>,
    longDescription: Option<string>,
    price: int,
    size: Option<string>,
    notes: Json,
    images: Json,
    featured: bool,
    published: bool,
    sortOrder: int,
    createdAt: int,
    updatedAt: int)

  /** The row-to-API mapping every product handler returns through: `x || undefined` on the optional strings. */
  function ToProduct(row: ProductRow): Product {
    Product(row.id, row.name, row.slug, OrAbsent(row.description), OrAbsent(row.longDescription),
            row.price, OrAbsent(row.size), row.notes, row.images, row.featured, row.published,
            row.sortOrder, row.createdAt, row.updatedAt)
  }

  /** Two optional column values that `|| undefined` cannot tell apart: equal, or one NULL and one "". */
  predicate SameText(a: Option<string>, b: Option<string>) {
    a == b || (a.None? && b == Some("")) || (a == Some("") && b.None?)
  }

  /** An API product never carries an empty optional string. */
  lemma ToProductNoEmpty(row: ProductRow)
    ensures var p := ToProduct(row);
      p.description != Some("") && p.longDescription != Some("") && p.size != Some("")
  {
  }

  /** Two rows map to the same Product exactly when they differ at most by NULL versus "" in the optional strings. */
  lemma ToProductCollapse(a: ProductRow, b: ProductRow)
    ensures ToProduct(a) == ToProduct(b) <==>
      && a.(description := None, longDescription := None, size := None) == b.(description := None, longDescription := None, size := None)
      && SameText(a.description, b.description)
      && SameText(a.longDescription, b.longDescription)
      && SameText(a.size, b.size)
  {
  }

  // ---------------------------------------------------------------------------
  // Schema

  datatype Column =
    | Id | Name | Slug | Description | LongDescription | Price | Size
    | NotesColumn | Images | Featured | Published | SortOrder | CreatedAt | UpdatedAt

  function ColumnKind(c: Column): Kind {
    match c
    case Id => NumKind
    case Name => TextKind
    case Slug => TextKind
    case Description => TextKind
    case LongDescription => TextKind
    case Price => NumKind
    case Size => TextKind
    case NotesColumn => DocKind
    case Images => DocKind
    case Featured => BoolKind
    case Published => BoolKind
    case SortOrder => NumKind
    case CreatedAt => TimeKind
    case UpdatedAt => TimeKind
  }

  /** The order in which `updateProduct` tests its fields; `updated_at` comes after all of them. */
  function Rank(c: Column): nat {
    match c
    case Name => 0
    case Description => 1
    case LongDescription => 2
    case Price => 3
    case Size => 4
    case NotesColumn => 5
    case Images => 6
    case Featured => 7
    case Published => 8
    case SortOrder => 9
    case UpdatedAt => 10
    case Id => 11
    case Slug => 12
    case CreatedAt => 13
  }

  function Get(row: ProductRow, c: Column): Value {
    match c
    case Id => Num(row.id)
    case Name => Text(row.name)
    case Slug => Text(row.slug)
    case Description => TextOrNull(row.description)
    case LongDescription => TextOrNull(row.longDescription)
    case Price => Num(row.price)
    case Size => TextOrNull(row.size)
    case NotesColumn => Doc(row.notes)
    case Images => Doc(row.images)
    case Featured => Bool(row.featured)
    case Published => Bool(row.published)
    case SortOrder => Num(row.sortOrder)
    case CreatedAt => Time(row.createdAt)
    case UpdatedAt => Time(row.updatedAt)
  }

  /** Writing one column. A value of the wrong type never gets here: binding rejects it first. */
  function Put(row: ProductRow, c: Column, v: Value): ProductRow {
    match (c, v)
    case (Id, Num(n)) => row.(id := n)
    case (Name, Text(s)) => row.(name := s)
    case (Slug, Text(s)) => row.(slug := s)
    case (Description, Text(s)) => row.(description := Some(s))
    case (LongDescription, Text(s)) => row.(longDescription := Some(s))
    case (Price, Num(n)) => row.(price := n)
    case (Size, Text(s)) => row.(size := Some(s))
    case (NotesColumn, Doc(j)) => row.(notes := j)
    case (Images, Doc(j)) => row.(images := j)
    case (Featured, Bool(b)) => row.(featured := b)
    case (Published, Bool(b)) => row.(published := b)
    case (SortOrder, Num(n)) => row.(sortOrder := n)
    case (CreatedAt, Time(t)) => row.(createdAt := t)
    case (UpdatedAt, Time(t)) => row.(updatedAt := t)
    case _ => row
  }

  /** Reading a column back after writing a value of its type gives that value; other columns keep theirs. */
  lemma PutGet(row: ProductRow, c: Column, v: Value, d: Column)
    requires ColumnKind(c) == KindOf(v)
    ensures Get(Put(row, c, v), d) == if d == c then v else Get(row, d)
  {
  }

  const Products: Schema<ProductRow, Column> := Schema(ColumnKind, Rank, Get, Put, Id, UpdatedAt)

  /** `ORDER BY sort_order ASC, created_at DESC`. */
  function ListingKey(row: ProductRow): seq<int> {
    [row.sortOrder, -row.createdAt]
  }

  /**
   * The table's keys: ids are distinct and below the next serial value, and
   * slugs are distinct (the create handler refuses a slug in use).
   */
  ghost predicate Valid(t: Table<ProductRow>) {
    && (forall i :: 0 <= i < |t.rows| ==> t.rows[i].id < t.serial)
    && (forall i, j :: 0 <= i < j < |t.rows| ==> t.rows[i].id != t.rows[j].id && t.rows[i].slug != t.rows[j].slug)
  }
}
