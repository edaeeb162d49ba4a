/**
 * `updateProduct` (PUT /cms/admin/products/:id): a partial update of one
 * product. Each field of the change set is absent or present; present fields
 * become SET assignments with consecutive placeholders, `updated_at = NOW()`
 * follows, and the id is the last placeholder.
 */
module ProductUpdate {
  import opened Common
  import opened Seqs
  import opened Sql
  import opened ProductModel

  /** The request body: every field absent (None) or present, `false`, `0` and "" included. */
  datatype ProductChanges = ProductChanges(
    name: Option<string>,
    description: Option<string>,
    longDescription: Option<string>,
    price: Option<int>,
    size: Option<string>,
    notes: Option<ScentNotes>,
    images: Option<seq<string>>,
    featured: Option<bool>,
    published: Option<bool>,
    sortOrder: Option<int>)

  predicate NoChanges(ch: ProductChanges) {
    && ch.name.None? && ch.description.None? && ch.longDescription.None? && ch.price.None?
    && ch.size.None? && ch.notes.None? && ch.images.None? && ch.featured.None?
    && ch.published.None? && ch.sortOrder.None?
  }

  /** The handler's field checks, in its order: each present field paired with its column and bound value. */
  function Fields(ch: ProductChanges): seq<Option<(Column, Value)>> {
    [ TextField(Name, ch.name), TextField(Description, ch.description),
      TextField(LongDescription, ch.longDescription), NumField(Price, ch.price),
      TextField(Size, ch.size), DocField(NotesColumn, ch.notes.Map(NotesJson)),
      DocField(Images, ch.images.Map(StringArray)), BoolField(Featured, ch.featured),
      BoolField(Published, ch.published), NumField(SortOrder, ch.sortOrder) ]
  }

  /** `WHERE id = $n` on the typed row. */
  function HasId(id: int): ProductRow -> bool {
    (row: ProductRow) => row.id == id
  }

  /** The SET list and parameters the handler builds. */
  function SetList(ch: ProductChanges): Builder<Column> {
    PushAll(Start(), Fields(ch))
  }

  /** The typed meaning of a change set: present fields replaced, absent ones kept, the timestamp set. */
  function Patch(row: ProductRow, ch: ProductChanges, now: int): ProductRow {
    row.(
      name := ch.name.GetOr(row.name),
      description := if ch.description.Some? then ch.description else row.description,
      longDescription := if ch.longDescription.Some? then ch.longDescription else row.longDescription,
      price := ch.price.GetOr(row.price),
      size := if ch.size.Some? then ch.size else row.size,
      notes := ch.notes.Map(NotesJson).GetOr(row.notes),
      images := ch.images.Map(StringArray).GetOr(row.images),
      featured := ch.featured.GetOr(row.featured),
      published := ch.published.GetOr(row.published),
      sortOrder := ch.sortOrder.GetOr(row.sortOrder),
      updatedAt := now)
  }

  /** Whether the change set names column `c`. */
  predicate Requested(ch: ProductChanges, c: Column) {
    match c
    case Name => ch.name.Some?
    case Description => ch.description.Some?
    case LongDescription => ch.longDescription.Some?
    case Price => ch.price.Some?
    case Size => ch.size.Some?
    case NotesColumn => ch.notes.Some?
    case Images => ch.images.Some?
    case Featured => ch.featured.Some?
    case Published => ch.published.Some?
    case SortOrder => ch.sortOrder.Some?
    case _ => false
  }

  /** The parameter a requested column is bound to: notes and images as JSON, the rest unchanged. */
  function Encoded(ch: ProductChanges, c: Column): Value
    requires Requested(ch, c)
  {
    match c
    case Name => Text(ch.name.value)
    case Description => Text(ch.description.value)
    case LongDescription => Text(ch.longDescription.value)
    case Price => Num(ch.price.value)
    case Size => Text(ch.size.value)
    case NotesColumn => Doc(NotesJson(ch.notes.value))
    case Images => Doc(StringArray(ch.images.value))
    case Featured => Bool(ch.featured.value)
    case Published => Bool(ch.published.value)
    case SortOrder => Num(ch.sortOrder.value)
  }

  /** Every field check yields its own column, in field order, with the value the request gives it. */
  lemma FieldsShape(ch: ProductChanges)
    ensures |Fields(ch)| == 10
    ensures forall i :: 0 <= i < |Fields(ch)| && Fields(ch)[i].Some? ==>
      var (c, v) := Fields(ch)[i].value;
      Rank(c) == i && ColumnKind(c) == KindOf(v) && Requested(ch, c) && v == Encoded(ch, c)
    ensures forall c :: Requested(ch, c) ==> Rank(c) < 10 && Fields(ch)[Rank(c)] == Some((c, Encoded(ch, c)))
  {
  }

  /** What the typed patch does to each column: requested ones take the request's value, the stamp takes `now`. */
  lemma PatchGet(row: ProductRow, ch: ProductChanges, now: int, d: Column)
    ensures Get(Patch(row, ch, now), d) ==
      if d == UpdatedAt then Time(now)
      else if Requested(ch, d) then Encoded(ch, d)
      else Get(row, d)
  {
  }

  /** A row is determined by its columns. */
  lemma GetDetermines(a: ProductRow, b: ProductRow)
    requires forall d :: Get(a, d) == Get(b, d)
    ensures a == b
  {
    assert Get(a, Id) == Get(b, Id) && Get(a, Name) == Get(b, Name) && Get(a, Slug) == Get(b, Slug);
    assert Get(a, Description) == Get(b, Description) && Get(a, LongDescription) == Get(b, LongDescription);
    assert Get(a, Price) == Get(b, Price) && Get(a, Size) == Get(b, Size) && Get(a, NotesColumn) == Get(b, NotesColumn);
    assert Get(a, Images) == Get(b, Images) && Get(a, Featured) == Get(b, Featured) && Get(a, Published) == Get(b, Published);
    assert Get(a, SortOrder) == Get(b, SortOrder) && Get(a, CreatedAt) == Get(b, CreatedAt) && Get(a, UpdatedAt) == Get(b, UpdatedAt);
  }

  lemma ProductsLawful()
    ensures Lawful(Products)
  {
    forall row: ProductRow, c: Column, v: Value, d: Column | ColumnKind(c) == KindOf(v)
      ensures Get(Put(row, c, v), d) == if d == c then v else Get(row, d)
    {
      PutGet(row, c, v, d);
    }
  }

  /** The builder stays well-formed through all ten checks and collects exactly the present fields. */
  lemma SetListBuilt(ch: ProductChanges)
    ensures Built(Products, SetList(ch), 10)
    ensures Pending(SetList(ch)) == Present(Fields(ch))
  {
    FieldsShape(ch);
    PushAllBuilt(Products, Start(), Fields(ch), 0);
  }

  /** The SET list is empty exactly when the change set names no field. */
  lemma SetListEmpty(ch: ProductChanges)
    ensures SetList(ch).sets == [] <==> NoChanges(ch)
  {
    SetListBuilt(ch);
    FieldsShape(ch);
    if NoChanges(ch) {
      assert forall i :: 0 <= i < |Fields(ch)| ==> Fields(ch)[i].None?;
    } else {
      var f := Fields(ch);
      assert f[0].Some? || f[1].Some? || f[2].Some? || f[3].Some? || f[4].Some?
          || f[5].Some? || f[6].Some? || f[7].Some? || f[8].Some? || f[9].Some?;
    }
  }

  /**
   * The SET list holds exactly the present fields, in the order name,
   * description, longDescription, price, size, notes, images, featured,
   * published, sortOrder; the k-th gets placeholder `$k` and `params[k-1]` is
   * its value (notes and images as JSON); placeholders run 1..n without gaps.
   */
  lemma SetListShape(ch: ProductChanges)
    ensures var b := SetList(ch);
      && |b.params| == |b.sets| && b.next == |b.sets| + 1
      && (b.sets == [] <==> NoChanges(ch))
      && (forall i :: 0 <= i < |b.sets| ==> b.sets[i].rhs == Placeholder(i + 1))
      && (forall i :: 0 <= i < |b.sets| ==> Requested(ch, b.sets[i].column) && b.params[i] == Encoded(ch, b.sets[i].column))
      && (forall c :: Requested(ch, c) ==> exists i :: 0 <= i < |b.sets| && b.sets[i].column == c)
      && (forall i, j :: 0 <= i < j < |b.sets| ==> Rank(b.sets[i].column) < Rank(b.sets[j].column))
  {
    SetListBuilt(ch);
    FieldsShape(ch);
    var b := SetList(ch);
    var pending := Pending(b);
    forall i | 0 <= i < |b.sets|
      ensures Requested(ch, b.sets[i].column) && b.params[i] == Encoded(ch, b.sets[i].column)
    {
      PresentMembers(Fields(ch), pending[i]);
    }
    forall c | Requested(ch, c) ensures exists i :: 0 <= i < |b.sets| && b.sets[i].column == c {
      PresentMembers(Fields(ch), (c, Encoded(ch, c)));
      var i :| 0 <= i < |pending| && pending[i] == (c, Encoded(ch, c));
      assert b.sets[i].column == c;
    }
    SetListEmpty(ch);
  }

  /** The assignments of a change set followed by `updated_at = NOW()`. */
  function Assignments(ch: ProductChanges, now: int): seq<(Column, Value)> {
    Present(Fields(ch)) + [(UpdatedAt, Time(now))]
  }

  /** Each column after the assignments holds what the typed patch puts there. */
  lemma AssignedColumn(ch: ProductChanges, row: ProductRow, now: int, d: Column)
    requires Lawful(Products)
    requires WellTyped(Products, Assignments(ch, now)) && DistinctColumns(Assignments(ch, now))
    ensures Get(ApplyAll(Products, row, Assignments(ch, now)), d) == Get(Patch(row, ch, now), d)
  {
    FieldsShape(ch);
    var assigns := Assignments(ch, now);
    var n := |assigns| - 1;
    ApplyAllGet(Products, row, assigns, d);
    PatchGet(row, ch, now, d);
    if d == UpdatedAt {
      assert assigns[n].0 == d;
    } else if Requested(ch, d) {
      PresentMembers(Fields(ch), (d, Encoded(ch, d)));
      var i :| 0 <= i < n && assigns[i] == (d, Encoded(ch, d));
    } else {
      forall i | 0 <= i < |assigns| ensures assigns[i].0 != d {
        if i < n {
          PresentMembers(Fields(ch), assigns[i]);
        }
      }
    }
  }

  /** The assignments of a change set and `updated_at = NOW()`, applied to a row, make the typed patch. */
  lemma SetListMeaning(ch: ProductChanges, row: ProductRow, now: int)
    ensures ApplyAll(Products, row, Assignments(ch, now)) == Patch(row, ch, now)
  {
    SetListBuilt(ch);
    ProductsLawful();
    StampedAssigns(Products, SetList(ch), 10, now);
    forall d ensures Get(ApplyAll(Products, row, Assignments(ch, now)), d) == Get(Patch(row, ch, now), d) {
      AssignedColumn(ch, row, now, d);
    }
    GetDetermines(ApplyAll(Products, row, Assignments(ch, now)), Patch(row, ch, now));
  }

  /** The built UPDATE, executed: rows with the id become their patch, all others stay. */
  lemma ExecuteSetList(t: Table<ProductRow>, id: int, ch: ProductChanges, now: int)
    requires !NoChanges(ch)
    ensures Finish(SetList(ch), UpdatedAt, id).Ok?
    ensures var r := ExecuteUpdate(Products, t, Finish(SetList(ch), UpdatedAt, id).value, now);
      && r.Ok?
      && r.value.0.serial == t.serial
      && |r.value.0.rows| == |t.rows|
      && (forall i :: 0 <= i < |t.rows| ==>
            r.value.0.rows[i] == if t.rows[i].id == id then Patch(t.rows[i], ch, now) else t.rows[i])
      && r.value.1 == match First(t.rows, HasId(id))
                      case None => None
                      case Some(k) => Some(Patch(t.rows[k], ch, now))
  {
    SetListBuilt(ch);
    SetListEmpty(ch);
    var b := SetList(ch);
    assert Pending(b) + [(UpdatedAt, Time(now))] == Assignments(ch, now);
    forall i | 0 <= i < |t.rows|
      ensures ApplyAll(Products, t.rows[i], Assignments(ch, now)) == PatchWith(ch, now)(t.rows[i])
    {
      SetListMeaning(ch, t.rows[i], now);
    }
    ExecuteMeans(Products, t, b, 10, id, now, PatchWith(ch, now), HasId(id));
  }

  function PatchWith(ch: ProductChanges, now: int): ProductRow -> ProductRow {
    (row: ProductRow) => Patch(row, ch, now)
  }



  /**
   * The handler. An empty change set fails with "no fields to update" before
   * any query; otherwise exactly the rows with the id become their patch (only
   * the named columns and `updated_at` change), and the result is the patched
   * product, or "product not found" when no row has the id.
   */
  function UpdateProduct(t: Table<ProductRow>, id: int, ch: ProductChanges, now: int): (r: (Result<Product>, Table<ProductRow>))
    ensures NoChanges(ch) ==> r == (Err(InvalidArgument("no fields to update")), t)
    ensures !NoChanges(ch) ==> r.1.serial == t.serial && |r.1.rows| == |t.rows|
    ensures !NoChanges(ch) ==> forall i :: 0 <= i < |t.rows| ==>
      r.1.rows[i] == if t.rows[i].id == id then Patch(t.rows[i], ch, now) else t.rows[i]
    ensures !NoChanges(ch) ==> r.0 == match First(t.rows, HasId(id))
      case None => Err(NotFound("product not found"))
      case Some(k) => Ok(ToProduct(Patch(t.rows[k], ch, now)))
  {
    SetListEmpty(ch);
    match Finish(SetList(ch), UpdatedAt, id)
    case Err(e) => (Err(e), t)
    case Ok(q) =>
      ExecuteSetList(t, id, ch, now);
      match ExecuteUpdate(Products, t, q, now)
      case Err(e) => (Err(e), t)
      case Ok((t', returned)) =>
        match returned
        case None => (Err(NotFound("product not found")), t')
        case Some(row) => (Ok(ToProduct(row)), t')
  }

  /** Patching twice with the same change set is patching once at the later time. */
  lemma PatchIdempotent(row: ProductRow, ch: ProductChanges, now1: int, now2: int)
    ensures Patch(Patch(row, ch, now1), ch, now2) == Patch(row, ch, now2)
  {
  }

  /**
   * Sending the same update again gives the table and answer that sending it
   * once at the later time gives: the fields keep the values of the first
   * send, and only the timestamp moves on.
   */
  lemma UpdateTwice(t: Table<ProductRow>, id: int, ch: ProductChanges, now1: int, now2: int)
    ensures UpdateProduct(UpdateProduct(t, id, ch, now1).1, id, ch, now2) == UpdateProduct(t, id, ch, now2)
  {
    var t1 := UpdateProduct(t, id, ch, now1).1;
    if !NoChanges(ch) {
      var (r2, t2) := UpdateProduct(t1, id, ch, now2);
      var (r3, t3) := UpdateProduct(t, id, ch, now2);
      var hit := HasId(id);
      forall i | 0 <= i < |t.rows| ensures t2.rows[i] == t3.rows[i] {
        PatchIdempotent(t.rows[i], ch, now1, now2);
      }
      assert t2.rows == t3.rows;
      FirstTransfer(t.rows, t1.rows, hit);
      match First(t.rows, hit)
      case None =>
      case Some(k) =>
        PatchIdempotent(t.rows[k], ch, now1, now2);
        assert r2 == Ok(ToProduct(Patch(t1.rows[k], ch, now2)));
    }
  }

  /** Updates of two different products commute, each at its own time. */
  lemma UpdatesCommute(t: Table<ProductRow>, id1: int, ch1: ProductChanges, id2: int, ch2: ProductChanges, now1: int, now2: int)
    requires id1 != id2
    ensures UpdateProduct(UpdateProduct(t, id1, ch1, now1).1, id2, ch2, now2).1
         == UpdateProduct(UpdateProduct(t, id2, ch2, now2).1, id1, ch1, now1).1
  {
    var a := UpdateProduct(UpdateProduct(t, id1, ch1, now1).1, id2, ch2, now2).1;
    var b := UpdateProduct(UpdateProduct(t, id2, ch2, now2).1, id1, ch1, now1).1;
    assert |a.rows| == |b.rows|;
    forall i | 0 <= i < |a.rows| ensures a.rows[i] == b.rows[i] {
    }
  }

  /** An update keeps ids and slugs, so it keeps the table's keys valid. */
  lemma UpdateKeepsValid(t: Table<ProductRow>, id: int, ch: ProductChanges, now: int)
    requires Valid(t)
    ensures Valid(UpdateProduct(t, id, ch, now).1)
  {
  }

  /**
   * In a valid table an update touches only the product with the id, and the
   * product it answers with is the row now stored.
   */
  lemma UpdateTouchesOne(t: Table<ProductRow>, id: int, ch: ProductChanges, now: int, k: nat)
    requires Valid(t) && !NoChanges(ch)
    requires k < |t.rows| && t.rows[k].id == id
    ensures var (r, t') := UpdateProduct(t, id, ch, now);
      && r == Ok(ToProduct(t'.rows[k]))
      && t'.rows[k] == Patch(t.rows[k], ch, now)
      && forall i :: 0 <= i < |t.rows| && i != k ==> t'.rows[i] == t.rows[i]
  {
    var hit := HasId(id);
    var f := First(t.rows, hit);
    assert hit(t.rows[k]);
  }
}
