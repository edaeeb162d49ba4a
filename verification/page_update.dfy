/**
 * `updatePage` (PUT /cms/admin/pages/:id): a partial update of one page, built
 * the same way as the product update. The slug cannot be changed.
 */
module PageUpdate {
  import opened Common
  import opened Seqs
  import opened Sql
  import opened PageModel

  /** The request body: every field absent (None) or present, `false` and "" included. */
  datatype PageChanges = PageChanges(
    title: Option<string>,
    subtitle: Option<string>,
    content: Option<Json>,
    metaTitle: Option<string>,
    metaDescription: Option<string>,
    published: Option<bool>)

  predicate NoChanges(ch: PageChanges) {
    && ch.title.None? && ch.subtitle.None? && ch.content.None?
    && ch.metaTitle.None? && ch.metaDescription.None? && ch.published.None?
  }

  /** The handler's field checks, in its order: each present field paired with its column and bound value. */
  function Fields(ch: PageChanges): seq<Option<(Column, Value)>> {
    [ TextField(Title, ch.title), TextField(Subtitle, ch.subtitle), DocField(Content, ch.content),
      TextField(MetaTitle, ch.metaTitle), TextField(MetaDescription, ch.metaDescription),
      BoolField(Published, ch.published) ]
  }

  /** `WHERE id = $n` on the typed row. */
  function HasId(id: int): PageRow -> bool {
    (row: PageRow) => row.id == id
  }

  /** The SET list and parameters the handler builds. */
  function SetList(ch: PageChanges): Builder<Column> {
    PushAll(Start(), Fields(ch))
  }

  /** The typed meaning of a change set: present fields replaced, absent ones kept, the timestamp set. */
  function Patch(row: PageRow, ch: PageChanges, now: int): PageRow {
    row.(
      title := ch.title.GetOr(row.title),
      subtitle := if ch.subtitle.Some? then ch.subtitle else row.subtitle,
      content := ch.content.GetOr(row.content),
      metaTitle := if ch.metaTitle.Some? then ch.metaTitle else row.metaTitle,
      metaDescription := if ch.metaDescription.Some? then ch.metaDescription else row.metaDescription,
      published := ch.published.GetOr(row.published),
      updatedAt := now)
  }

  /** Whether the change set names column `c`. */
  predicate Requested(ch: PageChanges, c: Column) {
    match c
    case Title => ch.title.Some?
    case Subtitle => ch.subtitle.Some?
    case Content => ch.content.Some?
    case MetaTitle => ch.metaTitle.Some?
    case MetaDescription => ch.metaDescription.Some?
    case Published => ch.published.Some?
    case _ => false
  }

  /** The parameter a requested column is bound to: content as JSON, the rest unchanged. */
  function Encoded(ch: PageChanges, c: Column): Value
    requires Requested(ch, c)
  {
    match c
    case Title => Text(ch.title.value)
    case Subtitle => Text(ch.subtitle.value)
    case Content => Doc(ch.content.value)
    case MetaTitle => Text(ch.metaTitle.value)
    case MetaDescription => Text(ch.metaDescription.value)
    case Published => Bool(ch.published.value)
  }

  /** Every field check yields its own column, in field order, with the value the request gives it. */
  lemma FieldsShape(ch: PageChanges)
    ensures |Fields(ch)| == 6
    ensures forall i :: 0 <= i < |Fields(ch)| && Fields(ch)[i].Some? ==>
      var (c, v) := Fields(ch)[i].value;
      Rank(c) == i && ColumnKind(c) == KindOf(v) && Requested(ch, c) && v == Encoded(ch, c)
    ensures forall c :: Requested(ch, c) ==> Rank(c) < 6 && Fields(ch)[Rank(c)] == Some((c, Encoded(ch, c)))
  {
  }

  /** What the typed patch does to each column: requested ones take the request's value, the stamp takes `now`. */
  lemma PatchGet(row: PageRow, ch: PageChanges, now: int, d: Column)
    ensures Get(Patch(row, ch, now), d) ==
      if d == UpdatedAt then Time(now)
      else if Requested(ch, d) then Encoded(ch, d)
      else Get(row, d)
  {
  }

  /** A row is determined by its columns. */
  lemma GetDetermines(a: PageRow, b: PageRow)
    requires forall d :: Get(a, d) == Get(b, d)
    ensures a == b
  {
    assert Get(a, Id) == Get(b, Id) && Get(a, Slug) == Get(b, Slug) && Get(a, Title) == Get(b, Title);
    assert Get(a, Subtitle) == Get(b, Subtitle) && Get(a, Content) == Get(b, Content) && Get(a, MetaTitle) == Get(b, MetaTitle);
    assert Get(a, MetaDescription) == Get(b, MetaDescription) && Get(a, Published) == Get(b, Published);
    assert Get(a, CreatedAt) == Get(b, CreatedAt) && Get(a, UpdatedAt) == Get(b, UpdatedAt);
  }

  lemma PagesLawful()
    ensures Lawful(Pages)
  {
    forall row: PageRow, c: Column, v: Value, d: Column | ColumnKind(c) == KindOf(v)
      ensures Get(Put(row, c, v), d) == if d == c then v else Get(row, d)
    {
      PutGet(row, c, v, d);
    }
  }

  /** The builder stays well-formed through all six checks and collects exactly the present fields. */
  lemma SetListBuilt(ch: PageChanges)
    ensures Built(Pages, SetList(ch), 6)
    ensures Pending(SetList(ch)) == Present(Fields(ch))
  {
    FieldsShape(ch);
    PushAllBuilt(Pages, Start(), Fields(ch), 0);
  }

  /** The SET list is empty exactly when the change set names no field. */
  lemma SetListEmpty(ch: PageChanges)
    ensures SetList(ch).sets == [] <==> NoChanges(ch)
  {
    SetListBuilt(ch);
    FieldsShape(ch);
    if NoChanges(ch) {
      assert forall i :: 0 <= i < |Fields(ch)| ==> Fields(ch)[i].None?;
    } else {
      var f := Fields(ch);
      assert f[0].Some? || f[1].Some? || f[2].Some? || f[3].Some? || f[4].Some? || f[5].Some?;
    }
  }

  /**
   * The SET list holds exactly the present fields, in the order title,
   * subtitle, content, metaTitle, metaDescription, published; the k-th gets
   * placeholder `$k` and `params[k-1]` is its value (content as JSON);
   * placeholders run 1..n without gaps.
   */
  lemma SetListShape(ch: PageChanges)
    ensures var b := SetList(ch);
      && |b.params| == |b.sets| && b.next == |b.sets| + 1
      && (b.sets == [] <==> NoChanges(ch))
      && (forall i :: 0 <= i < |b.sets| ==> b.sets[i].rhs == Placeholder(i + 1))
      && (forall i :: 0 <= i < |b.sets| ==> Requested(ch, b.sets[i].column) && b.params[i] == Encoded(ch, b.sets[i].column))
      && (forall c :: Requested(ch, c) ==> exists i :: 0 <= i < |b.sets| && b.sets[i].column == c)
      && (forall i, j :: 0 <= i < j < |b.sets| ==> Rank(b.sets[i].column) < Rank(b.sets[j].column))
  {
    SetListBuilt(ch);
    FieldsShape(ch);
    var b := SetList(ch);
    var pending := Pending(b);
    forall i | 0 <= i < |b.sets|
      ensures Requested(ch, b.sets[i].column) && b.params[i] == Encoded(ch, b.sets[i].column)
    {
      PresentMembers(Fields(ch), pending[i]);
    }
    forall c | Requested(ch, c) ensures exists i :: 0 <= i < |b.sets| && b.sets[i].column == c {
      PresentMembers(Fields(ch), (c, Encoded(ch, c)));
      var i :| 0 <= i < |pending| && pending[i] == (c, Encoded(ch, c));
      assert b.sets[i].column == c;
    }
    SetListEmpty(ch);
  }

  /** The assignments of a change set followed by `updated_at = NOW()`. */
  function Assignments(ch: PageChanges, now: int): seq<(Column, Value)> {
    Present(Fields(ch)) + [(UpdatedAt, Time(now))]
  }

  /** Each column after the assignments holds what the typed patch puts there. */
  lemma AssignedColumn(ch: PageChanges, row: PageRow, now: int, d: Column)
    requires Lawful(Pages)
    requires WellTyped(Pages, Assignments(ch, now)) && DistinctColumns(Assignments(ch, now))
    ensures Get(ApplyAll(Pages, row, Assignments(ch, now)), d) == Get(Patch(row, ch, now), d)
  {
    FieldsShape(ch);
    var assigns := Assignments(ch, now);
    var n := |assigns| - 1;
    ApplyAllGet(Pages, row, assigns, d);
    PatchGet(row, ch, now, d);
    if d == UpdatedAt {
      assert assigns[n].0 == d;
    } else if Requested(ch, d) {
      PresentMembers(Fields(ch), (d, Encoded(ch, d)));
      var i :| 0 <= i < n && assigns[i] == (d, Encoded(ch, d));
    } else {
      forall i | 0 <= i < |assigns| ensures assigns[i].0 != d {
        if i < n {
          PresentMembers(Fields(ch), assigns[i]);
        }
      }
    }
  }

  /** The assignments of a change set and `updated_at = NOW()`, applied to a row, make the typed patch. */
  lemma SetListMeaning(ch: PageChanges, row: PageRow, now: int)
    ensures ApplyAll(Pages, row, Assignments(ch, now)) == Patch(row, ch, now)
  {
    SetListBuilt(ch);
    PagesLawful();
    StampedAssigns(Pages, SetList(ch), 6, now);
    forall d ensures Get(ApplyAll(Pages, row, Assignments(ch, now)), d) == Get(Patch(row, ch, now), d) {
      AssignedColumn(ch, row, now, d);
    }
    GetDetermines(ApplyAll(Pages, row, Assignments(ch, now)), Patch(row, ch, now));
  }

  /** The built UPDATE, executed: rows with the id become their patch, all others stay. */
  lemma ExecuteSetList(t: Table<PageRow>, id: int, ch: PageChanges, now: int)
    requires !NoChanges(ch)
    ensures Finish(SetList(ch), UpdatedAt, id).Ok?
    ensures var r := ExecuteUpdate(Pages, t, Finish(SetList(ch), UpdatedAt, id).value, now);
      && r.Ok?
      && r.value.0.serial == t.serial
      && |r.value.0.rows| == |t.rows|
      && (forall i :: 0 <= i < |t.rows| ==>
            r.value.0.rows[i] == if t.rows[i].id == id then Patch(t.rows[i], ch, now) else t.rows[i])
      && r.value.1 == match First(t.rows, HasId(id))
                      case None => None
                      case Some(k) => Some(Patch(t.rows[k], ch, now))
  {
    SetListBuilt(ch);
    SetListEmpty(ch);
    var b := SetList(ch);
    assert Pending(b) + [(UpdatedAt, Time(now))] == Assignments(ch, now);
    forall i | 0 <= i < |t.rows|
      ensures ApplyAll(Pages, t.rows[i], Assignments(ch, now)) == PatchWith(ch, now)(t.rows[i])
    {
      SetListMeaning(ch, t.rows[i], now);
    }
    ExecuteMeans(Pages, t, b, 6, id, now, PatchWith(ch, now), HasId(id));
  }

  function PatchWith(ch: PageChanges, now: int): PageRow -> PageRow {
    (row: PageRow) => Patch(row, ch, now)
  }



  /**
   * The handler. An empty change set fails with "no fields to update" before
   * any query; otherwise exactly the rows with the id become their patch (only
   * the named columns and `updated_at` change), and the result is the patched
   * page, or "page not found" when no row has the id.
   */
  function UpdatePage(t: Table<PageRow>, id: int, ch: PageChanges, now: int): (r: (Result<Page>, Table<PageRow>))
    ensures NoChanges(ch) ==> r == (Err(InvalidArgument("no fields to update")), t)
    ensures !NoChanges(ch) ==> r.1.serial == t.serial && |r.1.rows| == |t.rows|
    ensures !NoChanges(ch) ==> forall i :: 0 <= i < |t.rows| ==>
      r.1.rows[i] == if t.rows[i].id == id then Patch(t.rows[i], ch, now) else t.rows[i]
    ensures !NoChanges(ch) ==> r.0 == match First(t.rows, HasId(id))
      case None => Err(NotFound("page not found"))
      case Some(k) => Ok(ToPage(Patch(t.rows[k], ch, now)))
  {
    SetListEmpty(ch);
    match Finish(SetList(ch), UpdatedAt, id)
    case Err(e) => (Err(e), t)
    case Ok(q) =>
      ExecuteSetList(t, id, ch, now);
      match ExecuteUpdate(Pages, t, q, now)
      case Err(e) => (Err(e), t)
      case Ok((t', returned)) =>
        match returned
        case None => (Err(NotFound("page not found")), t')
        case Some(row) => (Ok(ToPage(row)), t')
  }

  /** Patching twice with the same change set is patching once at the later time. */
  lemma PatchIdempotent(row: PageRow, ch: PageChanges, now1: int, now2: int)
    ensures Patch(Patch(row, ch, now1), ch, now2) == Patch(row, ch, now2)
  {
  }

  /**
   * Sending the same update again gives the table and answer that sending it
   * once at the later time gives: the fields keep the values of the first
   * send, and only the timestamp moves on.
   */
  lemma UpdateTwice(t: Table<PageRow>, id: int, ch: PageChanges, now1: int, now2: int)
    ensures UpdatePage(UpdatePage(t, id, ch, now1).1, id, ch, now2) == UpdatePage(t, id, ch, now2)
  {
    var t1 := UpdatePage(t, id, ch, now1).1;
    if !NoChanges(ch) {
      var (r2, t2) := UpdatePage(t1, id, ch, now2);
      var (r3, t3) := UpdatePage(t, id, ch, now2);
      var hit := HasId(id);
      forall i | 0 <= i < |t.rows| ensures t2.rows[i] == t3.rows[i] {
        PatchIdempotent(t.rows[i], ch, now1, now2);
      }
      assert t2.rows == t3.rows;
      FirstTransfer(t.rows, t1.rows, hit);
      match First(t.rows, hit)
      case None =>
      case Some(k) =>
        PatchIdempotent(t.rows[k], ch, now1, now2);
        assert r2 == Ok(ToPage(Patch(t1.rows[k], ch, now2)));
    }
  }

  /** Updates of two different pages commute, each at its own time. */
  lemma UpdatesCommute(t: Table<PageRow>, id1: int, ch1: PageChanges, id2: int, ch2: PageChanges, now1: int, now2: int)
    requires id1 != id2
    ensures UpdatePage(UpdatePage(t, id1, ch1, now1).1, id2, ch2, now2).1
         == UpdatePage(UpdatePage(t, id2, ch2, now2).1, id1, ch1, now1).1
  {
    var a := UpdatePage(UpdatePage(t, id1, ch1, now1).1, id2, ch2, now2).1;
    var b := UpdatePage(UpdatePage(t, id2, ch2, now2).1, id1, ch1, now1).1;
    assert |a.rows| == |b.rows|;
    forall i | 0 <= i < |a.rows| ensures a.rows[i] == b.rows[i] {
    }
  }

  /** An update keeps ids and slugs, so it keeps the table's keys valid. */
  lemma UpdateKeepsValid(t: Table<PageRow>, id: int, ch: PageChanges, now: int)
    requires Valid(t)
    ensures Valid(UpdatePage(t, id, ch, now).1)
  {
  }

  /**
   * In a valid table an update touches only the page with the id, and the
   * page it answers with is the row now stored.
   */
  lemma UpdateTouchesOne(t: Table<PageRow>, id: int, ch: PageChanges, now: int, k: nat)
    requires Valid(t) && !NoChanges(ch)
    requires k < |t.rows| && t.rows[k].id == id
    ensures var (r, t') := UpdatePage(t, id, ch, now);
      && r == Ok(ToPage(t'.rows[k]))
      && t'.rows[k] == Patch(t.rows[k], ch, now)
      && forall i :: 0 <= i < |t.rows| && i != k ==> t'.rows[i] == t.rows[i]
  {
    var hit := HasId(id);
    var f := First(t.rows, hit);
    assert hit(t.rows[k]);
  }
}
