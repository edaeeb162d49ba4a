/**
 * The part of PostgreSQL the handlers rely on, over an abstract table:
 *  - `UPDATE t SET c1 = $1, ..., updated_at = NOW() WHERE id = $k RETURNING ...`,
 *    built field by field the way the update handlers build it;
 *  - `SELECT ... WHERE ... ORDER BY ... LIMIT $k`;
 *  - `INSERT` with a serial id.
 * A table is its rows in storage order plus the next value of its id sequence.
 */
module Sql {
  import opened Common
  import opened Seqs
  import opened Ordering

  /** A value bound to a placeholder or read from a column. `Doc(j)` stands for the JSON text of `j`. */
  datatype Value = Null | Text(s: string) | Num(n: int) | Bool(b: bool) | Doc(json: Json) | Time(t: int)

  datatype Kind = NullKind | TextKind | NumKind | BoolKind | DocKind | TimeKind

  function KindOf(v: Value): Kind {
    match v
    case Null => NullKind
    case Text(_) => TextKind
    case Num(_) => NumKind
    case Bool(_) => BoolKind
    case Doc(_) => DocKind
    case Time(_) => TimeKind
  }

  /** A nullable text column's value. */
  function TextOrNull(s: Option<string>): Value {
    match s
    case None => Null
    case Some(x) => Text(x)
  }

  /**
   * The declared, closed description of one table: the type of each column,
   * its position in the handler's field order, how a row reads and writes it,
   * and which columns hold the key and the last-modified time.
   */
  datatype Schema<!R, !C> = Schema(
    kind: C -> Kind,
    rank: C -> nat,
    get: (R, C) -> Value,
    put: (R, C, Value) -> R,
    key: C,
    stamp: C)

  /** A table: rows in storage order and the next id its serial sequence hands out. */
  datatype Table<R> = Table(rows: seq<R>, serial: int)

  // ---------------------------------------------------------------------------
  // UPDATE

  /** The right-hand side of one SET assignment: a placeholder `$k` or `NOW()`. */
  datatype Rhs = Placeholder(index: nat) | CurrentTime

  datatype Clause<C> = Clause(column: C, rhs: Rhs)

  /** `UPDATE ... SET <sets> WHERE id = $<keyPlaceholder>` with its bound parameters. */
  datatype UpdateQuery<C> = UpdateQuery(sets: seq<Clause<C>>, keyPlaceholder: nat, params: seq<Value>)

  /** What an update handler threads through its field checks: `setParts`, `params` and `paramIndex`. */
  datatype Builder<C> = Builder(sets: seq<Clause<C>>, params: seq<Value>, next: nat)

  function Start<C>(): Builder<C> {
    Builder([], [], 1)
  }

  /** One `if (updates.f !== undefined)` block: a present field gets the next placeholder. */
  function Push<C>(b: Builder<C>, field: Option<(C, Value)>): Builder<C> {
    match field
    case None => b
    case Some((c, v)) => Builder(b.sets + [Clause(c, Placeholder(b.next))], b.params + [v], b.next + 1)
  }

  /** All of a handler's field checks, in order. */
  function PushAll<C>(b: Builder<C>, fields: seq<Option<(C, Value)>>): Builder<C>
    decreases |fields|
  {
    if fields == [] then b else PushAll(Push(b, fields[0]), fields[1..])
  }

  /** The present entries of a sequence of optional entries, in order. */
  function Present<T>(fields: seq<Option<T>>): (r: seq<T>)
    ensures |r| <= |fields|
    ensures r == [] <==> forall i :: 0 <= i < |fields| ==> fields[i].None?
  {
    if fields == [] then []
    else
      assert forall i :: 1 <= i < |fields| ==> fields[i] == fields[1..][i - 1];
      Optional(fields[0]) + Present(fields[1..])
  }

  /** An entry is present exactly when some position holds it. */
  lemma {:induction false} PresentMembers<T>(fields: seq<Option<T>>, x: T)
    ensures x in Present(fields) <==> exists i :: 0 <= i < |fields| && fields[i] == Some(x)
  {
    if fields != [] {
      PresentMembers(fields[1..], x);
      if x in Present(fields[1..]) {
        var i :| 0 <= i < |fields[1..]| && fields[1..][i] == Some(x);
        assert fields[i + 1] == Some(x);
      }
      if exists i :: 0 <= i < |fields| && fields[i] == Some(x) {
        var i :| 0 <= i < |fields| && fields[i] == Some(x);
        if i > 0 {
          assert fields[1..][i - 1] == Some(x);
        }
      }
    }
  }

  /** A text field of a change set, paired with its column: bound unchanged. */
  function TextField<C>(column: C, change: Option<string>): Option<(C, Value)> {
    match change
    case None => None
    case Some(s) => Some((column, Text(s)))
  }

  function NumField<C>(column: C, change: Option<int>): Option<(C, Value)> {
    match change
    case None => None
    case Some(n) => Some((column, Num(n)))
  }

  function BoolField<C>(column: C, change: Option<bool>): Option<(C, Value)> {
    match change
    case None => None
    case Some(b) => Some((column, Bool(b)))
  }

  /** A structured field: bound as its JSON text. */
  function DocField<C>(column: C, change: Option<Json>): Option<(C, Value)> {
    match change
    case None => None
    case Some(j) => Some((column, Doc(j)))
  }

  /**
   * The handler's tail: reject an empty SET list before any query, then append
   * `stamp = NOW()` and bind the key to the next placeholder.
   */
  function Finish<C>(b: Builder<C>, stamp: C, id: int): (r: Result<UpdateQuery<C>>)
    ensures r.Err? <==> b.sets == []
    ensures r.Err? ==> r.error == InvalidArgument("no fields to update")
  {
    if |b.sets| == 0 then Err(InvalidArgument("no fields to update"))
    else Ok(UpdateQuery(b.sets + [Clause(stamp, CurrentTime)], b.next, b.params + [Num(id)]))
  }

  /**
   * The builder's invariant: placeholders run 1..n in order, one parameter per
   * placeholder and of its column's type, and columns appear in strictly
   * increasing field order, all before `bound`.
   */
  ghost predicate Built<R, C>(s: Schema<R, C>, b: Builder<C>, bound: nat) {
    && |b.params| == |b.sets|
    && b.next == |b.sets| + 1
    && (forall i :: 0 <= i < |b.sets| ==> b.sets[i].rhs == Placeholder(i + 1))
    && (forall i :: 0 <= i < |b.sets| ==> s.kind(b.sets[i].column) == KindOf(b.params[i]))
    && (forall i :: 0 <= i < |b.sets| ==> s.rank(b.sets[i].column) < bound)
    && (forall i, j :: 0 <= i < j < |b.sets| ==> s.rank(b.sets[i].column) < s.rank(b.sets[j].column))
  }

  /** The column assignments a builder has collected, in order. */
  function Pending<C>(b: Builder<C>): (r: seq<(C, Value)>)
    requires |b.params| == |b.sets|
    ensures |r| == |b.sets|
  {
    seq(|b.sets|, i requires 0 <= i < |b.sets| => (b.sets[i].column, b.params[i]))
  }

  function Optional<T>(o: Option<T>): seq<T> {
    match o
    case None => []
    case Some(x) => [x]
  }

  lemma PushStep<R, C>(s: Schema<R, C>, b: Builder<C>, field: Option<(C, Value)>, bound: nat)
    requires Built(s, b, bound)
    requires field.Some? ==> s.rank(field.value.0) == bound && s.kind(field.value.0) == KindOf(field.value.1)
    ensures Built(s, Push(b, field), bound + 1)
    ensures Pending(Push(b, field)) == Pending(b) + Optional(field)
  {
  }

  /**
   * Field checks whose present columns come in field order, starting at
   * `bound`, keep the builder well-formed, and collect exactly the present
   * assignments.
   */
  lemma {:induction false} PushAllBuilt<R, C>(s: Schema<R, C>, b: Builder<C>, fields: seq<Option<(C, Value)>>, bound: nat)
    requires Built(s, b, bound)
    requires forall i :: 0 <= i < |fields| && fields[i].Some? ==>
      s.rank(fields[i].value.0) == bound + i && s.kind(fields[i].value.0) == KindOf(fields[i].value.1)
    ensures Built(s, PushAll(b, fields), bound + |fields|)
    ensures Pending(PushAll(b, fields)) == Pending(b) + Present(fields)
    decreases |fields|
  {
    if fields != [] {
      PushStep(s, b, fields[0], bound);
      var rest := fields[1..];
      assert forall i :: 0 <= i < |rest| ==> rest[i] == fields[i + 1];
      PushAllBuilt(s, Push(b, fields[0]), rest, bound + 1);
      assert Pending(b) + Optional(fields[0]) + Present(rest) == Pending(b) + (Optional(fields[0]) + Present(rest));
    }
  }

  /** The collected assignments followed by `stamp = NOW()` are well-typed and assign distinct columns. */
  lemma StampedAssigns<R, C>(s: Schema<R, C>, b: Builder<C>, bound: nat, now: int)
    requires Built(s, b, bound)
    requires s.kind(s.stamp) == TimeKind && bound <= s.rank(s.stamp)
    ensures WellTyped(s, Pending(b) + [(s.stamp, Time(now))])
    ensures DistinctColumns(Pending(b) + [(s.stamp, Time(now))])
  {
    var expected := Pending(b) + [(s.stamp, Time(now))];
    var n := |b.sets|;
    forall i | 0 <= i < |expected| ensures s.kind(expected[i].0) == KindOf(expected[i].1) {
      if i < n {
        assert expected[i] == (b.sets[i].column, b.params[i]);
      }
    }
    forall i, j | 0 <= i < j < |expected| ensures expected[i].0 != expected[j].0 {
      assert expected[i] == (b.sets[i].column, b.params[i]);
      if j < n {
        assert expected[j] == (b.sets[j].column, b.params[j]);
      }
      assert s.rank(expected[i].0) < s.rank(expected[j].0);
    }
  }

  /** PostgreSQL's requirements on placeholders: each names a supplied parameter, and each parameter is named. */
  predicate UpdateBound<C>(q: UpdateQuery<C>) {
    && (forall i :: 0 <= i < |q.sets| && q.sets[i].rhs.Placeholder? ==> 1 <= q.sets[i].rhs.index <= |q.params|)
    && 1 <= q.keyPlaceholder <= |q.params|
    && (forall k :: 1 <= k <= |q.params| ==>
          k == q.keyPlaceholder || exists i :: 0 <= i < |q.sets| && q.sets[i].rhs == Placeholder(k))
  }

  /** The value one SET assignment stores. */
  function BindClause<C>(cl: Clause<C>, params: seq<Value>, now: int): Value
    requires cl.rhs.Placeholder? ==> 1 <= cl.rhs.index <= |params|
  {
    match cl.rhs
    case Placeholder(k) => params[k - 1]
    case CurrentTime => Time(now)
  }

  /** Each SET assignment with the value it stores, in order. */
  function Bindings<C>(q: UpdateQuery<C>, now: int): (r: seq<(C, Value)>)
    requires UpdateBound(q)
    ensures |r| == |q.sets|
  {
    seq(|q.sets|, i requires 0 <= i < |q.sets| => (q.sets[i].column, BindClause(q.sets[i], q.params, now)))
  }

  predicate WellTyped<R, C>(s: Schema<R, C>, assigns: seq<(C, Value)>) {
    forall i :: 0 <= i < |assigns| ==> s.kind(assigns[i].0) == KindOf(assigns[i].1)
  }

  predicate DistinctColumns<C(==)>(assigns: seq<(C, Value)>) {
    forall i, j :: 0 <= i < j < |assigns| ==> assigns[i].0 != assigns[j].0
  }

  /**
   * Binding an UPDATE: the assignments it makes and the key its WHERE compares
   * with, or None when PostgreSQL would reject it (a placeholder without a
   * parameter or the reverse, a value of the wrong type, a column assigned twice).
   */
  function Resolve<R, C(==)>(s: Schema<R, C>, q: UpdateQuery<C>, now: int): Option<(seq<(C, Value)>, Value)> {
    if !UpdateBound(q) then None
    else
      var assigns := Bindings(q, now);
      if WellTyped(s, assigns) && DistinctColumns(assigns) then Some((assigns, q.params[q.keyPlaceholder - 1]))
      else None
  }

  /** A row after the assignments, made one after the other (their columns are distinct, so order is irrelevant). */
  function ApplyAll<R, C>(s: Schema<R, C>, row: R, assigns: seq<(C, Value)>): R {
    if assigns == [] then row
    else
      var n := |assigns| - 1;
      s.put(ApplyAll(s, row, assigns[..n]), assigns[n].0, assigns[n].1)
  }

  lemma ApplyAllStep<R, C>(s: Schema<R, C>, row: R, assigns: seq<(C, Value)>, field: Option<(C, Value)>)
    ensures ApplyAll(s, row, assigns + Optional(field)) ==
            match field
            case None => ApplyAll(s, row, assigns)
            case Some((c, v)) => s.put(ApplyAll(s, row, assigns), c, v)
  {
    if field.Some? {
      assert (assigns + Optional(field))[..|assigns|] == assigns;
    } else {
      assert assigns + Optional(field) == assigns;
    }
  }

  /** Writing a column a value of its type is read back from that column, and leaves the others as they were. */
  ghost predicate Lawful<R(!new), C(!new)>(s: Schema<R, C>) {
    forall row: R, c: C, v: Value, d: C :: s.kind(c) == KindOf(v) ==>
      s.get(s.put(row, c, v), d) == if d == c then v else s.get(row, d)
  }

  /** After well-typed assignments to distinct columns, a column holds what was assigned to it, or what it held. */
  lemma {:induction false} ApplyAllGet<R(!new), C(!new)>(s: Schema<R, C>, row: R, assigns: seq<(C, Value)>, d: C)
    requires Lawful(s) && WellTyped(s, assigns) && DistinctColumns(assigns)
    ensures forall i :: 0 <= i < |assigns| && assigns[i].0 == d ==> s.get(ApplyAll(s, row, assigns), d) == assigns[i].1
    ensures (forall i :: 0 <= i < |assigns| ==> assigns[i].0 != d) ==> s.get(ApplyAll(s, row, assigns), d) == s.get(row, d)
  {
    if assigns != [] {
      var n := |assigns| - 1;
      var prefix := assigns[..n];
      assert forall i :: 0 <= i < n ==> prefix[i] == assigns[i];
      ApplyAllGet(s, row, prefix, d);
      assert s.kind(assigns[n].0) == KindOf(assigns[n].1);
    }
  }

  /** `WHERE key = $k`: rows whose key equals the bound value; a NULL equals nothing. */
  function Matching<R, C>(s: Schema<R, C>, key: Value): R -> bool {
    (row: R) => key != Null && s.get(row, s.key) == key
  }

  /**
   * Executing an UPDATE: every row whose key equals the bound key gets the
   * assignments, the others stay as they are, and RETURNING hands back the
   * first updated row, or nothing when no row matched.
   */
  function ExecuteUpdate<R, C(==)>(s: Schema<R, C>, t: Table<R>, q: UpdateQuery<C>, now: int): Result<(Table<R>, Option<R>)> {
    match Resolve(s, q, now)
    case None => Err(StorageFailure("statement rejected"))
    case Some((assigns, key)) =>
      var hit := Matching(s, key);
      var rows := seq(|t.rows|, i requires 0 <= i < |t.rows| =>
        if hit(t.rows[i]) then ApplyAll(s, t.rows[i], assigns) else t.rows[i]);
      var returned := match First(t.rows, hit)
        case None => None
        case Some(k) => Some(rows[k]);
      Ok((Table(rows, t.serial), returned))
  }

  lemma FinishBound<R, C>(s: Schema<R, C>, b: Builder<C>, bound: nat, id: int)
    requires Built(s, b, bound) && b.sets != []
    ensures Finish(b, s.stamp, id).Ok? && UpdateBound(Finish(b, s.stamp, id).value)
  {
    var q := Finish(b, s.stamp, id).value;
    assert q.sets == b.sets + [Clause(s.stamp, CurrentTime)];
    assert q.params == b.params + [Num(id)];
    assert |q.params| == |b.sets| + 1 && q.keyPlaceholder == |b.sets| + 1;
    assert 1 <= q.keyPlaceholder <= |q.params|;
    forall k | 1 <= k <= |q.params|
      ensures k == q.keyPlaceholder || exists i :: 0 <= i < |q.sets| && q.sets[i].rhs == Placeholder(k)
    {
      if k <= |b.sets| {
        var i := k - 1;
        assert q.sets[i] == b.sets[i];
        assert q.sets[i].rhs == Placeholder(k);
      }
    }
    forall i | 0 <= i < |q.sets| && q.sets[i].rhs.Placeholder?
      ensures 1 <= q.sets[i].rhs.index <= |q.params|
    {
      if i < |b.sets| {
        assert q.sets[i] == b.sets[i];
      }
    }
    assert UpdateBound(q);
  }

  lemma FinishBindings<R, C>(s: Schema<R, C>, b: Builder<C>, bound: nat, id: int, now: int)
    requires Built(s, b, bound) && b.sets != []
    ensures Finish(b, s.stamp, id).Ok? && UpdateBound(Finish(b, s.stamp, id).value)
    ensures Bindings(Finish(b, s.stamp, id).value, now) == Pending(b) + [(s.stamp, Time(now))]
  {
    FinishBound(s, b, bound, id);
    var q := Finish(b, s.stamp, id).value;
    var assigns := Bindings(q, now);
    var expected := Pending(b) + [(s.stamp, Time(now))];
    assert |assigns| == |expected|;
    assert q.sets == b.sets + [Clause(s.stamp, CurrentTime)] && q.params == b.params + [Num(id)];
    forall i | 0 <= i < |assigns| ensures assigns[i] == expected[i] {
      BindingAt(q, b, s.stamp, id, now, i);
    }
  }

  /** The i-th binding of a finished builder: a field's parameter, or the current time for the stamp. */
  lemma BindingAt<C>(q: UpdateQuery<C>, b: Builder<C>, stamp: C, id: int, now: int, i: nat)
    requires |b.params| == |b.sets| && i <= |b.sets|
    requires forall j :: 0 <= j < |b.sets| ==> b.sets[j].rhs == Placeholder(j + 1)
    requires q.sets == b.sets + [Clause(stamp, CurrentTime)] && q.params == b.params + [Num(id)]
    requires UpdateBound(q)
    ensures Bindings(q, now)[i] == (Pending(b) + [(stamp, Time(now))])[i]
  {
    if i < |b.sets| {
      assert q.sets[i] == b.sets[i] && q.params[i] == b.params[i];
      assert BindClause(q.sets[i], q.params, now) == b.params[i];
      assert (Pending(b) + [(stamp, Time(now))])[i] == Pending(b)[i];
    } else {
      assert q.sets[i] == Clause(stamp, CurrentTime);
      assert (Pending(b) + [(stamp, Time(now))])[i] == (stamp, Time(now));
    }
  }

  /**
   * A query finished from a well-built, non-empty builder binds exactly the
   * collected assignments followed by `stamp = NOW()`, with the id as key.
   */
  lemma FinishResolves<R, C>(s: Schema<R, C>, b: Builder<C>, bound: nat, id: int, now: int)
    requires Built(s, b, bound) && b.sets != []
    requires s.kind(s.stamp) == TimeKind && bound <= s.rank(s.stamp)
    ensures Finish(b, s.stamp, id).Ok?
    ensures Resolve(s, Finish(b, s.stamp, id).value, now) == Some((Pending(b) + [(s.stamp, Time(now))], Num(id)))
  {
    FinishBindings(s, b, bound, id, now);
    StampedAssigns(s, b, bound, now);
  }

  /** The meaning of a built UPDATE over a table: rows keyed by the id get the assignments, nothing else changes. */
  lemma ExecuteBuilt<R, C>(s: Schema<R, C>, t: Table<R>, b: Builder<C>, bound: nat, id: int, now: int)
    requires Built(s, b, bound) && b.sets != []
    requires s.kind(s.stamp) == TimeKind && bound <= s.rank(s.stamp)
    ensures Finish(b, s.stamp, id).Ok?
    ensures var r := ExecuteUpdate(s, t, Finish(b, s.stamp, id).value, now);
      && r.Ok?
      && r.value.0.serial == t.serial
      && |r.value.0.rows| == |t.rows|
      && (forall i :: 0 <= i < |t.rows| ==>
            r.value.0.rows[i] == if s.get(t.rows[i], s.key) == Num(id)
                                 then ApplyAll(s, t.rows[i], Pending(b) + [(s.stamp, Time(now))])
                                 else t.rows[i])
      && r.value.1 == match First(t.rows, Matching(s, Num(id)))
                      case None => None
                      case Some(k) => Some(r.value.0.rows[k])
  {
    FinishResolves(s, b, bound, id, now);
  }
  /**
   * The built UPDATE in the caller's terms: given a per-row `patch` that the
   * assignments agree with and a `hit` test that agrees with the key match,
   * exactly the hit rows become their patch and the first of them is returned.
   */
  lemma ExecuteMeans<R, C>(s: Schema<R, C>, t: Table<R>, b: Builder<C>, bound: nat, id: int, now: int,
                           patch: R -> R, hit: R -> bool)
    requires Built(s, b, bound) && b.sets != []
    requires s.kind(s.stamp) == TimeKind && bound <= s.rank(s.stamp)
    requires forall i :: 0 <= i < |t.rows| ==> ApplyAll(s, t.rows[i], Pending(b) + [(s.stamp, Time(now))]) == patch(t.rows[i])
    requires forall i :: 0 <= i < |t.rows| ==> hit(t.rows[i]) == (s.get(t.rows[i], s.key) == Num(id))
    ensures Finish(b, s.stamp, id).Ok?
    ensures var r := ExecuteUpdate(s, t, Finish(b, s.stamp, id).value, now);
      && r.Ok?
      && r.value.0.serial == t.serial
      && |r.value.0.rows| == |t.rows|
      && (forall i :: 0 <= i < |t.rows| ==>
            r.value.0.rows[i] == if hit(t.rows[i]) then patch(t.rows[i]) else t.rows[i])
      && r.value.1 == match First(t.rows, hit)
                      case None => None
                      case Some(k) => Some(patch(t.rows[k]))
  {
    ExecuteBuilt(s, t, b, bound, id, now);
    var r := ExecuteUpdate(s, t, Finish(b, s.stamp, id).value, now);
    FirstAgrees(t.rows, Matching(s, Num(id)), hit);
    match First(t.rows, hit)
    case None =>
    case Some(k) =>
      assert r.value.1 == Some(r.value.0.rows[k]);
  }


  // ---------------------------------------------------------------------------
  // SELECT

  /** One conjunct of a WHERE clause: `c = true` or `c = $k`. */
  datatype Condition<C> = IsTrue(column: C) | EqualsParam(column: C, placeholder: nat)

  /** `SELECT ... WHERE <conditions> [ORDER BY ...] [LIMIT $k]` with its bound parameters. */
  datatype SelectQuery<C> = SelectQuery(conditions: seq<Condition<C>>, limit: Option<nat>, params: seq<Value>)

  predicate SelectBound<C>(q: SelectQuery<C>) {
    && (forall i :: 0 <= i < |q.conditions| && q.conditions[i].EqualsParam? ==>
          1 <= q.conditions[i].placeholder <= |q.params|)
    && (q.limit.Some? ==> 1 <= q.limit.value <= |q.params|)
    && (forall k :: 1 <= k <= |q.params| ==>
          q.limit == Some(k) || exists i :: 0 <= i < |q.conditions| && q.conditions[i].EqualsParam? && q.conditions[i].placeholder == k)
  }

  /** SQL comparison: a NULL column equals nothing. */
  predicate Satisfies<R, C>(get: (R, C) -> Value, row: R, cond: Condition<C>, params: seq<Value>) {
    match cond
    case IsTrue(c) => get(row, c) == Bool(true)
    case EqualsParam(c, k) => 1 <= k <= |params| && params[k - 1] != Null && get(row, c) == params[k - 1]
  }

  predicate Where<R, C>(get: (R, C) -> Value, row: R, q: SelectQuery<C>) {
    forall i :: 0 <= i < |q.conditions| ==> Satisfies(get, row, q.conditions[i], q.params)
  }

  /** The WHERE clause as a row predicate. */
  function WhereOf<R, C>(get: (R, C) -> Value, q: SelectQuery<C>): R -> bool {
    (row: R) => Where(get, row, q)
  }

  /**
   * Running a SELECT: the rows satisfying every condition, sorted by `order`
   * when there is one (storage order otherwise), cut to the LIMIT. PostgreSQL
   * rejects unbound placeholders and a negative LIMIT.
   */
  function RunSelect<R, C>(get: (R, C) -> Value, t: Table<R>, q: SelectQuery<C>, order: Option<R -> seq<int>>): Result<seq<R>> {
    if !SelectBound(q) then Err(StorageFailure("statement rejected"))
    else Limit(Arrange(Filter(t.rows, WhereOf(get, q)), order), q)
  }

  /** `LIMIT $k`: PostgreSQL wants a number and refuses a negative one. */
  function Limit<R, C>(rows: seq<R>, q: SelectQuery<C>): Result<seq<R>>
    requires q.limit.Some? ==> 1 <= q.limit.value <= |q.params|
  {
    match q.limit
    case None => Ok(rows)
    case Some(k) =>
      match q.params[k - 1]
      case Num(n) => if n < 0 then Err(StorageFailure("LIMIT must not be negative")) else Ok(Take(rows, n))
      case _ => Err(StorageFailure("LIMIT expects a number"))
  }

  /** Rows in the order an ORDER BY puts them, or as stored when there is none. */
  function Arrange<R>(rows: seq<R>, order: Option<R -> seq<int>>): seq<R> {
    match order
    case None => rows
    case Some(key) => SortBy(rows, key)
  }

  /** A SELECT whose WHERE clause means `p` on every stored row returns the rows satisfying `p`, arranged and limited. */
  lemma SelectMeans<R, C>(get: (R, C) -> Value, t: Table<R>, q: SelectQuery<C>, order: Option<R -> seq<int>>, p: R -> bool)
    requires SelectBound(q)
    requires forall i :: 0 <= i < |t.rows| ==> Where(get, t.rows[i], q) == p(t.rows[i])
    ensures RunSelect(get, t, q, order) == Limit(Arrange(Filter(t.rows, p), order), q)
  {
    assert forall i :: 0 <= i < |t.rows| ==> WhereOf(get, q)(t.rows[i]) == p(t.rows[i]);
    FilterAgrees(t.rows, WhereOf(get, q), p);
  }

  // ---------------------------------------------------------------------------
  // INSERT

  /** A table after appending one row; the serial sequence moves on. */
  function Append<R>(t: Table<R>, row: R): (r: Table<R>)
    ensures r.rows == t.rows + [row] && r.serial == t.serial + 1
  {
    Table(t.rows + [row], t.serial + 1)
  }
}
