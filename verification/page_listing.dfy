/**
 * `listPages` (GET /cms/pages): every published page, ordered by slug. The
 * query has no parameters.
 */
module PageListing {
  import opened Common
  import opened Seqs
  import opened Ordering
  import opened Sql
  import opened PageModel

  /** `WHERE published = true`. */
  const ListingQuery: SelectQuery<Column> := SelectQuery([IsTrue(Published)], None, [])

  function IsPublished(): PageRow -> bool {
    (row: PageRow) => row.published
  }

  function ToPages(rows: seq<PageRow>): (r: seq<Page>)
    ensures |r| == |rows|
    ensures forall i :: 0 <= i < |rows| ==> r[i] == ToPage(rows[i])
  {
    seq(|rows|, i requires 0 <= i < |rows| => ToPage(rows[i]))
  }

  /** The reference listing: the published rows sorted by slug. */
  function Listed(t: Table<PageRow>): seq<PageRow> {
    SortBy(Filter(t.rows, IsPublished()), SlugKey)
  }

  lemma ListingWhere(row: PageRow)
    ensures Where(Get, row, ListingQuery) <==> row.published
  {
    assert ListingQuery.conditions[0] == IsTrue(Published);
  }

  /** The handler: the reference listing, mapped to the API. */
  function ListPages(t: Table<PageRow>): (r: seq<Page>)
    ensures r == ToPages(Listed(t))
  {
    forall i | 0 <= i < |t.rows| ensures Where(Get, t.rows[i], ListingQuery) == IsPublished()(t.rows[i]) {
      ListingWhere(t.rows[i]);
    }
    SelectMeans(Get, t, ListingQuery, Some(SlugKey), IsPublished());
    match RunSelect(Get, t, ListingQuery, Some(SlugKey))
    case Ok(rows) => ToPages(rows)
    case Err(_) => []
  }

  /** Different slugs have different sort keys. */
  lemma SlugKeyInjective(a: PageRow, b: PageRow)
    requires SlugKey(a) == SlugKey(b)
    ensures a.slug == b.slug
  {
    assert |a.slug| == |SlugKey(a)|;
    forall i | 0 <= i < |a.slug| ensures a.slug[i] == b.slug[i] {
      assert SlugKey(a)[i] == SlugKey(b)[i];
    }
  }

  /** Every published page is listed exactly as often as it is stored, and nothing else is. */
  lemma ListedExactly(t: Table<PageRow>, row: PageRow)
    ensures multiset(Listed(t))[row] == if row.published then multiset(t.rows)[row] else 0
  {
    if row.published {
      FilterCount(t.rows, IsPublished(), row);
    } else if row in Listed(t) {
      assert row in multiset(Filter(t.rows, IsPublished()));
      FilterMember(t.rows, IsPublished(), row);
    }
  }

  /** In a valid table the listing is strictly increasing by slug: no later slug sorts at or before an earlier one. */
  lemma ListedStrict(t: Table<PageRow>)
    requires Valid(t)
    ensures var rows := Listed(t);
      forall i, j :: 0 <= i < j < |rows| ==>
        && LexLe(SlugKey(rows[i]), SlugKey(rows[j])) && !LexLe(SlugKey(rows[j]), SlugKey(rows[i]))
        && rows[i].slug != rows[j].slug
  {
    var kept := Filter(t.rows, IsPublished());
    var rows := Listed(t);
    forall i, j | 0 <= i < j < |rows| ensures rows[i].slug != rows[j].slug {
      assert multiset(rows) == multiset(kept);
      if rows[i].slug == rows[j].slug {
        // two listed rows with one slug are the same stored row, which is listed once
        assert rows[i] in multiset(t.rows) by {
          assert rows[i] in multiset(kept);
        }
        assert rows[j] in multiset(t.rows) by {
          assert rows[j] in multiset(kept);
        }
        var a :| 0 <= a < |t.rows| && t.rows[a] == rows[i];
        var b :| 0 <= b < |t.rows| && t.rows[b] == rows[j];
        assert a == b;
        StoredOnce(t, a);
        ListedExactly(t, rows[i]);
        assert multiset(rows)[rows[i]] >= 2 by {
          TwiceCounted(rows, i, j);
        }
      }
    }
    forall i, j | 0 <= i < j < |rows| ensures !LexLe(SlugKey(rows[j]), SlugKey(rows[i])) {
      if LexLe(SlugKey(rows[j]), SlugKey(rows[i])) {
        LexLeAntisymmetric(SlugKey(rows[i]), SlugKey(rows[j]));
        SlugKeyInjective(rows[i], rows[j]);
      }
    }
  }

  /** In a valid table every stored row occurs once. */
  lemma StoredOnce(t: Table<PageRow>, a: nat)
    requires Valid(t) && a < |t.rows|
    ensures multiset(t.rows)[t.rows[a]] == 1
  {
    var x := t.rows[a];
    assert t.rows == t.rows[..a] + [x] + t.rows[a + 1..];
    assert forall k :: 0 <= k < |t.rows| && k != a ==> t.rows[k] != x;
  }

  /** An element at two positions is counted at least twice. */
  lemma TwiceCounted<T>(s: seq<T>, i: nat, j: nat)
    requires i < j < |s| && s[i] == s[j]
    ensures multiset(s)[s[i]] >= 2
  {
    assert s == s[..i] + [s[i]] + s[i + 1..j] + [s[j]] + s[j + 1..];
  }
}
