/**
 * The embeddings browser, admin/ajax/get-embeddings.php: a page of the
 * `embeddings` table, newest first, optionally for one application, with
 * long contents shortened for display and the total for pagination.
 */
module EmbeddingsPage {
  import opened Wrappers
  import opened Text
  import opened Php
  import opened Records
  import opened Store

  // ---------------------------------------------------------------- ORDER BY e.created_at DESC

  predicate NewestFirst(es: seq<Embedding>)
  {
    forall i, j | 0 <= i < j < |es| :: es[i].createdAt >= es[j].createdAt
  }

  function InsertByAge(e: Embedding, es: seq<Embedding>): (r: seq<Embedding>)
    requires NewestFirst(es)
    ensures NewestFirst(r)
    ensures multiset(r) == multiset(es) + multiset{e}
    decreases |es|
  {
    if |es| == 0 || e.createdAt >= es[0].createdAt then
      ConsNewestFirst(e, es);
      [e] + es
    else
      var tail := InsertByAge(e, es[1..]);
      assert es == [es[0]] + es[1..];
      NoNewerThan(es[0].createdAt, e, es[1..], tail);
      ConsNewestFirst(es[0], tail);
      [es[0]] + tail
  }

  /** A row no older than the head of sorted rows can go in front of them. */
  lemma ConsNewestFirst(h: Embedding, rs: seq<Embedding>)
    requires NewestFirst(rs) && (|rs| > 0 ==> rs[0].createdAt <= h.createdAt)
    ensures NewestFirst([h] + rs)
  {
    var r := [h] + rs;
    forall i, j | 0 <= i < j < |r| ensures r[i].createdAt >= r[j].createdAt {
      if i == 0 {
        assert r[j] == rs[j - 1];
      } else {
        assert r[i] == rs[i - 1] && r[j] == rs[j - 1];
      }
    }
  }

  /** Rows made of e and of rows no newer than h are no newer than h. */
  lemma NoNewerThan(h: int, e: Embedding, es: seq<Embedding>, rs: seq<Embedding>)
    requires e.createdAt <= h && forall j | 0 <= j < |es| :: es[j].createdAt <= h
    requires multiset(rs) == multiset(es) + multiset{e}
    ensures forall j | 0 <= j < |rs| :: rs[j].createdAt <= h
  {
    forall j | 0 <= j < |rs| ensures rs[j].createdAt <= h {
      assert rs[j] in multiset(rs);
      if rs[j] != e {
        assert rs[j] in multiset(es);
        var k :| 0 <= k < |es| && es[k] == rs[j];
      }
    }
  }

  /** The rows in the order the list statement returns them: same rows, newest first. */
  function OrderByNewest(es: seq<Embedding>): (r: seq<Embedding>)
    ensures NewestFirst(r)
    ensures multiset(r) == multiset(es)
    decreases |es|
  {
    if |es| == 0 then []
    else
      assert es == es[..|es| - 1] + [es[|es| - 1]];
      InsertByAge(es[|es| - 1], OrderByNewest(es[..|es| - 1]))
  }

  // ---------------------------------------------------------------- LIMIT ? OFFSET ?

  /** `LIMIT limit OFFSET offset` on rows already ordered. */
  function Page<T>(rows: seq<T>, limit: nat, offset: nat): (r: seq<T>)
  {
    var from := if offset < |rows| then offset else |rows|;
    var to := if offset + limit < |rows| then offset + limit else |rows|;
    rows[from..to]
  }

  /**
   * A page holds at most `limit` rows, consecutive in the ordered rows
   * from `offset` on, and rows remain after it exactly when
   * offset + limit < the number of rows, which is how `has_more` is computed.
   */
  lemma PageShape<T>(rows: seq<T>, limit: nat, offset: nat)
    ensures var p := Page(rows, limit, offset);
      && |p| <= limit
      && (forall i | 0 <= i < |p| :: offset + i < |rows| && p[i] == rows[offset + i])
      && (offset + |p| < |rows| <==> offset + limit < |rows|)
      && (offset + limit <= |rows| ==> |p| == limit)
  {
  }

  // ---------------------------------------------------------------- content shortening

  const ShownLength := 200

  /** `substr($c, 0, 200) . '...'` for a content longer than 200 characters. */
  function Shorten(c: string): string
  {
    if |c| > ShownLength then c[..ShownLength] + "..." else c
  }

  /** Short contents are kept; longer ones keep their first 200 characters and gain `...`. */
  lemma ShortenShape(c: string)
    ensures |c| <= ShownLength ==> Shorten(c) == c
    ensures |c| > ShownLength ==>
      && |Shorten(c)| == ShownLength + 3
      && StartsWith(Shorten(c), c[..ShownLength])
      && EndsWith(Shorten(c), "...")
    ensures |Shorten(c)| <= ShownLength + 3
  {
  }

  /** One row of the list: the embedding with the name of its application (NULL when none). */
  datatype Listed = Listed(id: int, appId: int, content: string, createdAt: int, appName: Option<string>)

  function ListedRow(apps: seq<Application>, e: Embedding): Listed
  {
    var app := FindApp(apps, e.appId);
    Listed(e.id, e.appId, e.content, e.createdAt, if app.Some? then Some(app.value.name) else None)
  }

  function Display(r: Listed): Listed
  {
    r.(content := Shorten(r.content))
  }

  /** The by-reference foreach: every row's content is shortened in place. */
  method ShortenContents(a: array<Listed>)
    modifies a
    ensures forall i | 0 <= i < a.Length :: a[i] == Display(old(a[i]))
  {
    var i := 0;
    while i < a.Length
      invariant 0 <= i <= a.Length
      invariant forall j | 0 <= j < i :: a[j] == Display(old(a[j]))
      invariant forall j | i <= j < a.Length :: a[j] == old(a[j])
    {
      if |a[i].content| > ShownLength {
        a[i] := a[i].(content := a[i].content[..ShownLength] + "...");
      }
      i := i + 1;
    }
  }

  // ---------------------------------------------------------------- the request

  /** The GET parameters; a missing one is None. */
  datatype Query = Query(appId: Option<string>, limit: Option<string>, offset: Option<string>)

  datatype EmbeddingsResponse =
    | EmbeddingsListed(embeddings: seq<Listed>, total: nat, limit: int, offset: int, hasMore: bool)
    | NoVectorSupport
    | EmbeddingsFailed(message: string)

  /** `min((int)($_GET['limit'] ?? 20), 100)`. */
  function LimitOf(q: Query): (n: int)
    ensures n <= 100
  {
    var n := IntCast(q.limit.GetOr("20"));
    if n < 100 then n else 100
  }

  function OffsetOf(q: Query): int
  {
    IntCast(q.offset.GetOr("0"))
  }

  /** `$appId && is_numeric($appId)` decides whether both statements filter by application. */
  function AppFilter(q: Query): (f: Option<int>)
    ensures f.Some? <==> !Empty(q.appId.GetOr("")) && IsNumericId(q.appId.GetOr(""))
  {
    RequestId(q.appId.GetOr(""))
  }

  /** The rows the list statement returns, newest first, limited and offset, as displayed. */
  function ShownPage(t: Tables, q: Query, limit: nat, offset: nat): seq<Listed>
  {
    var page := Page(OrderByNewest(EmbeddingsOf(t.embeddings, AppFilter(q))), limit, offset);
    seq(|page|, i requires 0 <= i < |page| => Display(ListedRow(t.applications, page[i])))
  }

  /**
   * The endpoint: `vector` is what checkVectorSupport reports, `sqlError`
   * the message PDO raises when PostgreSQL refuses a negative LIMIT or
   * OFFSET.
   */
  function ListEmbeddings(t: Tables, dbUp: bool, vector: bool, q: Query, sqlError: string): (r: EmbeddingsResponse)
  {
    var limit := LimitOf(q);
    var offset := OffsetOf(q);
    if !dbUp then EmbeddingsFailed("Database connection failed")
    else if !vector then NoVectorSupport
    else if limit < 0 || offset < 0 then EmbeddingsFailed(sqlError)
    else
      var total := |EmbeddingsOf(t.embeddings, AppFilter(q))|;
      EmbeddingsListed(ShownPage(t, q, limit, offset), total, limit, offset, offset + limit < total)
  }

  /** The statements over the database, with the in-place shortening loop. */
  method RunListEmbeddings(db: Database, dbUp: bool, vector: bool, q: Query, sqlError: string)
    returns (out: EmbeddingsResponse)
    ensures out == ListEmbeddings(db.Snapshot(), dbUp, vector, q, sqlError)
  {
    var limit := LimitOf(q);
    var offset := OffsetOf(q);
    if !dbUp { return EmbeddingsFailed("Database connection failed"); }
    if !vector { return NoVectorSupport; }
    if limit < 0 || offset < 0 { return EmbeddingsFailed(sqlError); }
    var t := db.Snapshot();
    var selected := EmbeddingsOf(t.embeddings, AppFilter(q));
    var page := Page(OrderByNewest(selected), limit, offset);
    var a := new Listed[|page|](i requires 0 <= i < |page| => ListedRow(t.applications, page[i]));
    ShortenContents(a);
    assert a[..] == ShownPage(t, q, limit, offset);
    out := EmbeddingsListed(a[..], |selected|, limit, offset, offset + limit < |selected|);
  }

  // ---------------------------------------------------------------- properties

  /** The limit is never above 100, whatever was asked for. */
  lemma LimitCapped(t: Tables, dbUp: bool, vector: bool, q: Query, sqlError: string)
    ensures var r := ListEmbeddings(t, dbUp, vector, q, sqlError);
      r.EmbeddingsListed? ==> 0 <= r.limit <= 100 && |r.embeddings| <= r.limit
  {
    var r := ListEmbeddings(t, dbUp, vector, q, sqlError);
    if r.EmbeddingsListed? {
      ShownPageShape(t, q, LimitOf(q), OffsetOf(q));
    }
  }

  /** Without vector support nothing is listed. */
  lemma NoVectorNoRows(t: Tables, q: Query, sqlError: string)
    ensures ListEmbeddings(t, true, false, q, sqlError) == NoVectorSupport
  {
  }

  /**
   * With a numeric, non-empty app_id every listed row and every counted row
   * belongs to that application; without one, all rows are counted.
   */
  lemma FilterApplied(t: Tables, vector: bool, q: Query, sqlError: string)
    ensures var r := ListEmbeddings(t, true, vector, q, sqlError);
      r.EmbeddingsListed? ==>
        && (AppFilter(q).Some? ==> forall i | 0 <= i < |r.embeddings| :: r.embeddings[i].appId == AppFilter(q).value)
        && (AppFilter(q).None? ==> r.total == |t.embeddings|)
  {
    var r := ListEmbeddings(t, true, vector, q, sqlError);
    if r.EmbeddingsListed? {
      assert r.embeddings == ShownPage(t, q, r.limit, r.offset);
      if AppFilter(q).Some? {
        ShownRowsOfApp(t, q, r.limit, r.offset);
      } else {
        AllEmbeddings(t.embeddings);
      }
    }
  }

  lemma ShownRowsOfApp(t: Tables, q: Query, limit: nat, offset: nat)
    requires AppFilter(q).Some?
    ensures var p := ShownPage(t, q, limit, offset);
      forall i | 0 <= i < |p| :: p[i].appId == AppFilter(q).value
  {
    var selected := EmbeddingsOf(t.embeddings, AppFilter(q));
    var ordered := OrderByNewest(selected);
    var p := ShownPage(t, q, limit, offset);
    ShownPageShape(t, q, limit, offset);
    OrderedOfApp(selected, AppFilter(q).value);
    forall i | 0 <= i < |p| ensures p[i].appId == AppFilter(q).value {
      assert p[i].appId == ordered[offset + i].appId;
    }
  }

  /** Ordering keeps the rows it is given, so it keeps their application. */
  lemma OrderedOfApp(selected: seq<Embedding>, appId: int)
    requires forall e | e in selected :: e.appId == appId
    ensures forall i | 0 <= i < |OrderByNewest(selected)| :: OrderByNewest(selected)[i].appId == appId
  {
    var ordered := OrderByNewest(selected);
    forall i | 0 <= i < |ordered| ensures ordered[i].appId == appId {
      assert ordered[i] in multiset(ordered);
    }
  }

  lemma {:induction false} AllEmbeddings(es: seq<Embedding>)
    ensures EmbeddingsOf(es, None) == es
    decreases |es|
  {
    if |es| > 0 {
      AllEmbeddings(es[1..]);
      assert es == [es[0]] + es[1..];
    }
  }

  /**
   * The displayed page is the ordered selection from `offset` on, newest
   * first, at most `limit` rows, and selected rows remain after it exactly
   * when offset + limit is below their number.
   */
  lemma {:induction false} ShownPageShape(t: Tables, q: Query, limit: nat, offset: nat)
    ensures var ordered := OrderByNewest(EmbeddingsOf(t.embeddings, AppFilter(q)));
      var p := ShownPage(t, q, limit, offset);
      && |p| <= limit
      && (forall i | 0 <= i < |p| ::
            offset + i < |ordered| && p[i] == Display(ListedRow(t.applications, ordered[offset + i])))
      && (forall i, j | 0 <= i < j < |p| :: p[i].createdAt >= p[j].createdAt)
      && (offset + |p| < |ordered| <==> offset + limit < |ordered|)
  {
    var ordered := OrderByNewest(EmbeddingsOf(t.embeddings, AppFilter(q)));
    PageShape(ordered, limit, offset);
  }

  /** The count statement counts the same rows the list statement pages through. */
  lemma TotalIsSelection(t: Tables, q: Query)
    ensures |OrderByNewest(EmbeddingsOf(t.embeddings, AppFilter(q)))| == |EmbeddingsOf(t.embeddings, AppFilter(q))|
  {
    var selected := EmbeddingsOf(t.embeddings, AppFilter(q));
    assert |OrderByNewest(selected)| == |multiset(OrderByNewest(selected))| == |multiset(selected)|;
  }

  /** `has_more` holds exactly when selected rows come after the page. */
  lemma HasMoreIffRowsRemain(t: Tables, vector: bool, q: Query, sqlError: string)
    ensures var r := ListEmbeddings(t, true, vector, q, sqlError);
      r.EmbeddingsListed? ==> (r.hasMore <==> r.offset + |r.embeddings| < r.total)
  {
    var r := ListEmbeddings(t, true, vector, q, sqlError);
    if r.EmbeddingsListed? {
      ShownPageShape(t, q, r.limit, r.offset);
      TotalIsSelection(t, q);
    }
  }
}
