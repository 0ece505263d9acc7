/** The bulk loader: staging tables are read in full, cut to their first
    `ROWS_TO_LOAD` rows, numbered, joined on that number, turned row by
    row into fixed-arity insert tuples with nulls replaced by defaults,
    and appended to the destination tables; the staging tables are dropped
    only once all three loads have gone through. The database is the
    `Warehouse` object; whether the engine accepts a batch of inserts is an
    input. */
module Loader {
  import opened Wrappers

  /** Each staging frame is cut to this many rows. */
  const ROWS_TO_LOAD: nat := 100000

  /** A value bound to a `?` placeholder of an insert statement. */
  datatype SqlValue = Null | Int(i: int) | Text(s: string)

  // ---------------------------------------------------------------------
  // Staged rows (a missing field is a SQL NULL)

  datatype PageRow = PageRow(pageId: Option<int>, title: Option<string>, touched: Option<string>)
  datatype PageExtraRow = PageExtraRow(len: Option<int>)
  datatype EmbeddingRow = EmbeddingRow(embeddingJson: Option<string>)
  datatype TextRow = TextRow(oldId: Option<int>, oldText: Option<string>)
  datatype RevisionRow = RevisionRow(revId: Option<int>, revPageId: Option<int>, timestamp: Option<string>,
                                     minorEdit: Option<int>, actor: Option<int>)

  /** The six staging tables, each in the order the engine returns it. */
  datatype Staging = Staging(page: seq<PageRow>, pageExtra: seq<PageExtraRow>, pageEmbedding: seq<EmbeddingRow>,
                             text: seq<TextRow>, textEmbedding: seq<EmbeddingRow>, revision: seq<RevisionRow>)

  // ---------------------------------------------------------------------
  // Numbering and joining frames

  /** A row together with its ordinal `rn`. */
  datatype Numbered<T> = Numbered(rn: nat, row: T)

  /** `ROW_NUMBER()` over a frame: the rows in order, numbered from 1. */
  function Number<T>(rows: seq<T>): (out: seq<Numbered<T>>)
    ensures |out| == |rows|
    ensures forall i :: 0 <= i < |rows| ==> out[i] == Numbered(i + 1, rows[i])
  {
    seq(|rows|, i requires 0 <= i < |rows| => Numbered(i + 1, rows[i]))
  }

  /** The rows of `right` whose ordinal is that of `l`, each paired with `l`. */
  function Matches<L, R>(l: Numbered<L>, right: seq<Numbered<R>>): (out: seq<Numbered<(L, R)>>)
    ensures |out| <= |right|
  {
    if right == [] then []
    else (if right[0].rn == l.rn then [Numbered(l.rn, (l.row, right[0].row))] else [])
         + Matches(l, right[1..])
  }

  /** `left.merge(right, on="rn")`: an inner join that keeps the order of
      `left` and, for one left row, the order of its matches in `right`. */
  function Merge<L, R>(left: seq<Numbered<L>>, right: seq<Numbered<R>>): (joined: seq<Numbered<(L, R)>>)
    ensures left == [] || right == [] ==> joined == []
  {
    if left == [] then []
    else Merge(left[..|left| - 1], right) + Matches(left[|left| - 1], right)
  }

  /** The rows of `a` and `b` paired position by position, as far as the shorter goes. */
  function Zip<A, B>(a: seq<A>, b: seq<B>): (z: seq<(A, B)>)
    ensures |z| == Min(|a|, |b|)
    ensures forall i :: 0 <= i < |z| ==> z[i] == (a[i], b[i])
  {
    seq(Min(|a|, |b|), i requires 0 <= i < Min(|a|, |b|) => (a[i], b[i]))
  }

  /** The ordinals of `right` run `lo, lo + 1, ...`. */
  predicate Consecutive<R>(right: seq<Numbered<R>>, lo: int) {
    forall i :: 0 <= i < |right| ==> right[i].rn == lo + i
  }

  /** Against consecutive ordinals a row has one match, at its own
      ordinal, when that ordinal is in range, and none otherwise. */
  lemma {:induction false} MatchesConsecutive<L, R>(l: Numbered<L>, right: seq<Numbered<R>>, lo: int)
    requires Consecutive(right, lo)
    ensures Matches(l, right) ==
            if lo <= l.rn < lo + |right| then [Numbered(l.rn, (l.row, right[l.rn - lo].row))] else []
    decreases |right|
  {
    if right != [] {
      assert Consecutive(right[1..], lo + 1);
      MatchesConsecutive(l, right[1..], lo + 1);
      if l.rn != lo && lo + 1 <= l.rn < lo + |right| {
        assert right[1..][l.rn - (lo + 1)] == right[l.rn - lo];
      }
    }
  }

  /** Joining two numbered frames on `rn` pairs them row by row and keeps
      as many rows as the shorter has: an ordinal missing from either side
      drops out. */
  lemma {:induction false} MergeNumbered<A, B>(a: seq<A>, b: seq<B>)
    ensures Merge(Number(a), Number(b)) == Number(Zip(a, b))
    decreases |a|
  {
    if a != [] {
      var n := |a|;
      var front := a[..n - 1];
      MergeNumbered(front, b);
      assert Number(a)[..n - 1] == Number(front);
      assert Consecutive(Number(b), 1);
      MatchesConsecutive(Number(a)[n - 1], Number(b), 1);
      ZipSnoc(a, b);
      if n <= |b| {
        NumberSnoc(Zip(front, b), (a[n - 1], b[n - 1]));
      }
    }
  }

  /** Numbering a frame with one more row numbers that row last. */
  lemma NumberSnoc<T>(front: seq<T>, x: T)
    ensures Number(front + [x]) == Number(front) + [Numbered(|front| + 1, x)]
  {
  }

  /** Zipping with one more row on the left adds a pair only when the right reaches that far. */
  lemma ZipSnoc<A, B>(a: seq<A>, b: seq<B>)
    requires a != []
    ensures |a| <= |b| ==> Zip(a, b) == Zip(a[..|a| - 1], b) + [(a[|a| - 1], b[|a| - 1])]
    ensures |a| > |b| ==> Zip(a, b) == Zip(a[..|a| - 1], b)
  {
  }

  // ---------------------------------------------------------------------
  // The frames each load reads

  /** `process_page_table`'s frame: the three page frames cut to
      `ROWS_TO_LOAD` rows, numbered and joined on `rn`. */
  function PageFrame(s: Staging): seq<Numbered<((PageRow, PageExtraRow), EmbeddingRow)>>
  {
    var n := ROWS_TO_LOAD;
    Merge(Merge(Number(Take(s.page, n)), Number(Take(s.pageExtra, n))), Number(Take(s.pageEmbedding, n)))
  }

  /** `process_text_table`'s frame: the two text frames cut, numbered and joined. */
  function TextFrame(s: Staging): seq<Numbered<(TextRow, EmbeddingRow)>>
  {
    Merge(Number(Take(s.text, ROWS_TO_LOAD)), Number(Take(s.textEmbedding, ROWS_TO_LOAD)))
  }

  /** The joined page frame holds the `i`-th row of each of the three
      staging frames at position `i`, for as many rows as the shortest of
      them (and `ROWS_TO_LOAD`) allows. */
  lemma PageFrameRows(s: Staging)
    ensures |PageFrame(s)| == Min(Min(Min(|s.page|, ROWS_TO_LOAD), Min(|s.pageExtra|, ROWS_TO_LOAD)),
                                  Min(|s.pageEmbedding|, ROWS_TO_LOAD))
    ensures forall i :: 0 <= i < |PageFrame(s)| ==>
              PageFrame(s)[i] == Numbered(i + 1, ((s.page[i], s.pageExtra[i]), s.pageEmbedding[i]))
  {
    var p, x, e := Take(s.page, ROWS_TO_LOAD), Take(s.pageExtra, ROWS_TO_LOAD), Take(s.pageEmbedding, ROWS_TO_LOAD);
    MergeNumbered(p, x);
    MergeNumbered(Zip(p, x), e);
  }

  /** The joined text frame pairs the `i`-th text row with the `i`-th
      embedding row, for as many rows as the shorter frame allows. */
  lemma TextFrameRows(s: Staging)
    ensures |TextFrame(s)| == Min(Min(|s.text|, ROWS_TO_LOAD), Min(|s.textEmbedding|, ROWS_TO_LOAD))
    ensures forall i :: 0 <= i < |TextFrame(s)| ==> TextFrame(s)[i] == Numbered(i + 1, (s.text[i], s.textEmbedding[i]))
  {
    MergeNumbered(Take(s.text, ROWS_TO_LOAD), Take(s.textEmbedding, ROWS_TO_LOAD));
  }

  // ---------------------------------------------------------------------
  // Shaping rows into insert tuples

  function TextOrNull(v: Option<string>): (r: SqlValue)
    ensures v.None? <==> r == Null
    ensures v.Some? ==> r == Text(v.value)
  {
    if v.Some? then Text(v.value) else Null
  }

  function IntOrNull(v: Option<int>): (r: SqlValue)
    ensures v.None? <==> r == Null
    ensures v.Some? ==> r == Int(v.value)
  {
    if v.Some? then Int(v.value) else Null
  }

  /** The 9-field `dbo.page` tuple of a joined page row; `None` when the
      page id is missing, since converting a missing id to an integer raises. */
  function PageTuple(r: Numbered<((PageRow, PageExtraRow), EmbeddingRow)>): (t: Option<seq<SqlValue>>)
    ensures t.None? <==> r.row.0.0.pageId.None?
    ensures t.Some? ==> |t.value| == 9
  {
    var page, extra, emb := r.row.0.0, r.row.0.1, r.row.1;
    if page.pageId.None? then None
    else
      var touched := TextOrNull(page.touched);
      Some([Int(page.pageId.value), Text(page.title.GetOr("")), Int(0), Int(0), touched,
            touched, Null, Int(extra.len.GetOr(0)), TextOrNull(emb.embeddingJson)])
  }

  /** The 4-field `dbo.text` tuple of a joined text row; `None` when the id is missing. */
  function TextTuple(r: Numbered<(TextRow, EmbeddingRow)>): (t: Option<seq<SqlValue>>)
    ensures t.None? <==> r.row.0.oldId.None?
    ensures t.Some? ==> |t.value| == 4
  {
    var text, emb := r.row.0, r.row.1;
    if text.oldId.None? then None
    else Some([Int(text.oldId.value), Text(text.oldText.GetOr("")), Text("utf-8"), TextOrNull(emb.embeddingJson)])
  }

  /** The 7-field `dbo.revision` tuple of a staged revision; `None` when
      the revision id or the page id is missing. */
  function RevisionTuple(r: RevisionRow): (t: Option<seq<SqlValue>>)
    ensures t.None? <==> r.revId.None? || r.revPageId.None?
    ensures t.Some? ==> |t.value| == 7
  {
    if r.revId.None? || r.revPageId.None? then None
    else Some([Int(r.revId.value), Int(r.revPageId.value), Int(r.revId.value), TextOrNull(r.timestamp),
               Int(r.minorEdit.GetOr(0)), IntOrNull(r.actor), Null])
  }

  /** The null-substitution rules of the page load, slots counted from 0:
      slot 0 is the id; a missing title (slot 1) becomes the empty string;
      the two flag slots 2 and 3 are 0; the touched time, or NULL, fills
      both timestamp slots 4 and 5; slot 6 is NULL; a missing length
      (slot 7) becomes 0; slot 8 is the embedding, or NULL. Every value
      present in the staged row reaches the tuple. */
  lemma PageTupleFields(r: Numbered<((PageRow, PageExtraRow), EmbeddingRow)>)
    requires r.row.0.0.pageId.Some?
    ensures var t, page, extra, emb := PageTuple(r).value, r.row.0.0, r.row.0.1, r.row.1;
      && t[0] == Int(page.pageId.value)
      && (page.title.None? ==> t[1] == Text(""))
      && (page.title.Some? ==> t[1] == Text(page.title.value))
      && t[2] == Int(0) && t[3] == Int(0)
      && t[4] == t[5] && (page.touched.None? <==> t[4] == Null)
      && (page.touched.Some? ==> t[4] == Text(page.touched.value))
      && t[6] == Null
      && (extra.len.None? ==> t[7] == Int(0))
      && (extra.len.Some? ==> t[7] == Int(extra.len.value))
      && (emb.embeddingJson.None? <==> t[8] == Null)
      && (emb.embeddingJson.Some? ==> t[8] == Text(emb.embeddingJson.value))
  {
  }

  /** The text load: a missing text becomes the empty string and the
      encoding is always `utf-8`. */
  lemma TextTupleFields(r: Numbered<(TextRow, EmbeddingRow)>)
    requires r.row.0.oldId.Some?
    ensures var t, text, emb := TextTuple(r).value, r.row.0, r.row.1;
      && t[0] == Int(text.oldId.value)
      && (text.oldText.None? ==> t[1] == Text(""))
      && (text.oldText.Some? ==> t[1] == Text(text.oldText.value))
      && t[2] == Text("utf-8")
      && (emb.embeddingJson.None? <==> t[3] == Null)
      && (emb.embeddingJson.Some? ==> t[3] == Text(emb.embeddingJson.value))
  {
  }

  /** The revision load, slots counted from 0: the revision id fills
      slots 0 and 2 and the page id slot 1; a missing timestamp (slot 3)
      or actor (slot 5) becomes NULL and a missing minor-edit flag (slot 4)
      0; the last slot, 6, is NULL. */
  lemma RevisionTupleFields(r: RevisionRow)
    requires r.revId.Some? && r.revPageId.Some?
    ensures var t := RevisionTuple(r).value;
      && t[0] == Int(r.revId.value) && t[2] == t[0]
      && t[1] == Int(r.revPageId.value)
      && (r.timestamp.None? <==> t[3] == Null)
      && (r.timestamp.Some? ==> t[3] == Text(r.timestamp.value))
      && (r.minorEdit.None? ==> t[4] == Int(0))
      && (r.minorEdit.Some? ==> t[4] == Int(r.minorEdit.value))
      && (r.actor.None? <==> t[5] == Null)
      && (r.actor.Some? ==> t[5] == Int(r.actor.value))
      && t[6] == Null
  {
  }

  /** The insert tuples of `rows`, one per row and in order; `None` as soon
      as one row cannot be shaped. */
  function ShapeAll<R>(rows: seq<R>, shape: R -> Option<seq<SqlValue>>): (out: Option<seq<seq<SqlValue>>>)
    ensures out.Some? <==> forall i :: 0 <= i < |rows| ==> shape(rows[i]).Some?
    ensures out.Some? ==> |out.value| == |rows|
    ensures out.Some? ==> forall i :: 0 <= i < |rows| ==> out.value[i] == shape(rows[i]).value
  {
    if rows == [] then Some([])
    else
      var front := ShapeAll(rows[..|rows| - 1], shape);
      var last := shape(rows[|rows| - 1]);
      if front.None? || last.None? then None else Some(front.value + [last.value])
  }

  /** The `iterrows` loop of a load: shape each row in turn and append its
      tuple; a row that cannot be shaped raises and ends the loop. */
  method BuildInserts<R>(rows: seq<R>, shape: R -> Option<seq<SqlValue>>) returns (data: Option<seq<seq<SqlValue>>>)
    ensures data == ShapeAll(rows, shape)
  {
    var tuples := [];
    for i := 0 to |rows|
      invariant ShapeAll(rows[..i], shape) == Some(tuples)
    {
      assert rows[..i + 1][..i] == rows[..i];
      var t := shape(rows[i]);
      if t.None? {
        assert ShapeAll(rows[..i + 1], shape).None?;
        ShapeNoneExtends(rows, shape, i + 1);
        return None;
      }
      tuples := tuples + [t.value];
    }
    assert rows[..|rows|] == rows;
    return Some(tuples);
  }

  /** Once a prefix cannot be shaped, neither can the whole. */
  lemma ShapeNoneExtends<R>(rows: seq<R>, shape: R -> Option<seq<SqlValue>>, i: nat)
    requires i <= |rows| && ShapeAll(rows[..i], shape).None?
    ensures ShapeAll(rows, shape).None?
  {
    var j :| 0 <= j < i && shape(rows[..i][j]).None?;
    assert rows[..i][j] == rows[j];
  }

  /** The page tuples to insert, or `None` when some joined row has no page id. */
  function PageInserts(s: Staging): (out: Option<seq<seq<SqlValue>>>)
  {
    ShapeAll(PageFrame(s), PageTuple)
  }

  function TextInserts(s: Staging): (out: Option<seq<seq<SqlValue>>>)
  {
    ShapeAll(TextFrame(s), TextTuple)
  }

  function RevisionInserts(s: Staging): (out: Option<seq<seq<SqlValue>>>)
  {
    ShapeAll(Take(s.revision, ROWS_TO_LOAD), RevisionTuple)
  }

  /** Exactly one page tuple per joined row, in order: the `i`-th tuple is
      built from the `i`-th row of each page staging frame. */
  lemma PageInsertsRows(s: Staging)
    requires PageInserts(s).Some?
    ensures |PageInserts(s).value| == Min(Min(Min(|s.page|, ROWS_TO_LOAD), Min(|s.pageExtra|, ROWS_TO_LOAD)),
                                          Min(|s.pageEmbedding|, ROWS_TO_LOAD))
    ensures forall i :: 0 <= i < |PageInserts(s).value| ==>
              PageTuple(Numbered(i + 1, ((s.page[i], s.pageExtra[i]), s.pageEmbedding[i]))) == Some(PageInserts(s).value[i])
  {
    var f, out := PageFrame(s), PageInserts(s).value;
    PageFrameRows(s);
    forall i | 0 <= i < |out|
      ensures PageTuple(Numbered(i + 1, ((s.page[i], s.pageExtra[i]), s.pageEmbedding[i]))) == Some(out[i])
    {
      assert f[i] == Numbered(i + 1, ((s.page[i], s.pageExtra[i]), s.pageEmbedding[i]));
    }
  }

  /** Exactly one text tuple per joined row, in order. */
  lemma TextInsertsRows(s: Staging)
    requires TextInserts(s).Some?
    ensures |TextInserts(s).value| == Min(Min(|s.text|, ROWS_TO_LOAD), Min(|s.textEmbedding|, ROWS_TO_LOAD))
    ensures forall i :: 0 <= i < |TextInserts(s).value| ==>
              TextTuple(Numbered(i + 1, (s.text[i], s.textEmbedding[i]))) == Some(TextInserts(s).value[i])
  {
    var f, out := TextFrame(s), TextInserts(s).value;
    TextFrameRows(s);
    forall i | 0 <= i < |out|
      ensures TextTuple(Numbered(i + 1, (s.text[i], s.textEmbedding[i]))) == Some(out[i])
    {
      assert f[i] == Numbered(i + 1, (s.text[i], s.textEmbedding[i]));
    }
  }

  /** Exactly one revision tuple per staged revision among the first `ROWS_TO_LOAD`, in order. */
  lemma RevisionInsertsRows(s: Staging)
    requires RevisionInserts(s).Some?
    ensures |RevisionInserts(s).value| == Min(|s.revision|, ROWS_TO_LOAD)
    ensures forall i :: 0 <= i < |RevisionInserts(s).value| ==>
              RevisionTuple(s.revision[i]) == Some(RevisionInserts(s).value[i])
  {
  }

  // ---------------------------------------------------------------------
  // The database and the load pipeline

  /** How the pipeline ended: the connection failed, one of the loads
      raised (and the later steps did not run), or everything was loaded
      and the staging tables dropped. */
  datatype Step = PageLoad | TextLoad | RevisionLoad
  datatype Outcome = ConnectFailed | LoadFailed(step: Step) | Loaded

  /** The target database: the staging tables while they exist, and the
      rows of the three destination tables. */
  class Warehouse {
    var staging: Option<Staging>
    var page: seq<seq<SqlValue>>
    var text: seq<seq<SqlValue>>
    var revision: seq<seq<SqlValue>>

    constructor(s: Staging)
      ensures staging == Some(s) && page == [] && text == [] && revision == []
    {
      staging := Some(s);
      page, text, revision := [], [], [];
    }

    /** `process_page_table`: read and join the page frames, shape the
        rows and insert them in one batch, which the engine accepts or
        rejects as `accepted` says. Reading dropped staging tables raises;
        a raise leaves every table as it was. */
    method ProcessPageTable(accepted: bool) returns (ok: bool)
      modifies this
      ensures ok <==> staging.Some? && PageInserts(staging.value).Some? && accepted
      ensures ok ==> page == old(page) + PageInserts(staging.value).value
      ensures !ok ==> page == old(page)
      ensures staging == old(staging) && text == old(text) && revision == old(revision)
    {
      if staging.None? {
        return false;
      }
      var data := BuildInserts(PageFrame(staging.value), PageTuple);
      if data.None? || !accepted {
        return false;
      }
      page := page + data.value;
      return true;
    }

    /** `process_text_table`, as the page load. */
    method ProcessTextTable(accepted: bool) returns (ok: bool)
      modifies this
      ensures ok <==> staging.Some? && TextInserts(staging.value).Some? && accepted
      ensures ok ==> text == old(text) + TextInserts(staging.value).value
      ensures !ok ==> text == old(text)
      ensures staging == old(staging) && page == old(page) && revision == old(revision)
    {
      if staging.None? {
        return false;
      }
      var data := BuildInserts(TextFrame(staging.value), TextTuple);
      if data.None? || !accepted {
        return false;
      }
      text := text + data.value;
      return true;
    }

    /** `process_revision_table`, as the page load, with no join. */
    method ProcessRevisionTable(accepted: bool) returns (ok: bool)
      modifies this
      ensures ok <==> staging.Some? && RevisionInserts(staging.value).Some? && accepted
      ensures ok ==> revision == old(revision) + RevisionInserts(staging.value).value
      ensures !ok ==> revision == old(revision)
      ensures staging == old(staging) && page == old(page) && text == old(text)
    {
      if staging.None? {
        return false;
      }
      var data := BuildInserts(Take(staging.value.revision, ROWS_TO_LOAD), RevisionTuple);
      if data.None? || !accepted {
        return false;
      }
      revision := revision + data.value;
      return true;
    }

    /** `cleanup`: drop the six staging tables. */
    method Cleanup()
      modifies this
      ensures staging.None?
      ensures page == old(page) && text == old(text) && revision == old(revision)
    {
      staging := None;
    }

    /** The main pipeline: connect, load page, text and revision in that
        order, and drop the staging tables only when all three loads went
        through; the first failure ends the run with the staging tables
        in place. */
    method LoadAll(connected: bool, pageAccepted: bool, textAccepted: bool, revisionAccepted: bool)
      returns (outcome: Outcome)
      modifies this
      ensures outcome == Loaded <==> staging.None? && old(staging).Some?
      ensures outcome != Loaded ==> staging == old(staging)
      ensures outcome == ConnectFailed <==> !connected
      ensures outcome == Loaded ==> Succeeds(old(staging).value, pageAccepted, textAccepted, revisionAccepted)
      ensures connected && old(staging).Some? && Succeeds(old(staging).value, pageAccepted, textAccepted, revisionAccepted)
              ==> outcome == Loaded
                  && page == old(page) + PageInserts(old(staging).value).value
                  && text == old(text) + TextInserts(old(staging).value).value
                  && revision == old(revision) + RevisionInserts(old(staging).value).value
      ensures connected ==>
                (outcome == LoadFailed(PageLoad) <==> !(old(staging).Some? && PageInserts(old(staging).value).Some? && pageAccepted))
      ensures connected ==>
                (outcome == LoadFailed(TextLoad) <==>
                   && old(staging).Some? && PageInserts(old(staging).value).Some? && pageAccepted
                   && !(TextInserts(old(staging).value).Some? && textAccepted))
      ensures connected ==>
                (outcome == LoadFailed(RevisionLoad) <==>
                   && old(staging).Some? && PageInserts(old(staging).value).Some? && pageAccepted
                   && TextInserts(old(staging).value).Some? && textAccepted
                   && !(RevisionInserts(old(staging).value).Some? && revisionAccepted))
      ensures outcome == LoadFailed(PageLoad) ==> page == old(page) && text == old(text) && revision == old(revision)
      ensures outcome == LoadFailed(TextLoad) ==>
                && old(staging).Some? && PageInserts(old(staging).value).Some?
                && page == old(page) + PageInserts(old(staging).value).value
                && text == old(text) && revision == old(revision)
      ensures outcome == LoadFailed(RevisionLoad) ==>
                && old(staging).Some? && PageInserts(old(staging).value).Some? && TextInserts(old(staging).value).Some?
                && page == old(page) + PageInserts(old(staging).value).value
                && text == old(text) + TextInserts(old(staging).value).value
                && revision == old(revision)
      ensures outcome == ConnectFailed ==> page == old(page) && text == old(text) && revision == old(revision)
    {
      if !connected {
        return ConnectFailed;
      }
      var ok := ProcessPageTable(pageAccepted);
      if !ok {
        return LoadFailed(PageLoad);
      }
      ok := ProcessTextTable(textAccepted);
      if !ok {
        return LoadFailed(TextLoad);
      }
      ok := ProcessRevisionTable(revisionAccepted);
      if !ok {
        return LoadFailed(RevisionLoad);
      }
      Cleanup();
      return Loaded;
    }
  }

  /** All three loads go through on staging `s` with these engine verdicts. */
  predicate Succeeds(s: Staging, pageAccepted: bool, textAccepted: bool, revisionAccepted: bool) {
    && PageInserts(s).Some? && pageAccepted
    && TextInserts(s).Some? && textAccepted
    && RevisionInserts(s).Some? && revisionAccepted
  }
}
