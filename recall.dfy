/** The recall benchmark: for each rank cutoff K and each query template,
    run the exact ("ground truth") query and the vector-index query, keep
    the returned primary keys as sets, and record recall and acceleration.
    The database is an input: `execute` gives, for a template, either the
    rows and latencies both queries produced, or that the attempt raised. */
module Recall {
  import opened Wrappers

  /** The cutoffs the harness is configured with. */
  const K_VALUES: seq<nat> := [10, 20, 30, 50, 100, 200]

  /** The pagination template fetches this many rows per page. */
  const PAGE_SIZE: nat := 10

  // ---------------------------------------------------------------------
  // Recall and acceleration

  /** The ids of a result, as a set: row order and repeated ids are lost. */
  function IdSet(rows: seq<int>): (ids: set<int>)
    ensures forall i :: 0 <= i < |rows| ==> rows[i] in ids
    ensures forall x :: x in ids ==> x in rows
  {
    set x | x in rows
  }

  /** There are never more ids than rows, and exactly as many when no id repeats. */
  lemma {:induction false} IdSetSize(rows: seq<int>)
    ensures |IdSet(rows)| <= |rows|
    ensures (forall i, j :: 0 <= i < j < |rows| ==> rows[i] != rows[j]) ==> |IdSet(rows)| == |rows|
    decreases |rows|
  {
    if rows != [] {
      var front, last := rows[..|rows| - 1], rows[|rows| - 1];
      IdSetSize(front);
      assert IdSet(rows) == IdSet(front) + {last};
      if forall i, j :: 0 <= i < j < |rows| ==> rows[i] != rows[j] {
        assert last !in IdSet(front);
      }
    }
  }

  /** A subset is no larger than its superset, and only equal in size when equal. */
  lemma SubsetCardinality(a: set<int>, b: set<int>)
    requires a <= b
    ensures |a| <= |b|
    ensures |a| == |b| ==> a == b
  {
    assert b * a == a;
    assert |b - a| == |b| - |a|;
    if |a| == |b| {
      assert b - a == {};
    }
  }

  /** Percentage of the ground-truth ids that the index also returned.
      An empty ground truth gives 0 whatever the index returned. */
  function CalculateRecall(gt: set<int>, idx: set<int>): (r: real)
    ensures 0.0 <= r <= 100.0
    ensures gt == {} ==> r == 0.0
  {
    if gt == {} then 0.0
    else
      SubsetCardinality(gt * idx, gt);
      (|gt * idx| as real / |gt| as real) * 100.0
  }

  /** For a non-empty ground truth, recall scales the overlap by |gt|. */
  lemma RecallOverlap(gt: set<int>, idx: set<int>)
    requires gt != {}
    ensures CalculateRecall(gt, idx) * (|gt| as real) == 100.0 * (|gt * idx| as real)
  {
  }

  /** Recall is 100 exactly when every ground-truth id was returned by the index. */
  lemma RecallFullIff(gt: set<int>, idx: set<int>)
    requires gt != {}
    ensures CalculateRecall(gt, idx) == 100.0 <==> gt <= idx
  {
    SubsetCardinality(gt * idx, gt);
    RecallOverlap(gt, idx);
    if CalculateRecall(gt, idx) == 100.0 {
      assert |gt * idx| == |gt|;
      assert gt * idx == gt;
    }
    if gt <= idx {
      assert gt * idx == gt;
    }
  }

  /** Dividing by the same positive size keeps the order. */
  lemma DivideKeepsOrder(x: real, y: real, n: real)
    requires 0.0 < n && x <= y
    ensures x / n <= y / n
  {
    assert y / n - x / n == (y - x) / n;
  }

  /** Extra ids in the index result never lower recall. */
  lemma RecallMonotone(gt: set<int>, idx: set<int>, extra: set<int>)
    ensures CalculateRecall(gt, idx) <= CalculateRecall(gt, idx + extra)
  {
    if gt != {} {
      SubsetCardinality(gt * idx, gt * (idx + extra));
      DivideKeepsOrder(|gt * idx| as real, |gt * (idx + extra)| as real, |gt| as real);
    }
  }

  /** Reordering the rows of either query does not change recall. */
  lemma RecallIgnoresOrder(gt: seq<int>, gt': seq<int>, idx: seq<int>, idx': seq<int>)
    requires multiset(gt) == multiset(gt') && multiset(idx) == multiset(idx')
    ensures CalculateRecall(IdSet(gt), IdSet(idx)) == CalculateRecall(IdSet(gt'), IdSet(idx'))
  {
    assert forall x :: x in gt <==> x in multiset(gt);
    assert forall x :: x in gt' <==> x in multiset(gt');
    assert forall x :: x in idx <==> x in multiset(idx);
    assert forall x :: x in idx' <==> x in multiset(idx');
    SameIdsSameRecall(gt, gt', idx, idx');
  }

  /** Recall depends only on which ids each query returned: results with
      the same ids, in whatever order and with whatever repetitions, give
      the same recall. */
  lemma SameIdsSameRecall(gt: seq<int>, gt': seq<int>, idx: seq<int>, idx': seq<int>)
    requires forall x :: x in gt <==> x in gt'
    requires forall x :: x in idx <==> x in idx'
    ensures CalculateRecall(IdSet(gt), IdSet(idx)) == CalculateRecall(IdSet(gt'), IdSet(idx'))
  {
    forall x ensures x in IdSet(gt) <==> x in IdSet(gt') {
      assert x in IdSet(gt) <==> x in gt;
      assert x in IdSet(gt') <==> x in gt';
    }
    forall x ensures x in IdSet(idx) <==> x in IdSet(idx') {
      assert x in IdSet(idx) <==> x in idx;
      assert x in IdSet(idx') <==> x in idx';
    }
    assert IdSet(gt) == IdSet(gt');
    assert IdSet(idx) == IdSet(idx');
  }

  /** Ground-truth latency over index latency; exactly 0 when the index
      latency is not positive (no division error, no infinity). */
  function Acceleration(gtMs: real, idxMs: real): (r: real)
    ensures idxMs > 0.0 ==> r * idxMs == gtMs
    ensures idxMs <= 0.0 ==> r == 0.0
  {
    if idxMs > 0.0 then gtMs / idxMs else 0.0
  }

  /** An acceleration above 1 means the index query was faster, and conversely. */
  lemma AccelerationAboveOne(gtMs: real, idxMs: real)
    requires idxMs > 0.0
    ensures Acceleration(gtMs, idxMs) > 1.0 <==> gtMs > idxMs
  {
    var r := Acceleration(gtMs, idxMs);
    assert r * idxMs == gtMs;
    if r > 1.0 {
      assert (r - 1.0) * idxMs > 0.0;
    } else {
      assert (1.0 - r) * idxMs >= 0.0;
    }
  }

  // ---------------------------------------------------------------------
  // Query templates

  /** The rows skipped before the page of the pagination template:
      `k - 10` for `k >= 10`, else 0. The page therefore always ends at
      rank `max(k, 10)` and the offset is never negative. */
  function PageOffset(k: int): (offset: nat)
    ensures offset + PAGE_SIZE == if k >= PAGE_SIZE as int then k else PAGE_SIZE as int
  {
    if k >= 10 then k - 10 else 0
  }

  datatype Table = TextTable | PageTable

  /** The sampled query vectors: two text embeddings and one page embedding. */
  datatype QueryVector = Text1 | Text2 | PageVector

  /** How a query reaches the rows nearest to a vector: a full scan that
      computes every distance, or the engine's approximate vector search
      returning its `topN` best candidates. */
  datatype Access = FullScan | VectorSearch(topN: nat)

  datatype Probe = Probe(vector: QueryVector, access: Access)

  /** Which ranks of the ordered result are returned. */
  datatype Window = All | Top(n: nat) | OffsetFetch(offset: nat, fetch: nat)

  /** One SQL statement: rows of `table` ranked by the least distance over
      `ranking`, without the ids that `excluded` returns, cut to `window`. */
  datatype Plan = Plan(table: Table, ranking: seq<Probe>, excluded: Option<(Probe, Window)>, window: Window)

  datatype Template = Template(name: string, gt: Plan, idx: Plan)

  /** Every probe a plan issues, the exclusion sub-query's included. */
  function Probes(p: Plan): seq<Probe>
  {
    p.ranking + (if p.excluded.Some? then [p.excluded.value.0] else [])
  }

  /** The TOP_N each index probe of a template uses: 2k for the primary
      search of the exclusion template, k everywhere else. */
  function IndexTopN(name: string, k: nat, primary: bool): nat
  {
    if name == "NQ18" && primary then 2 * k else k
  }

  /** The ground-truth statement is exact (full scans only) and returns
      TOP k rows, except IQ1, which returns the page ending at rank k. */
  predicate ExactGroundTruth(t: Template, k: nat)
  {
    && (forall p <- Probes(t.gt) :: p.access == FullScan)
    && t.gt.window == if t.name == "IQ1" then OffsetFetch(PageOffset(k), PAGE_SIZE) else Top(k)
  }

  /** Every probe of the index statement is a vector search with the TOP_N of `IndexTopN`. */
  predicate IndexPolicy(t: Template, k: nat)
  {
    && (forall p <- t.idx.ranking :: p.access == VectorSearch(IndexTopN(t.name, k, true)))
    && (t.idx.excluded.Some? ==> t.idx.excluded.value.0.access == VectorSearch(IndexTopN(t.name, k, false)))
  }

  /** Both statements of a template ask the same question: same table,
      same ranking vectors, same exclusion vector, and for IQ1 the same page. */
  predicate Paired(t: Template)
  {
    && t.gt.table == t.idx.table
    && |t.gt.ranking| == |t.idx.ranking|
    && (forall i :: 0 <= i < |t.gt.ranking| ==> t.gt.ranking[i].vector == t.idx.ranking[i].vector)
    && (t.gt.excluded.Some? <==> t.idx.excluded.Some?)
    && (t.gt.excluded.Some? ==> t.gt.excluded.value.0.vector == t.idx.excluded.value.0.vector)
    && (t.name == "IQ1" ==> t.gt.window == t.idx.window)
  }

  predicate FollowsPolicy(t: Template, k: nat)
  {
    ExactGroundTruth(t, k) && IndexPolicy(t, k) && Paired(t)
  }

  /** Q1, plain k-nearest neighbours of the first text vector. */
  function Q1(k: nat): (t: Template)
    ensures t.name == "Q1"
  {
    Template("Q1",
      Plan(TextTable, [Probe(Text1, FullScan)], None, Top(k)),
      Plan(TextTable, [Probe(Text1, VectorSearch(k))], None, All))
  }

  /** NQ11, k-nearest pages to the page vector. */
  function NQ11(k: nat): (t: Template)
    ensures t.name == "NQ11"
  {
    Template("NQ11",
      Plan(PageTable, [Probe(PageVector, FullScan)], None, Top(k)),
      Plan(PageTable, [Probe(PageVector, VectorSearch(k))], None, All))
  }

  /** NQ13, k-nearest texts to the first text vector. */
  function NQ13(k: nat): (t: Template)
    ensures t.name == "NQ13"
  {
    Template("NQ13",
      Plan(TextTable, [Probe(Text1, FullScan)], None, Top(k)),
      Plan(TextTable, [Probe(Text1, VectorSearch(k))], None, All))
  }

  /** NQ16, texts ranked by their least distance to either text vector. */
  function NQ16(k: nat): (t: Template)
    ensures t.name == "NQ16"
  {
    Template("NQ16",
      Plan(TextTable, [Probe(Text1, FullScan), Probe(Text2, FullScan)], None, Top(k)),
      Plan(TextTable, [Probe(Text1, VectorSearch(k)), Probe(Text2, VectorSearch(k))], None, Top(k)))
  }

  /** NQ18, texts nearest the first vector, without those among the k
      nearest the second; the index path over-fetches 2k candidates. */
  function NQ18(k: nat): (t: Template)
    ensures t.name == "NQ18"
  {
    Template("NQ18",
      Plan(TextTable, [Probe(Text1, FullScan)], Some((Probe(Text2, FullScan), Top(k))), Top(k)),
      Plan(TextTable, [Probe(Text1, VectorSearch(2 * k))], Some((Probe(Text2, VectorSearch(k)), All)), Top(k)))
  }

  /** IQ1, the page of 10 texts ending at rank k. */
  function IQ1(k: nat): (t: Template)
    ensures t.name == "IQ1"
  {
    var page := OffsetFetch(PageOffset(k), PAGE_SIZE);
    Template("IQ1",
      Plan(TextTable, [Probe(Text1, FullScan)], None, page),
      Plan(TextTable, [Probe(Text1, VectorSearch(k))], None, page))
  }

  /** The six templates, in the order the harness runs them, for cutoff `k`. */
  function Templates(k: nat): (ts: seq<Template>)
    ensures |ts| == 6 && ts[0].name == "Q1"
  {
    [Q1(k), NQ11(k), NQ13(k), NQ16(k), NQ18(k), IQ1(k)]
  }

  /** Every template follows the policy: exact TOP k ground truth (the
      page ending at rank k for IQ1), vector searches with TOP_N k on the
      index path (2k for NQ18's primary search), and both statements
      asking the same question. */
  lemma TemplatesFollowPolicy(k: nat)
    ensures forall i :: 0 <= i < |Templates(k)| ==> FollowsPolicy(Templates(k)[i], k)
  {
  }

  /** The pagination template reads the same page of 10 rows on both
      paths, starting after `PageOffset(k)` rows; the exclusion template's
      index path over-fetches 2k candidates for its primary vector. */
  lemma TemplateSpecifics(k: nat)
    ensures IQ1(k).gt.window == IQ1(k).idx.window == OffsetFetch(PageOffset(k), PAGE_SIZE)
    ensures |NQ18(k).idx.ranking| == 1 && NQ18(k).idx.ranking[0].access == VectorSearch(2 * k)
    ensures NQ18(k).idx.excluded == Some((Probe(Text2, VectorSearch(k)), All))
  {
  }

  // ---------------------------------------------------------------------
  // The harness loop

  /** What running one template produced: the rows and latencies of both
      queries, or an exception somewhere along the way. */
  datatype Execution = Raised | Completed(gtRows: seq<int>, gtMs: real, idxRows: seq<int>, idxMs: real)

  datatype BenchmarkRecord = BenchmarkRecord(
    query: string, k: nat, recallPct: real, indexLatencyMs: real, exactLatencyMs: real, acceleration: real)

  /** The record one completed template contributes. */
  function RecordOf(name: string, k: nat, gtRows: seq<int>, gtMs: real, idxRows: seq<int>, idxMs: real): BenchmarkRecord
  {
    BenchmarkRecord(name, k, CalculateRecall(IdSet(gtRows), IdSet(idxRows)), idxMs, gtMs, Acceleration(gtMs, idxMs))
  }

  /** The records one template run contributes: none if it raised, else
      one record with its name, the cutoff, recall and acceleration. */
  function Contribution(t: Template, k: nat, execute: Template -> Execution): (rs: seq<BenchmarkRecord>)
    ensures |rs| <= 1 && (rs == [] <==> execute(t).Raised?)
    ensures rs != [] ==> rs[0].query == t.name && rs[0].k == k && 0.0 <= rs[0].recallPct <= 100.0
    ensures execute(t).Completed? ==>
              && rs[0].recallPct == CalculateRecall(IdSet(execute(t).gtRows), IdSet(execute(t).idxRows))
              && rs[0].indexLatencyMs == execute(t).idxMs
              && rs[0].exactLatencyMs == execute(t).gtMs
              && rs[0].acceleration == Acceleration(execute(t).gtMs, execute(t).idxMs)
  {
    match execute(t)
    case Raised => []
    case Completed(gtRows, gtMs, idxRows, idxMs) => [RecordOf(t.name, k, gtRows, gtMs, idxRows, idxMs)]
  }

  /** The records of running templates `ts` at cutoff `k`, in order. */
  function TemplateRecords(ts: seq<Template>, k: nat, execute: Template -> Execution): (rs: seq<BenchmarkRecord>)
    ensures |rs| <= |ts|
  {
    if ts == [] then []
    else TemplateRecords(ts[..|ts| - 1], k, execute) + Contribution(ts[|ts| - 1], k, execute)
  }

  /** The templates run at one cutoff: the first `count` of them (Python's `queries[:count]`). */
  function Selected(k: nat, count: nat): seq<Template>
  {
    Templates(k)[..Min(count, |Templates(k)|)]
  }

  /** The records of the whole sweep over the cutoffs `ks`, in order. */
  function SweepRecords(ks: seq<nat>, count: nat, execute: Template -> Execution): seq<BenchmarkRecord>
  {
    if ks == [] then []
    else SweepRecords(ks[..|ks| - 1], count, execute) + TemplateRecords(Selected(ks[|ks| - 1], count), ks[|ks| - 1], execute)
  }

  /** Every record of a cutoff carries that cutoff and a recall in [0, 100]. */
  lemma {:induction false} RecordsInRange(ts: seq<Template>, k: nat, execute: Template -> Execution)
    ensures forall r <- TemplateRecords(ts, k, execute) :: r.k == k && 0.0 <= r.recallPct <= 100.0
    decreases |ts|
  {
    if ts != [] {
      RecordsInRange(ts[..|ts| - 1], k, execute);
    }
  }

  /** Records of consecutive template runs concatenate. */
  lemma {:induction false} TemplateRecordsAppend(a: seq<Template>, b: seq<Template>, k: nat, execute: Template -> Execution)
    ensures TemplateRecords(a + b, k, execute) == TemplateRecords(a, k, execute) + TemplateRecords(b, k, execute)
    decreases |b|
  {
    if b != [] {
      var b' := b[..|b| - 1];
      assert (a + b)[..|a + b| - 1] == a + b';
      TemplateRecordsAppend(a, b', k, execute);
    } else {
      assert a + b == a;
    }
  }

  /** A template that raises adds nothing, and the templates after it still run. */
  lemma {:induction false} RaisingTemplateSkipped(ts: seq<Template>, i: nat, k: nat, execute: Template -> Execution)
    requires i < |ts| && execute(ts[i]).Raised?
    ensures TemplateRecords(ts, k, execute) == TemplateRecords(ts[..i], k, execute) + TemplateRecords(ts[i + 1..], k, execute)
  {
    var pre, t, post := ts[..i], ts[i], ts[i + 1..];
    var upTo := pre + [t];
    assert ts == upTo + post;
    calc {
      TemplateRecords(ts, k, execute);
      { TemplateRecordsAppend(upTo, post, k, execute); }
      TemplateRecords(upTo, k, execute) + TemplateRecords(post, k, execute);
      { TemplateRecordsAppend(pre, [t], k, execute); RaisingAlone(t, k, execute); }
      TemplateRecords(pre, k, execute) + TemplateRecords(post, k, execute);
    }
  }

  /** A raising template on its own yields no record. */
  lemma RaisingAlone(t: Template, k: nat, execute: Template -> Execution)
    requires execute(t).Raised?
    ensures TemplateRecords([t], k, execute) == []
  {
    assert [t][..0] == [];
  }

  /** When no template raises, there is exactly one record per template,
      in order, carrying the template's name and the cutoff. */
  lemma {:induction false} OneRecordPerCompletedTemplate(ts: seq<Template>, k: nat, execute: Template -> Execution)
    requires forall t <- ts :: execute(t).Completed?
    ensures var rs := TemplateRecords(ts, k, execute);
      |rs| == |ts| && forall j :: 0 <= j < |ts| ==> rs[j].query == ts[j].name && rs[j].k == k
    decreases |ts|
  {
    if ts != [] {
      var front, last := ts[..|ts| - 1], ts[|ts| - 1];
      assert forall t <- front :: t in ts;
      OneRecordPerCompletedTemplate(front, k, execute);
      assert last in ts;
      var fr, c := TemplateRecords(front, k, execute), Contribution(last, k, execute);
      var rs := fr + c;
      assert TemplateRecords(ts, k, execute) == rs;
      assert |c| == 1;
      forall j | 0 <= j < |ts| ensures rs[j].query == ts[j].name && rs[j].k == k {
        if j < |front| {
          assert rs[j] == fr[j] && ts[j] == front[j];
        } else {
          assert rs[j] == c[0];
        }
      }
    }
  }

  /** The inner loop of the harness at one cutoff: run each template in
      turn and append its record unless it raised. */
  method RunTemplates(queries: seq<Template>, k: nat, execute: Template -> Execution) returns (records: seq<BenchmarkRecord>)
    ensures records == TemplateRecords(queries, k, execute)
  {
    records := [];
    for j := 0 to |queries|
      invariant records == TemplateRecords(queries[..j], k, execute)
    {
      assert queries[..j + 1][..j] == queries[..j];
      match execute(queries[j])
      case Raised =>
      case Completed(gtRows, gtMs, idxRows, idxMs) =>
        var recall := CalculateRecall(IdSet(gtRows), IdSet(idxRows));
        var accel := Acceleration(gtMs, idxMs);
        records := records + [BenchmarkRecord(queries[j].name, k, recall, idxMs, gtMs, accel)];
    }
    assert queries[..|queries|] == queries;
  }

  /** The outer loop of the harness: for each cutoff, run the first
      `count` templates and collect their records in order. */
  method Benchmark(ks: seq<nat>, count: nat, execute: Template -> Execution) returns (results: seq<BenchmarkRecord>)
    ensures results == SweepRecords(ks, count, execute)
  {
    results := [];
    for i := 0 to |ks|
      invariant results == SweepRecords(ks[..i], count, execute)
    {
      var k := ks[i];
      var records := RunTemplates(Selected(k, count), k, execute);
      assert SweepRecords(ks[..i + 1], count, execute) == results + records by {
        assert ks[..i + 1][..i] == ks[..i];
      }
      results := results + records;
    }
    assert ks[..|ks|] == ks;
  }

  /** The harness as configured: only the first cutoff (K = 10) and only
      the first template (Q1) are attempted, so it yields at most one
      record, Q1 at K = 10, and none exactly when that attempt raised. */
  method RunBenchmark(execute: Template -> Execution) returns (results: seq<BenchmarkRecord>)
    ensures |results| <= 1
    ensures results == [] <==> execute(Templates(10)[0]).Raised?
    ensures results != [] ==> results[0].query == "Q1" && results[0].k == 10 && 0.0 <= results[0].recallPct <= 100.0
    ensures results == Contribution(Templates(10)[0], 10, execute)
  {
    results := Benchmark(K_VALUES[..1], 1, execute);
    assert K_VALUES[..1] == [10];
    assert [10][..0] == [];
    var qs := Selected(10, 1);
    assert qs == [Templates(10)[0]];
    assert qs[..0] == [];
  }
}
