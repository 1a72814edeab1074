/** The summaries of coverage rows: rows are grouped by policy in one pass, and no count is
    lost or counted twice. */
module CoverageSummary {
  import opened Collections
  import opened Coverage

  datatype Row = Row(
    document: int,
    policy: string,
    chunkCount: nat,
    indexedChunkCount: nat,
    missingChunkCount: nat,
    termRowCount: nat,
    statisticsTermCount: nat,
    statisticsCorpusChunkCount: nat,
    status: CellStatus)

  datatype PolicySummary = PolicySummary(
    policy: string,
    documentCount: nat,
    chunkedDocumentCount: nat,
    completeDocumentCount: nat,
    partialDocumentCount: nat,
    missingDocumentCount: nat,
    staleDocumentCount: nat,
    notChunkedDocumentCount: nat,
    totalChunkCount: nat,
    indexedChunkCount: nat,
    missingChunkCount: nat,
    termRowCount: nat,
    statisticsTermCount: nat,
    statisticsCorpusChunkCount: nat)

  datatype Summary = Summary(
    documentCount: nat,
    policyCount: nat,
    documentPolicyCount: nat,
    totalChunkCount: nat,
    indexedChunkCount: nat,
    missingChunkCount: nat,
    termRowCount: nat,
    statisticsTermCount: nat,
    completeRowCount: nat,
    attentionRowCount: nat,
    staleRowCount: nat,
    missingRowCount: nat,
    policies: seq<PolicySummary>)

  /** One row from the counts of the query. */
  function RowFromCounts(d: int, p: string, policyChunkCount: nat, chunkCount: nat, indexed: nat, termRows: nat,
                         statisticsTerms: nat, statisticsCorpus: nat): Row {
    Row(d, p, chunkCount, indexed, if chunkCount > indexed then chunkCount - indexed else 0, termRows, statisticsTerms,
        statisticsCorpus, StatusForCell(policyChunkCount, chunkCount, indexed, statisticsTerms, statisticsCorpus))
  }

  // ---------------------------------------------------------------- sums over rows

  function Total(rows: seq<Row>, f: Row -> nat): nat {
    if rows == [] then 0 else Total(rows[..|rows| - 1], f) + f(rows[|rows| - 1])
  }

  function OfPolicy(rows: seq<Row>, p: string): seq<Row> {
    if rows == [] then []
    else OfPolicy(rows[..|rows| - 1], p) + if rows[|rows| - 1].policy == p then [rows[|rows| - 1]] else []
  }

  function Max(rows: seq<Row>, f: Row -> nat): nat {
    if rows == [] then 0
    else var m := Max(rows[..|rows| - 1], f);
         if f(rows[|rows| - 1]) > m then f(rows[|rows| - 1]) else m
  }

  /** The largest value is one of the values and none is larger. */
  lemma {:induction false} MaxIsTheLargest(rows: seq<Row>, f: Row -> nat)
    ensures forall i :: 0 <= i < |rows| ==> f(rows[i]) <= Max(rows, f)
    ensures if rows == [] then Max(rows, f) == 0 else exists i :: 0 <= i < |rows| && f(rows[i]) == Max(rows, f)
  {
    if rows != [] {
      var n := |rows| - 1;
      MaxIsTheLargest(rows[..n], f);
      assert f(rows[n]) == Max(rows, f) || Max(rows[..n], f) == Max(rows, f);
      if Max(rows[..n], f) == Max(rows, f) && n > 0 {
        var i :| 0 <= i < n && f(rows[..n][i]) == Max(rows[..n], f);
        assert f(rows[i]) == Max(rows, f);
      }
    }
  }

  function HasStatus(s: CellStatus): Row -> nat {
    (r: Row) => if r.status == s then 1 else 0
  }

  function CountStatus(rows: seq<Row>, s: CellStatus): nat {
    Total(rows, HasStatus(s))
  }

  lemma {:induction false} TotalConcat(a: seq<Row>, b: seq<Row>, f: Row -> nat)
    ensures Total(a + b, f) == Total(a, f) + Total(b, f)
  {
    if b == [] {
      assert a + b == a;
    } else {
      assert (a + b)[..|a + b| - 1] == a + b[..|b| - 1];
      TotalConcat(a, b[..|b| - 1], f);
    }
  }

  /** Grouping by policy keeps every total. */
  lemma {:induction false} GroupingKeepsTotals(rows: seq<Row>, names: set<string>, f: Row -> nat)
    requires forall i :: 0 <= i < |rows| ==> rows[i].policy in names
    ensures SumOver(names, p => Total(OfPolicy(rows, p), f)) == Total(rows, f)
  {
    var group := p => Total(OfPolicy(rows, p), f);
    if rows == [] {
      SumBetween(names, group, 0, 0);
    } else {
      var init, last := rows[..|rows| - 1], rows[|rows| - 1];
      var before := p => Total(OfPolicy(init, p), f);
      GroupingKeepsTotals(init, names, f);
      forall p | p in names
        ensures group(p) == before(p) + if p == last.policy then f(last) else 0
      {
        TotalConcat(OfPolicy(init, p), if last.policy == p then [last] else [], f);
      }
      SumTakeOut(names, group, last.policy);
      SumTakeOut(names, before, last.policy);
      SumCongruent(names - {last.policy}, group, before);
    }
  }

  /** The five statuses partition any set of rows. */
  lemma {:induction false} StatusesPartitionRows(rows: seq<Row>)
    ensures CountStatus(rows, Complete) + CountStatus(rows, Partial) + CountStatus(rows, Missing)
          + CountStatus(rows, Stale) + CountStatus(rows, NotChunked) == |rows|
  {
    if rows != [] { StatusesPartitionRows(rows[..|rows| - 1]); }
  }

  lemma {:induction false} ChunksAreIndexedOrMissing(rows: seq<Row>)
    requires forall i :: 0 <= i < |rows| ==> rows[i].chunkCount == rows[i].indexedChunkCount + rows[i].missingChunkCount
    ensures Total(rows, (r: Row) => r.chunkCount)
         == Total(rows, (r: Row) => r.indexedChunkCount) + Total(rows, (r: Row) => r.missingChunkCount)
  {
    if rows != [] { ChunksAreIndexedOrMissing(rows[..|rows| - 1]); }
  }

  // ---------------------------------------------------------------- building the summary

  function ChunkTotal(rows: seq<Row>): nat { Total(rows, (r: Row) => r.chunkCount) }
  function IndexedTotal(rows: seq<Row>): nat { Total(rows, (r: Row) => r.indexedChunkCount) }
  function MissingTotal(rows: seq<Row>): nat { Total(rows, (r: Row) => r.missingChunkCount) }
  function TermRowTotal(rows: seq<Row>): nat { Total(rows, (r: Row) => r.termRowCount) }

  function BuildPolicySummary(p: string, rows: seq<Row>): PolicySummary {
    PolicySummary(p, |rows|, Total(rows, (r: Row) => if r.chunkCount > 0 then 1 else 0),
                  CountStatus(rows, Complete), CountStatus(rows, Partial), CountStatus(rows, Missing),
                  CountStatus(rows, Stale), CountStatus(rows, NotChunked),
                  ChunkTotal(rows), IndexedTotal(rows), MissingTotal(rows), TermRowTotal(rows),
                  Max(rows, (r: Row) => r.statisticsTermCount), Max(rows, (r: Row) => r.statisticsCorpusChunkCount))
  }

  function StatisticsTerms(policies: seq<PolicySummary>): nat {
    if policies == [] then 0
    else StatisticsTerms(policies[..|policies| - 1]) + policies[|policies| - 1].statisticsTermCount
  }

  ghost function Names(rows: seq<Row>): set<string> {
    set i | 0 <= i < |rows| :: rows[i].policy
  }

  ghost function Documents(rows: seq<Row>): set<int> {
    set i | 0 <= i < |rows| :: rows[i].document
  }

  /** The summary of a policy's own rows. */
  function SummaryOf(rows: seq<Row>, p: string): PolicySummary {
    BuildPolicySummary(p, OfPolicy(rows, p))
  }

  /** One summary per policy that has a row, each over exactly its own rows. */
  ghost predicate SummarizesEachPolicy(policies: seq<PolicySummary>, rows: seq<Row>, names: set<string>) {
    && |policies| == |names|
    && (forall i :: 0 <= i < |policies| ==>
          policies[i].policy in names && policies[i] == SummaryOf(rows, policies[i].policy))
    && forall p :: p in names ==> exists i :: 0 <= i < |policies| && policies[i].policy == p
  }

  ghost predicate IsGrouping(groups: map<string, seq<Row>>, rows: seq<Row>) {
    && groups.Keys == Names(rows)
    && forall p :: p in groups ==> groups[p] == OfPolicy(rows, p)
  }

  /** The loop that fills the dictionary of rows by policy and the set of documents. */
  method GroupRows(rows: seq<Row>) returns (rowsByPolicy: map<string, seq<Row>>, documentIds: set<int>)
    ensures IsGrouping(rowsByPolicy, rows) && documentIds == Documents(rows)
  {
    rowsByPolicy, documentIds := map[], {};
    for i := 0 to |rows|
      invariant IsGrouping(rowsByPolicy, rows[..i])
      invariant documentIds == Documents(rows[..i])
    {
      var row := rows[i];
      assert rows[..i + 1] == rows[..i] + [row];
      GroupStep(rows[..i], row);
      var group := if row.policy in rowsByPolicy then rowsByPolicy[row.policy] else [];
      rowsByPolicy := rowsByPolicy[row.policy := group + [row]];
      documentIds := documentIds + {row.document};
    }
    assert rows[..|rows|] == rows;
  }

  method SummarizeGroups(ghost rows: seq<Row>, rowsByPolicy: map<string, seq<Row>>)
    returns (policies: seq<PolicySummary>)
    requires IsGrouping(rowsByPolicy, rows)
    ensures SummarizesEachPolicy(policies, rows, Names(rows))
  {
    policies := [];
    var names := Listing(rowsByPolicy.Keys);
    for i := 0 to |names|
      invariant policies == SummariesOf(rows, names[..i])
    {
      var p := names[i];
      assert p in Elements(names);
      GroupSummary(rowsByPolicy, rows, p);
      SummariesSnoc(rows, names, i);
      policies := policies + [BuildPolicySummary(p, rowsByPolicy[p])];
    }
    assert names[..|names|] == names;
    EachNameOnce(policies, rows, names);
  }

  function SummariesOf(rows: seq<Row>, names: seq<string>): seq<PolicySummary> {
    seq(|names|, i requires 0 <= i < |names| => SummaryOf(rows, names[i]))
  }

  lemma SummariesSnoc(rows: seq<Row>, names: seq<string>, i: nat)
    requires i < |names|
    ensures SummariesOf(rows, names[..i + 1]) == SummariesOf(rows, names[..i]) + [SummaryOf(rows, names[i])]
  {
  }

  lemma GroupSummary(groups: map<string, seq<Row>>, rows: seq<Row>, p: string)
    requires IsGrouping(groups, rows) && p in groups
    ensures BuildPolicySummary(p, groups[p]) == SummaryOf(rows, p)
  {
  }

  lemma EachNameOnce(policies: seq<PolicySummary>, rows: seq<Row>, names: seq<string>)
    requires Distinct(names) && Elements(names) == Names(rows) && policies == SummariesOf(rows, names)
    ensures SummarizesEachPolicy(policies, rows, Names(rows))
  {
    DistinctSize(names);
    assert forall j :: 0 <= j < |names| ==> names[j] in Elements(names);
    forall p | p in Names(rows)
      ensures exists i :: 0 <= i < |policies| && policies[i].policy == p
    {
      var i :| 0 <= i < |names| && names[i] == p;
      assert policies[i].policy == p;
    }
  }

  method BuildSummary(rows: seq<Row>) returns (s: Summary)
    ensures s.documentCount == |Documents(rows)| && s.documentPolicyCount == |rows|
    ensures s.policyCount == |s.policies| && SummarizesEachPolicy(s.policies, rows, Names(rows))
    ensures s.totalChunkCount == ChunkTotal(rows) && s.indexedChunkCount == IndexedTotal(rows)
    ensures s.missingChunkCount == MissingTotal(rows) && s.termRowCount == TermRowTotal(rows)
    ensures s.completeRowCount == CountStatus(rows, Complete)
    ensures s.staleRowCount == CountStatus(rows, Stale) && s.missingRowCount == CountStatus(rows, Missing)
    ensures s.completeRowCount + s.attentionRowCount + CountStatus(rows, NotChunked) == |rows|
    ensures s.statisticsTermCount == StatisticsTerms(s.policies)
  {
    var rowsByPolicy, documentIds := GroupRows(rows);
    var policies := SummarizeGroups(rows, rowsByPolicy);
    StatusesPartitionRows(rows);
    var stale, missing := CountStatus(rows, Stale), CountStatus(rows, Missing);
    s := Summary(|documentIds|, |policies|, |rows|, ChunkTotal(rows), IndexedTotal(rows), MissingTotal(rows),
      TermRowTotal(rows),
                 StatisticsTerms(policies), CountStatus(rows, Complete), stale + missing + CountStatus(rows, Partial),
                 stale, missing, policies);
  }

  lemma GroupStep(rows: seq<Row>, row: Row)
    ensures Names(rows + [row]) == Names(rows) + {row.policy}
    ensures Documents(rows + [row]) == Documents(rows) + {row.document}
    ensures forall p :: OfPolicy(rows + [row], p) == OfPolicy(rows, p) + if row.policy == p then [row] else []
    ensures row.policy !in Names(rows) ==> OfPolicy(rows, row.policy) == []
  {
    var all := rows + [row];
    assert all[..|all| - 1] == rows;
    forall x
      ensures x in Names(all) <==> x in Names(rows) + {row.policy}
    {
      if x in Names(rows) { var i :| 0 <= i < |rows| && rows[i].policy == x; assert all[i].policy == x; }
      assert all[|rows|].policy == row.policy;
    }
    forall x
      ensures x in Documents(all) <==> x in Documents(rows) + {row.document}
    {
      if x in Documents(rows) { var i :| 0 <= i < |rows| && rows[i].document == x; assert all[i].document == x; }
      assert all[|rows|].document == row.document;
    }
    if row.policy !in Names(rows) { NoRowsOfPolicy(rows, row.policy); }
  }

  lemma {:induction false} NoRowsOfPolicy(rows: seq<Row>, p: string)
    requires p !in Names(rows)
    ensures OfPolicy(rows, p) == []
  {
    if rows != [] {
      var init := rows[..|rows| - 1];
      assert rows[|rows| - 1].policy in Names(rows);
      forall x | x in Names(init) ensures x in Names(rows) {
        var i :| 0 <= i < |init| && init[i].policy == x;
        assert rows[i].policy == x;
      }
      NoRowsOfPolicy(init, p);
    }
  }

  // ---------------------------------------------------------------- the summaries add up

  function PolicyTotal(policies: seq<PolicySummary>, g: PolicySummary -> nat): nat {
    if policies == [] then 0 else PolicyTotal(policies[..|policies| - 1], g) + g(policies[|policies| - 1])
  }

  function PolicyNames(policies: seq<PolicySummary>): seq<string> {
    seq(|policies|, i requires 0 <= i < |policies| => policies[i].policy)
  }

  lemma {:induction false} PolicyTotalIsSumOver(policies: seq<PolicySummary>, g: PolicySummary -> nat, h: string -> int)
    requires Distinct(PolicyNames(policies))
    requires forall i :: 0 <= i < |policies| ==> g(policies[i]) == h(policies[i].policy)
    ensures PolicyTotal(policies, g) == SumOver(Elements(PolicyNames(policies)), h)
  {
    if policies == [] {
      assert Elements(PolicyNames(policies)) == {};
    } else {
      var n := |policies| - 1;
      var names := PolicyNames(policies);
      assert PolicyNames(policies[..n]) == names[..n];
      PolicyTotalIsSumOver(policies[..n], g, h);
      ElementsSnoc(names, n);
      assert names[..n + 1] == names;
      SumAdd(Elements(names[..n]), h, names[n]);
    }
  }

  lemma SummarizedNamesAreDistinct(policies: seq<PolicySummary>, rows: seq<Row>, names: set<string>)
    requires SummarizesEachPolicy(policies, rows, names)
    ensures Distinct(PolicyNames(policies)) && Elements(PolicyNames(policies)) == names
  {
    forall p | p in names
      ensures p in PolicyNames(policies)
    {
      var i :| 0 <= i < |policies| && policies[i].policy == p;
      assert PolicyNames(policies)[i] == p;
    }
    assert Elements(PolicyNames(policies)) == names;
    FullSizeIsDistinct(PolicyNames(policies));
  }

  /** A field that is a total over each policy's rows adds up, over the summaries, to the
      total over all rows. */
  lemma FieldAddsUp(policies: seq<PolicySummary>, rows: seq<Row>, g: PolicySummary -> nat, f: Row -> nat)
    requires SummarizesEachPolicy(policies, rows, Names(rows))
    requires forall p :: g(SummaryOf(rows, p)) == Total(OfPolicy(rows, p), f)
    ensures PolicyTotal(policies, g) == Total(rows, f)
  {
    SummarizedNamesAreDistinct(policies, rows, Names(rows));
    var h := p => Total(OfPolicy(rows, p), f);
    PolicyTotalIsSumOver(policies, g, h);
    GroupingKeepsTotals(rows, Names(rows), f);
  }

  lemma {:induction false} TotalOfOnes(rows: seq<Row>)
    ensures Total(rows, (r: Row) => 1) == |rows|
  {
    if rows != [] { TotalOfOnes(rows[..|rows| - 1]); }
  }

  /** The per-policy summaries add up to the overall totals. */
  lemma PolicySummariesAddUp(policies: seq<PolicySummary>, rows: seq<Row>)
    requires SummarizesEachPolicy(policies, rows, Names(rows))
    ensures PolicyTotal(policies, (s: PolicySummary) => s.documentCount) == |rows|
    ensures PolicyTotal(policies, (s: PolicySummary) => s.totalChunkCount) == ChunkTotal(rows)
    ensures PolicyTotal(policies, (s: PolicySummary) => s.indexedChunkCount) == IndexedTotal(rows)
    ensures PolicyTotal(policies, (s: PolicySummary) => s.missingChunkCount) == MissingTotal(rows)
    ensures PolicyTotal(policies, (s: PolicySummary) => s.termRowCount) == TermRowTotal(rows)
    ensures PolicyTotal(policies, (s: PolicySummary) => s.completeDocumentCount) == CountStatus(rows, Complete)
    ensures PolicyTotal(policies, (s: PolicySummary) => s.staleDocumentCount) == CountStatus(rows, Stale)
    ensures PolicyTotal(policies, (s: PolicySummary) => s.missingDocumentCount) == CountStatus(rows, Missing)
  {
    forall p
      ensures SummaryOf(rows, p).documentCount == Total(OfPolicy(rows, p), (r: Row) => 1)
    {
      TotalOfOnes(OfPolicy(rows, p));
    }
    TotalOfOnes(rows);
    FieldAddsUp(policies, rows, (s: PolicySummary) => s.documentCount, (r: Row) => 1);
    FieldAddsUp(policies, rows, (s: PolicySummary) => s.totalChunkCount, (r: Row) => r.chunkCount);
    FieldAddsUp(policies, rows, (s: PolicySummary) => s.indexedChunkCount, (r: Row) => r.indexedChunkCount);
    FieldAddsUp(policies, rows, (s: PolicySummary) => s.missingChunkCount, (r: Row) => r.missingChunkCount);
    FieldAddsUp(policies, rows, (s: PolicySummary) => s.termRowCount, (r: Row) => r.termRowCount);
    FieldAddsUp(policies, rows, (s: PolicySummary) => s.completeDocumentCount, HasStatus(Complete));
    FieldAddsUp(policies, rows, (s: PolicySummary) => s.staleDocumentCount, HasStatus(Stale));
    FieldAddsUp(policies, rows, (s: PolicySummary) => s.missingDocumentCount, HasStatus(Missing));
  }

  /** A row as the query makes it: chunks are indexed or missing, and it is not chunked
      exactly when it has no chunk. */
  predicate Balanced(r: Row) {
    r.chunkCount == r.indexedChunkCount + r.missingChunkCount && (r.status == NotChunked <==> r.chunkCount == 0)
  }

  lemma {:induction false} ChunkedOrNot(rows: seq<Row>)
    requires forall i :: 0 <= i < |rows| ==> Balanced(rows[i])
    ensures Total(rows, (r: Row) => if r.chunkCount > 0 then 1 else 0) + CountStatus(rows, NotChunked) == |rows|
  {
    if rows != [] { ChunkedOrNot(rows[..|rows| - 1]); }
  }

  /** Within one policy summary everything is accounted for. */
  lemma PolicySummaryBalances(p: string, rows: seq<Row>)
    requires forall i :: 0 <= i < |rows| ==> Balanced(rows[i])
    ensures var s := BuildPolicySummary(p, rows);
      && s.chunkedDocumentCount + s.notChunkedDocumentCount == s.documentCount
      && s.completeDocumentCount + s.partialDocumentCount + s.missingDocumentCount + s.staleDocumentCount
        == s.chunkedDocumentCount
      && s.indexedChunkCount + s.missingChunkCount == s.totalChunkCount
  {
    ChunkedOrNot(rows);
    StatusesPartitionRows(rows);
    ChunksAreIndexedOrMissing(rows);
  }
}
