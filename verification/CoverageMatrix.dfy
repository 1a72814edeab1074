/** The coverage matrix: one row for every selected document and policy, what its fields
    count, and what its totals and summaries say about the tables. */
module CoverageMatrix {
  import opened Collections
  import opened KeywordIndex
  import opened RefreshLaws
  import opened Coverage
  import opened CoverageSummary

  // ---------------------------------------------------------------- the matrix

  ghost function CellTermRows(tb: Tables, d: int, p: string, t: TokenizerName): set<TermKey> {
    set k | k in tb.terms && k.tokenizer == t && k.chunk in CellIds(tb.chunks, d, p)
  }

  ghost function MatrixRow(tb: Tables, d: int, p: string, t: TokenizerName): Row {
    RowFromCounts(d, p, |PolicyIds(tb.chunks, p)|, |CellIds(tb.chunks, d, p)|, |IndexedIds(tb, d, p, t)|,
                  |CellTermRows(tb, d, p, t)|, |StatSlice(tb.stats, p, t)|, StatisticsCorpus(tb.stats, p, t))
  }

  /** The rows of one document: every selected policy. */
  ghost function DocumentRows(tb: Tables, d: int, policies: seq<string>, t: TokenizerName): (rows: seq<Row>)
    ensures |rows| == |policies|
  {
    seq(|policies|, i requires 0 <= i < |policies| => MatrixRow(tb, d, policies[i], t))
  }

  /** The cross join of the selected documents and policies. */
  ghost function Matrix(tb: Tables, docs: seq<int>, policies: seq<string>, t: TokenizerName): seq<Row> {
    if docs == [] then []
    else Matrix(tb, docs[..|docs| - 1], policies, t) + DocumentRows(tb, docs[|docs| - 1], policies, t)
  }

  lemma {:induction false} MatrixSize(tb: Tables, docs: seq<int>, policies: seq<string>, t: TokenizerName)
    ensures |Matrix(tb, docs, policies, t)| == |policies| * |docs|
  {
    if docs == [] {
      assert Matrix(tb, docs, policies, t) == [];
    } else {
      var init := docs[..|docs| - 1];
      assert |docs| == |init| + 1;
      MatrixSize(tb, docs[..|docs| - 1], policies, t);
      OneMore(|policies|, |docs| - 1);
    }
  }

  ghost predicate IsRowOf(tb: Tables, d: int, policies: seq<string>, t: TokenizerName, r: Row) {
    exists p :: p in policies && r == MatrixRow(tb, d, p, t)
  }

  /** The rows of the matrix are exactly the rows of its (document, policy) pairs. */
  lemma {:induction false} MatrixMembers(tb: Tables, docs: seq<int>, policies: seq<string>, t: TokenizerName, r: Row)
    ensures r in Matrix(tb, docs, policies, t) <==> exists d :: d in docs && IsRowOf(tb, d, policies, t, r)
  {
    if docs != [] {
      var init, last := docs[..|docs| - 1], docs[|docs| - 1];
      MatrixMembers(tb, init, policies, t, r);
      DocumentRowsMembers(tb, last, policies, t, r);
      assert r in Matrix(tb, docs, policies, t)
        <==> r in Matrix(tb, init, policies, t) || IsRowOf(tb, last, policies, t, r);
      forall d
        ensures d in docs <==> d in init || d == last
      {
        assert docs == init + [last];
      }
    }
  }

  lemma DocumentRowsMembers(tb: Tables, d: int, policies: seq<string>, t: TokenizerName, r: Row)
    ensures r in DocumentRows(tb, d, policies, t) <==> IsRowOf(tb, d, policies, t, r)
  {
    var own := DocumentRows(tb, d, policies, t);
    if r in own {
      var i :| 0 <= i < |own| && own[i] == r;
      assert policies[i] in policies;
    }
    if p :| p in policies && r == MatrixRow(tb, d, p, t) {
      var i :| 0 <= i < |policies| && policies[i] == p;
      assert own[i] == r;
    }
  }

  lemma MatrixShape(tb: Tables, docs: seq<int>, policies: seq<string>, t: TokenizerName)
    ensures var rows := Matrix(tb, docs, policies, t);
      && |rows| == |docs| * |policies|
      && (forall i :: 0 <= i < |rows| ==> rows[i].policy in policies && rows[i].document in docs)
      && (forall d, p :: d in docs && p in policies ==> MatrixRow(tb, d, p, t) in rows)
  {
    var rows := Matrix(tb, docs, policies, t);
    MatrixSize(tb, docs, policies, t);
    forall i | 0 <= i < |rows|
      ensures rows[i].policy in policies && rows[i].document in docs
    {
      MatrixMembers(tb, docs, policies, t, rows[i]);
    }
    forall d, p | d in docs && p in policies
      ensures MatrixRow(tb, d, p, t) in rows
    {
      MatrixMembers(tb, docs, policies, t, MatrixRow(tb, d, p, t));
    }
  }

  /** The counts of documents and policies multiply to the number of rows. */
  lemma DocumentsTimesPolicies(tb: Tables, docs: seq<int>, policies: seq<string>, t: TokenizerName)
    requires Distinct(docs) && Distinct(policies)
    ensures var rows := Matrix(tb, docs, policies, t); |Documents(rows)| * |Names(rows)| == |rows|
  {
    var rows := Matrix(tb, docs, policies, t);
    MatrixShape(tb, docs, policies, t);
    if docs != [] && policies != [] {
      assert Documents(rows) == Elements(docs) by {
        forall d | d in docs ensures d in Documents(rows) {
          var i :| 0 <= i < |rows| && rows[i] == MatrixRow(tb, d, policies[0], t);
          assert rows[i].document == d;
        }
      }
      assert Names(rows) == Elements(policies) by {
        forall p | p in policies ensures p in Names(rows) {
          var i :| 0 <= i < |rows| && rows[i] == MatrixRow(tb, docs[0], p, t);
          assert rows[i].policy == p;
        }
      }
      DistinctSize(docs);
      DistinctSize(policies);
    } else {
      assert rows == [];
      assert Documents(rows) == {};
    }
  }

  // ---------------------------------------------------------------- what a row says

  /** The chunks of ids that have a row of this tokenizer. */
  ghost function Indexed(tb: Tables, t: TokenizerName, ids: set<int>): set<int> {
    set id | id in ids && HasRows(tb.terms, id, t)
  }

  /** The chunks of ids that have none. */
  ghost function Unindexed(tb: Tables, t: TokenizerName, ids: set<int>): set<int> {
    set id | id in ids && !HasRows(tb.terms, id, t)
  }

  /** The rows of this tokenizer for chunks of ids. */
  ghost function RowsOf(tb: Tables, t: TokenizerName, ids: set<int>): set<TermKey> {
    set k | k in tb.terms && k.tokenizer == t && k.chunk in ids
  }

  lemma IndexedOrNot(tb: Tables, t: TokenizerName, ids: set<int>)
    ensures |ids| == |Indexed(tb, t, ids)| + |Unindexed(tb, t, ids)|
  {
    assert ids == Indexed(tb, t, ids) + Unindexed(tb, t, ids);
    assert Indexed(tb, t, ids) !! Unindexed(tb, t, ids);
  }

  lemma CellSets(tb: Tables, d: int, p: string, t: TokenizerName)
    ensures IndexedIds(tb, d, p, t) == Indexed(tb, t, CellIds(tb.chunks, d, p))
    ensures CellTermRows(tb, d, p, t) == RowsOf(tb, t, CellIds(tb.chunks, d, p))
  {
  }

  /** Field by field what the row of a document and a policy says about the tables. */
  lemma MatrixRowSays(tb: Tables, d: int, p: string, t: TokenizerName)
    ensures var r, ids := MatrixRow(tb, d, p, t), CellIds(tb.chunks, d, p);
      && r.document == d && r.policy == p && r.status == Cell(tb, d, p, t)
      && r.chunkCount == |ids|
      && r.indexedChunkCount == |Indexed(tb, t, ids)|
      && r.missingChunkCount == |Unindexed(tb, t, ids)|
      && r.termRowCount == |RowsOf(tb, t, ids)|
      && r.statisticsTermCount == |StatSlice(tb.stats, p, t)|
      && r.statisticsCorpusChunkCount == StatisticsCorpus(tb.stats, p, t)
  {
    CellSets(tb, d, p, t);
    IndexedOrNot(tb, t, CellIds(tb.chunks, d, p));
  }

  /** Every matrix row balances, and shows the status of its cell. */
  lemma MatrixRowsBalance(tb: Tables, d: int, p: string, t: TokenizerName)
    ensures var r := MatrixRow(tb, d, p, t);
      Balanced(r) && r.status == Cell(tb, d, p, t)
  {
    CellSizes(tb, d, p, t);
  }

  // ---------------------------------------------------------------- totals over the matrix

  ghost function SelectedIds(chunks: Chunks, docs: set<int>, policies: set<string>): set<int> {
    set id | id in chunks && chunks[id].document in docs && chunks[id].policy in policies
  }

  /** The items that belong to one of the chunks. */
  ghost function Held<T(!new)>(items: set<T>, chunkOf: T -> int, ids: set<int>): set<T> {
    set x | x in items && chunkOf(x) in ids
  }

  lemma HeldSplits<T(!new)>(items: set<T>, chunkOf: T -> int, a: set<int>, b: set<int>)
    requires a !! b
    ensures |Held(items, chunkOf, a + b)| == |Held(items, chunkOf, a)| + |Held(items, chunkOf, b)|
  {
    assert Held(items, chunkOf, a + b) == Held(items, chunkOf, a) + Held(items, chunkOf, b);
    assert Held(items, chunkOf, a) !! Held(items, chunkOf, b);
  }

  lemma OneMorePolicy(chunks: Chunks, d: int, names: set<string>, p: string)
    requires p !in names
    ensures SelectedIds(chunks, {d}, names + {p}) == SelectedIds(chunks, {d}, names) + CellIds(chunks, d, p)
    ensures SelectedIds(chunks, {d}, names) !! CellIds(chunks, d, p)
  {
  }

  lemma OneMoreDocument(chunks: Chunks, docs: set<int>, d: int, names: set<string>)
    requires d !in docs
    ensures SelectedIds(chunks, docs + {d}, names) == SelectedIds(chunks, docs, names) + SelectedIds(chunks, {d}, names)
    ensures SelectedIds(chunks, docs, names) !! SelectedIds(chunks, {d}, names)
  {
  }

  /** The field counts, in every row, the items of the row's cell. */
  ghost predicate CountsHeld<T(!new)>(tb: Tables, t: TokenizerName, f: Row -> nat, items: set<T>, chunkOf: T -> int) {
    forall d, p :: f(MatrixRow(tb, d, p, t)) == |Held(items, chunkOf, CellIds(tb.chunks, d, p))|
  }

  lemma OneMoreRow(tb: Tables, d: int, policies: seq<string>, t: TokenizerName, f: Row -> nat)
    requires policies != []
    ensures var n := |policies| - 1;
      Total(DocumentRows(tb, d, policies, t), f)
        == Total(DocumentRows(tb, d, policies[..n], t), f) + f(MatrixRow(tb, d, policies[n], t))
  {
    var n := |policies| - 1;
    var rows := DocumentRows(tb, d, policies, t);
    assert rows[..n] == DocumentRows(tb, d, policies[..n], t);
    assert rows[n] == MatrixRow(tb, d, policies[n], t);
  }

  lemma {:induction false} DocumentRowsTotal<T(!new)>(tb: Tables, d: int, policies: seq<string>, t: TokenizerName,
                                                      f: Row -> nat, items: set<T>, chunkOf: T -> int)
    requires Distinct(policies) && CountsHeld(tb, t, f, items, chunkOf)
    ensures Total(DocumentRows(tb, d, policies, t), f)
         == |Held(items, chunkOf, SelectedIds(tb.chunks, {d}, Elements(policies)))|
  {
    if policies == [] {
      assert SelectedIds(tb.chunks, {d}, Elements(policies)) == {};
    } else {
      var n := |policies| - 1;
      DocumentRowsTotal(tb, d, policies[..n], t, f, items, chunkOf);
      ElementsSnoc(policies, n);
      assert policies[..n + 1] == policies;
      OneMoreRow(tb, d, policies, t, f);
      OneMorePolicy(tb.chunks, d, Elements(policies[..n]), policies[n]);
      HeldSplits(items, chunkOf, SelectedIds(tb.chunks, {d}, Elements(policies[..n])),
        CellIds(tb.chunks, d, policies[n]));
    }
  }

  /** A field that counts the items of each cell adds up to the items of the selection. */
  lemma {:induction false} MatrixTotal<T(!new)>(tb: Tables, docs: seq<int>, policies: seq<string>, t: TokenizerName,
                                                f: Row -> nat, items: set<T>, chunkOf: T -> int)
    requires Distinct(docs) && Distinct(policies) && CountsHeld(tb, t, f, items, chunkOf)
    ensures Total(Matrix(tb, docs, policies, t), f)
         == |Held(items, chunkOf, SelectedIds(tb.chunks, Elements(docs), Elements(policies)))|
  {
    var names := Elements(policies);
    if docs == [] {
      assert SelectedIds(tb.chunks, Elements(docs), names) == {};
    } else {
      var n := |docs| - 1;
      MatrixTotal(tb, docs[..n], policies, t, f, items, chunkOf);
      DocumentRowsTotal(tb, docs[n], policies, t, f, items, chunkOf);
      ElementsSnoc(docs, n);
      assert docs[..n + 1] == docs;
      OneMoreDocument(tb.chunks, Elements(docs[..n]), docs[n], names);
      HeldSplits(items, chunkOf, SelectedIds(tb.chunks, Elements(docs[..n]), names),
        SelectedIds(tb.chunks, {docs[n]}, names));
      TotalConcat(Matrix(tb, docs[..n], policies, t), DocumentRows(tb, docs[n], policies, t), f);
    }
  }

  ghost function Same(): int -> int {
    id => id
  }

  /** The chunk total of the matrix is the number of chunks of the selected documents and
      policies: each is counted in exactly one cell. */
  lemma MatrixCountsEveryChunkOnce(tb: Tables, docs: seq<int>, policies: seq<string>, t: TokenizerName)
    requires Distinct(docs) && Distinct(policies)
    ensures ChunkTotal(Matrix(tb, docs, policies, t)) == |SelectedIds(tb.chunks, Elements(docs), Elements(policies))|
  {
    var items, ids := tb.chunks.Keys, SelectedIds(tb.chunks, Elements(docs), Elements(policies));
    forall d, p
      ensures MatrixRow(tb, d, p, t).chunkCount == |Held(items, Same(), CellIds(tb.chunks, d, p))|
    {
      assert Held(items, Same(), CellIds(tb.chunks, d, p)) == CellIds(tb.chunks, d, p);
    }
    MatrixTotal(tb, docs, policies, t, (r: Row) => r.chunkCount, items, Same());
    assert Held(items, Same(), ids) == ids;
  }

  ghost function WithRows(tb: Tables, t: TokenizerName): set<int> {
    set id | id in tb.chunks && HasRows(tb.terms, id, t)
  }

  /** The indexed total is the number of selected chunks that have a row. */
  lemma MatrixCountsIndexedChunks(tb: Tables, docs: seq<int>, policies: seq<string>, t: TokenizerName)
    requires Distinct(docs) && Distinct(policies)
    ensures IndexedTotal(Matrix(tb, docs, policies, t))
         == |Indexed(tb, t, SelectedIds(tb.chunks, Elements(docs), Elements(policies)))|
  {
    var items, ids := WithRows(tb, t), SelectedIds(tb.chunks, Elements(docs), Elements(policies));
    forall d, p
      ensures MatrixRow(tb, d, p, t).indexedChunkCount == |Held(items, Same(), CellIds(tb.chunks, d, p))|
    {
      MatrixRowSays(tb, d, p, t);
      assert Held(items, Same(), CellIds(tb.chunks, d, p)) == Indexed(tb, t, CellIds(tb.chunks, d, p));
    }
    MatrixTotal(tb, docs, policies, t, (r: Row) => r.indexedChunkCount, items, Same());
    assert Held(items, Same(), ids) == Indexed(tb, t, ids);
  }

  /** The missing total is the number of selected chunks that have none. */
  lemma MatrixCountsMissingChunks(tb: Tables, docs: seq<int>, policies: seq<string>, t: TokenizerName)
    requires Distinct(docs) && Distinct(policies)
    ensures MissingTotal(Matrix(tb, docs, policies, t))
         == |Unindexed(tb, t, SelectedIds(tb.chunks, Elements(docs), Elements(policies)))|
  {
    var items, ids := tb.chunks.Keys - WithRows(tb, t), SelectedIds(tb.chunks, Elements(docs), Elements(policies));
    forall d, p
      ensures MatrixRow(tb, d, p, t).missingChunkCount == |Held(items, Same(), CellIds(tb.chunks, d, p))|
    {
      MatrixRowSays(tb, d, p, t);
      HeldUnindexed(tb, t, CellIds(tb.chunks, d, p));
    }
    MatrixTotal(tb, docs, policies, t, (r: Row) => r.missingChunkCount, items, Same());
    HeldUnindexed(tb, t, ids);
  }

  lemma HeldUnindexed(tb: Tables, t: TokenizerName, ids: set<int>)
    requires ids <= tb.chunks.Keys
    ensures Held(tb.chunks.Keys - WithRows(tb, t), Same(), ids) == Unindexed(tb, t, ids)
  {
    forall id
      ensures id in Held(tb.chunks.Keys - WithRows(tb, t), Same(), ids) <==> id in Unindexed(tb, t, ids)
    {
    }
  }

  ghost function OwnerOf(): TermKey -> int {
    (k: TermKey) => k.chunk
  }

  /** The term row total is the number of this tokenizer's rows of selected chunks. */
  lemma MatrixCountsTermRows(tb: Tables, docs: seq<int>, policies: seq<string>, t: TokenizerName)
    requires Distinct(docs) && Distinct(policies)
    ensures TermRowTotal(Matrix(tb, docs, policies, t))
         == |RowsOf(tb, t, SelectedIds(tb.chunks, Elements(docs), Elements(policies)))|
  {
    var ids := SelectedIds(tb.chunks, Elements(docs), Elements(policies));
    var items := set k | k in tb.terms && k.tokenizer == t;
    forall d, p
      ensures MatrixRow(tb, d, p, t).termRowCount == |Held(items, OwnerOf(), CellIds(tb.chunks, d, p))|
    {
      assert Held(items, OwnerOf(), CellIds(tb.chunks, d, p)) == CellTermRows(tb, d, p, t);
    }
    MatrixTotal(tb, docs, policies, t, (r: Row) => r.termRowCount, items, OwnerOf());
    assert Held(items, OwnerOf(), ids) == RowsOf(tb, t, ids);
  }

  // ---------------------------------------------------------------- the summary of one policy

  /** The column of a policy: its row for every selected document. */
  ghost function Column(tb: Tables, docs: seq<int>, p: string, t: TokenizerName): (rows: seq<Row>)
    ensures |rows| == |docs| && forall i :: 0 <= i < |docs| ==> rows[i] == MatrixRow(tb, docs[i], p, t)
  {
    seq(|docs|, i requires 0 <= i < |docs| => MatrixRow(tb, docs[i], p, t))
  }

  lemma {:induction false} OfPolicyConcat(a: seq<Row>, b: seq<Row>, p: string)
    ensures OfPolicy(a + b, p) == OfPolicy(a, p) + OfPolicy(b, p)
  {
    if b == [] {
      assert a + b == a;
    } else {
      var init, last := b[..|b| - 1], b[|b| - 1];
      OfPolicyConcat(a, init, p);
      assert (a + b)[..|a + b| - 1] == a + init && (a + b)[|a + b| - 1] == last;
    }
  }

  lemma {:induction false} OfPolicyInDocument(tb: Tables, d: int, policies: seq<string>, t: TokenizerName, p: string)
    requires Distinct(policies)
    ensures OfPolicy(DocumentRows(tb, d, policies, t), p) == if p in policies then [MatrixRow(tb, d, p, t)] else []
  {
    if policies != [] {
      var n := |policies| - 1;
      OfPolicyInDocument(tb, d, policies[..n], t, p);
      ElementsSnoc(policies, n);
      PrefixSnoc(policies, n);
      assert policies[..n + 1] == policies;
      DocumentRowsSnoc(tb, d, policies, t);
      OfPolicySnoc(DocumentRows(tb, d, policies[..n], t), MatrixRow(tb, d, policies[n], t), p);
    }
  }

  lemma DocumentRowsSnoc(tb: Tables, d: int, policies: seq<string>, t: TokenizerName)
    requires policies != []
    ensures var n := |policies| - 1;
      DocumentRows(tb, d, policies, t) == DocumentRows(tb, d, policies[..n], t) + [MatrixRow(tb, d, policies[n], t)]
  {
  }

  lemma OfPolicySnoc(rows: seq<Row>, r: Row, p: string)
    ensures OfPolicy(rows + [r], p) == OfPolicy(rows, p) + if r.policy == p then [r] else []
  {
    assert (rows + [r])[..|rows|] == rows;
  }

  lemma ColumnSnoc(tb: Tables, docs: seq<int>, p: string, t: TokenizerName)
    requires docs != []
    ensures var n := |docs| - 1; Column(tb, docs, p, t) == Column(tb, docs[..n], p, t) + [MatrixRow(tb, docs[n], p, t)]
  {
  }

  /** Grouping the matrix by policy gives the columns. */
  lemma {:induction false} OfPolicyInMatrix(tb: Tables, docs: seq<int>, policies: seq<string>, t: TokenizerName,
                                            p: string)
    requires Distinct(policies) && p in policies
    ensures OfPolicy(Matrix(tb, docs, policies, t), p) == Column(tb, docs, p, t)
  {
    if docs != [] {
      var n := |docs| - 1;
      OfPolicyInMatrix(tb, docs[..n], policies, t, p);
      OfPolicyInDocument(tb, docs[n], policies, t, p);
      OfPolicyConcat(Matrix(tb, docs[..n], policies, t), DocumentRows(tb, docs[n], policies, t), p);
      ColumnSnoc(tb, docs, p, t);
    }
  }

  ghost function DocsWhere(docs: seq<int>, q: int -> bool): set<int> {
    set d | d in docs && q(d)
  }

  /** Counting the rows of a column that satisfy a test counts documents. */
  lemma {:induction false} ColumnCount(docs: seq<int>, rows: seq<Row>, f: Row -> nat, q: int -> bool)
    requires |rows| == |docs| && Distinct(docs)
    requires forall i :: 0 <= i < |docs| ==> f(rows[i]) == if q(docs[i]) then 1 else 0
    ensures Total(rows, f) == |DocsWhere(docs, q)|
  {
    if docs == [] {
      assert DocsWhere(docs, q) == {};
    } else {
      var n := |docs| - 1;
      ColumnCount(docs[..n], rows[..n], f, q);
      DocsWhereSnoc(docs, q);
    }
  }

  lemma DocsWhereSnoc(docs: seq<int>, q: int -> bool)
    requires docs != [] && Distinct(docs)
    ensures var n := |docs| - 1; |DocsWhere(docs, q)| == |DocsWhere(docs[..n], q)| + if q(docs[n]) then 1 else 0
  {
    var n := |docs| - 1;
    var init, last := docs[..n], docs[n];
    assert docs == init + [last];
    assert last !in init;
    var before := DocsWhere(init, q);
    if q(last) {
      assert DocsWhere(docs, q) == before + {last};
      assert last !in before;
    } else {
      assert DocsWhere(docs, q) == before;
    }
  }

  ghost function Reads(tb: Tables, p: string, t: TokenizerName, s: CellStatus): int -> bool {
    d => Cell(tb, d, p, t) == s
  }

  lemma ColumnStatus(tb: Tables, docs: seq<int>, p: string, t: TokenizerName, s: CellStatus)
    requires Distinct(docs)
    ensures CountStatus(Column(tb, docs, p, t), s) == |DocsWhere(docs, Reads(tb, p, t, s))|
  {
    forall i | 0 <= i < |docs|
      ensures HasStatus(s)(Column(tb, docs, p, t)[i]) == if Reads(tb, p, t, s)(docs[i]) then 1 else 0
    {
      MatrixRowsBalance(tb, docs[i], p, t);
    }
    ColumnCount(docs, Column(tb, docs, p, t), HasStatus(s), Reads(tb, p, t, s));
  }

  /** The status counts of a policy's summary are the numbers of selected documents whose
      cell reads so. */
  lemma SummaryCountsCells(tb: Tables, docs: seq<int>, policies: seq<string>, t: TokenizerName, p: string)
    requires Distinct(docs) && Distinct(policies) && p in policies
    ensures var s := SummaryOf(Matrix(tb, docs, policies, t), p);
      && s.policy == p && s.documentCount == |docs|
      && s.completeDocumentCount == |DocsWhere(docs, Reads(tb, p, t, Complete))|
      && s.partialDocumentCount == |DocsWhere(docs, Reads(tb, p, t, Partial))|
      && s.missingDocumentCount == |DocsWhere(docs, Reads(tb, p, t, Missing))|
      && s.staleDocumentCount == |DocsWhere(docs, Reads(tb, p, t, Stale))|
      && s.notChunkedDocumentCount == |DocsWhere(docs, Reads(tb, p, t, NotChunked))|
  {
    OfPolicyInMatrix(tb, docs, policies, t, p);
    ColumnStatus(tb, docs, p, t, Complete);
    ColumnStatus(tb, docs, p, t, Partial);
    ColumnStatus(tb, docs, p, t, Missing);
    ColumnStatus(tb, docs, p, t, Stale);
    ColumnStatus(tb, docs, p, t, NotChunked);
  }

  lemma ColumnMax(rows: seq<Row>, f: Row -> nat, value: nat)
    requires rows != [] && forall i :: 0 <= i < |rows| ==> f(rows[i]) == value
    ensures Max(rows, f) == value
  {
    MaxIsTheLargest(rows, f);
  }

  /** The statistics of a policy's summary are the policy's own: the number of its rows and
      their chunk count. */
  lemma SummaryShowsStatistics(tb: Tables, docs: seq<int>, policies: seq<string>, t: TokenizerName, p: string)
    requires docs != [] && Distinct(policies) && p in policies
    ensures var s := SummaryOf(Matrix(tb, docs, policies, t), p);
      && s.statisticsTermCount == |StatSlice(tb.stats, p, t)|
      && s.statisticsCorpusChunkCount == StatisticsCorpus(tb.stats, p, t)
  {
    OfPolicyInMatrix(tb, docs, policies, t, p);
    var rows := Column(tb, docs, p, t);
    ColumnMax(rows, (r: Row) => r.statisticsTermCount, |StatSlice(tb.stats, p, t)|);
    ColumnMax(rows, (r: Row) => r.statisticsCorpusChunkCount, StatisticsCorpus(tb.stats, p, t));
  }

  /** The chunk counts of a policy's summary are those of its selected chunks. */
  lemma SummaryCountsChunks(tb: Tables, docs: seq<int>, policies: seq<string>, t: TokenizerName, p: string)
    requires Distinct(docs) && Distinct(policies) && p in policies
    ensures var s, ids := SummaryOf(Matrix(tb, docs, policies, t), p), SelectedIds(tb.chunks, Elements(docs), {p});
      && s.totalChunkCount == |ids|
      && s.indexedChunkCount == |Indexed(tb, t, ids)|
      && s.missingChunkCount == |Unindexed(tb, t, ids)|
      && s.termRowCount == |RowsOf(tb, t, ids)|
  {
    OfPolicyInMatrix(tb, docs, policies, t, p);
    ColumnCountsChunks(tb, docs, t, p);
    ColumnCountsRows(tb, docs, t, p);
  }

  lemma ColumnCountsChunks(tb: Tables, docs: seq<int>, t: TokenizerName, p: string)
    requires Distinct(docs)
    ensures var rows, ids := Column(tb, docs, p, t), SelectedIds(tb.chunks, Elements(docs), {p});
      ChunkTotal(rows) == |ids| && IndexedTotal(rows) == |Indexed(tb, t, ids)|
  {
    OnlyPolicy(tb, docs, t, p);
    assert Elements([p]) == {p};
    MatrixCountsEveryChunkOnce(tb, docs, [p], t);
    MatrixCountsIndexedChunks(tb, docs, [p], t);
  }

  lemma ColumnCountsRows(tb: Tables, docs: seq<int>, t: TokenizerName, p: string)
    requires Distinct(docs)
    ensures var rows, ids := Column(tb, docs, p, t), SelectedIds(tb.chunks, Elements(docs), {p});
      MissingTotal(rows) == |Unindexed(tb, t, ids)| && TermRowTotal(rows) == |RowsOf(tb, t, ids)|
  {
    OnlyPolicy(tb, docs, t, p);
    assert Elements([p]) == {p};
    MatrixCountsMissingChunks(tb, docs, [p], t);
    MatrixCountsTermRows(tb, docs, [p], t);
  }

  lemma {:induction false} OnlyPolicy(tb: Tables, docs: seq<int>, t: TokenizerName, p: string)
    ensures Matrix(tb, docs, [p], t) == Column(tb, docs, p, t)
  {
    if docs != [] {
      var n := |docs| - 1;
      OnlyPolicy(tb, docs[..n], t, p);
      assert DocumentRows(tb, docs[n], [p], t) == [MatrixRow(tb, docs[n], p, t)];
      ColumnSnoc(tb, docs, p, t);
    }
  }

  // ---------------------------------------------------------------- the statistics total

  lemma {:induction false} StatisticsTermsAddUp(policies: seq<PolicySummary>)
    ensures StatisticsTerms(policies) == PolicyTotal(policies, (s: PolicySummary) => s.statisticsTermCount)
  {
    if policies != [] { StatisticsTermsAddUp(policies[..|policies| - 1]); }
  }

  ghost function PolicyOf(): StatKey -> string {
    (k: StatKey) => k.policy
  }

  ghost function SelectedStatistics(stats: StatTable, policies: set<string>, t: TokenizerName): set<StatKey> {
    set k | k in stats && k.policy in policies && k.tokenizer == t
  }

  /** The statistics total of the overall summary is the number of this tokenizer's
      statistics rows of the selected policies. */
  lemma SummaryCountsStatistics(tb: Tables, docs: seq<int>, policies: seq<string>, t: TokenizerName,
                                summaries: seq<PolicySummary>)
    requires docs != [] && Distinct(docs) && Distinct(policies)
    requires var rows := Matrix(tb, docs, policies, t); SummarizesEachPolicy(summaries, rows, Names(rows))
    ensures StatisticsTerms(summaries) == |SelectedStatistics(tb.stats, Elements(policies), t)|
  {
    var rows, names := Matrix(tb, docs, policies, t), Elements(policies);
    MatrixNames(tb, docs, policies, t);
    SummarizedNamesAreDistinct(summaries, rows, names);
    StatisticsTermsAddUp(summaries);
    var h := p => |StatSlice(tb.stats, p, t)|;
    forall i | 0 <= i < |summaries|
      ensures summaries[i].statisticsTermCount == h(summaries[i].policy)
    {
      SummaryShowsStatistics(tb, docs, policies, t, summaries[i].policy);
    }
    PolicyTotalIsSumOver(summaries, (s: PolicySummary) => s.statisticsTermCount, h);
    StatisticsByPolicy(tb.stats, names, t, h);
  }

  lemma StatisticsByPolicy(stats: StatTable, names: set<string>, t: TokenizerName, h: string -> int)
    requires forall p :: h(p) == |StatSlice(stats, p, t)|
    ensures SumOver(names, h) == |SelectedStatistics(stats, names, t)|
  {
    var keys := SelectedStatistics(stats, names, t);
    forall p | p in names
      ensures h(p) == |Fibre(keys, PolicyOf(), p)|
    {
      assert Fibre(keys, PolicyOf(), p) == StatSlice(stats, p, t).Keys;
    }
    FibresAddUp(keys, PolicyOf(), names, h);
  }

  lemma MatrixNames(tb: Tables, docs: seq<int>, policies: seq<string>, t: TokenizerName)
    requires docs != []
    ensures Names(Matrix(tb, docs, policies, t)) == Elements(policies)
  {
    var rows := Matrix(tb, docs, policies, t);
    MatrixShape(tb, docs, policies, t);
    forall p | p in policies
      ensures p in Names(rows)
    {
      assert docs[0] in docs;
      var i :| 0 <= i < |rows| && rows[i] == MatrixRow(tb, docs[0], p, t);
      assert rows[i].policy == p;
    }
  }
}
