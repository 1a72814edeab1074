/** What a refresh promises about the tables: the refreshed slice is the from-scratch
    count, every other slice is untouched exactly when no row is misfiled, refreshing is
    idempotent and the order of refreshes does not matter. */
module RefreshLaws {
  import opened KeywordIndex

  // ---------------------------------------------------------------- pointwise view

  lemma RefreshedTermAt(e: Engine, tb: Tables, p: string, t: TokenizerName, k: TermKey)
    requires Refreshable(e, tb.chunks, p, t)
    ensures var ids, after := PolicyIds(tb.chunks, p), Refreshed(e, tb, p, t).terms;
      if k in TermKeys(e, tb.chunks, ids, t) then
        k in after && after[k] == TermRow(p, multiset(ChunkTokens(e, tb.chunks, t, k.chunk))[k.term])
      else
        && (k in after <==> k in tb.terms && !Overwritten(e, tb.terms, tb.chunks, ids, p, t, k))
        && (k in after ==> after[k] == tb.terms[k])
  {
    RebuiltAt(e, tb.terms, tb.chunks, PolicyIds(tb.chunks, p), p, t, k);
  }

  lemma RefreshedStatAt(e: Engine, tb: Tables, p: string, t: TokenizerName, k: StatKey)
    requires Refreshable(e, tb.chunks, p, t)
    ensures var ids, after := PolicyIds(tb.chunks, p), Refreshed(e, tb, p, t).stats;
      if k.policy == p && k.tokenizer == t then
        && (k in after <==> k.term in Vocabulary(e, tb.chunks, ids, t))
        && (k in after ==> after[k] == StatRow(|Containing(e, tb.chunks, ids, t, k.term)|, |ids|,
                                               PolicyAverage(e, tb.chunks, p, t).tenThousandths))
      else
        (k in after <==> k in tb.stats) && (k in after ==> after[k] == tb.stats[k])
  {
    CountedStatAt(e, tb.chunks, p, t, PolicyAverage(e, tb.chunks, p, t).tenThousandths, k);
  }

  // ---------------------------------------------------------------- the slice is exact

  /** The rows filed under one policy and tokenizer. */
  ghost function TermSlice(terms: TermTable, p: string, t: TokenizerName): TermTable {
    map k | k in terms && k.tokenizer == t && terms[k].policy == p :: terms[k]
  }

  ghost function StatSlice(stats: StatTable, p: string, t: TokenizerName): StatTable {
    map k | k in stats && k.policy == p && k.tokenizer == t :: stats[k]
  }

  /** From any tables at all, a refresh leaves in its slice exactly the from-scratch count
      of the policy's chunks. */
  lemma RefreshedSliceIsTheCount(e: Engine, tb: Tables, p: string, t: TokenizerName)
    requires Refreshable(e, tb.chunks, p, t)
    ensures var after := Refreshed(e, tb, p, t);
      && TermSlice(after.terms, p, t) == CountedTerms(e, tb.chunks, PolicyIds(tb.chunks, p), p, t)
      && StatSlice(after.stats, p, t) == CountedStats(e, tb.chunks, p, t,
        PolicyAverage(e, tb.chunks, p, t).tenThousandths)
  {
    TermSliceIsTheCount(e, tb, p, t);
    StatSliceIsTheCount(e, tb, p, t);
  }

  lemma TermSliceIsTheCount(e: Engine, tb: Tables, p: string, t: TokenizerName)
    requires Refreshable(e, tb.chunks, p, t)
    ensures TermSlice(Refreshed(e, tb, p, t).terms, p, t) == CountedTerms(e, tb.chunks, PolicyIds(tb.chunks, p), p, t)
  {
    var a, b := TermSlice(Refreshed(e, tb, p, t).terms, p, t),
      CountedTerms(e, tb.chunks, PolicyIds(tb.chunks, p), p, t);
    forall k: TermKey
      ensures k in a <==> k in b
      ensures k in a ==> a[k] == b[k]
    {
      RefreshedTermAt(e, tb, p, t, k);
    }
    SameTable(a, b);
  }

  lemma StatSliceIsTheCount(e: Engine, tb: Tables, p: string, t: TokenizerName)
    requires Refreshable(e, tb.chunks, p, t)
    ensures StatSlice(Refreshed(e, tb, p, t).stats, p, t)
         == CountedStats(e, tb.chunks, p, t, PolicyAverage(e, tb.chunks, p, t).tenThousandths)
  {
    var average := PolicyAverage(e, tb.chunks, p, t).tenThousandths;
    var a, b := StatSlice(Refreshed(e, tb, p, t).stats, p, t), CountedStats(e, tb.chunks, p, t, average);
    forall k: StatKey
      ensures k in a <==> k in b
      ensures k in a ==> a[k] == b[k]
    {
      RefreshedStatAt(e, tb, p, t, k);
      CountedStatAt(e, tb.chunks, p, t, average, k);
    }
    SameTable(a, b);
  }

  // ---------------------------------------------------------------- the frame

  /** A row of this tokenizer filed under another policy although its chunk belongs to p
      and has tokens: the per-chunk delete will take it. */
  ghost predicate Misfiled(e: Engine, tb: Tables, p: string, t: TokenizerName, k: TermKey) {
    && k in tb.terms && k.tokenizer == t && tb.terms[k].policy != p
    && k.chunk in PolicyIds(tb.chunks, p) && ChunkTokens(e, tb.chunks, t, k.chunk) != []
  }

  /** A refresh leaves all other term slices as they were if and only if no row is
      misfiled; it always leaves the other statistics slices as they were. */
  lemma RefreshFrame(e: Engine, tb: Tables, p: string, t: TokenizerName)
    requires Refreshable(e, tb.chunks, p, t)
    ensures var after := Refreshed(e, tb, p, t);
      && (DeletePolicyTerms(after.terms, p, t) == DeletePolicyTerms(tb.terms, p, t)
          <==> forall k :: k in tb.terms ==> !Misfiled(e, tb, p, t, k))
      && DeletePolicyStats(after.stats, p, t) == DeletePolicyStats(tb.stats, p, t)
  {
    StatFrame(e, tb, p, t);
    if forall k :: k in tb.terms ==> !Misfiled(e, tb, p, t, k) {
      TermFrame(e, tb, p, t);
    } else {
      var k :| k in tb.terms && Misfiled(e, tb, p, t, k);
      MisfiledRowIsLost(e, tb, p, t, k);
    }
  }

  lemma MisfiledRowIsLost(e: Engine, tb: Tables, p: string, t: TokenizerName, k: TermKey)
    requires Refreshable(e, tb.chunks, p, t) && Misfiled(e, tb, p, t, k)
    ensures k in DeletePolicyTerms(tb.terms, p, t)
    ensures k !in DeletePolicyTerms(Refreshed(e, tb, p, t).terms, p, t)
  {
    RefreshedTermAt(e, tb, p, t, k);
  }

  lemma TermFrame(e: Engine, tb: Tables, p: string, t: TokenizerName)
    requires Refreshable(e, tb.chunks, p, t)
    requires forall k :: k in tb.terms ==> !Misfiled(e, tb, p, t, k)
    ensures DeletePolicyTerms(Refreshed(e, tb, p, t).terms, p, t) == DeletePolicyTerms(tb.terms, p, t)
  {
    var a, b := DeletePolicyTerms(Refreshed(e, tb, p, t).terms, p, t), DeletePolicyTerms(tb.terms, p, t);
    forall k: TermKey
      ensures k in a <==> k in b
      ensures k in a ==> a[k] == b[k]
    {
      RefreshedTermAt(e, tb, p, t, k);
    }
    SameTable(a, b);
  }

  lemma StatFrame(e: Engine, tb: Tables, p: string, t: TokenizerName)
    requires Refreshable(e, tb.chunks, p, t)
    ensures DeletePolicyStats(Refreshed(e, tb, p, t).stats, p, t) == DeletePolicyStats(tb.stats, p, t)
  {
    var a, b := DeletePolicyStats(Refreshed(e, tb, p, t).stats, p, t), DeletePolicyStats(tb.stats, p, t);
    forall k: StatKey
      ensures k in a <==> k in b
      ensures k in a ==> a[k] == b[k]
    {
      RefreshedStatAt(e, tb, p, t, k);
    }
    SameTable(a, b);
  }

  /** Where every row is filed under its chunk's policy nothing is misfiled. */
  lemma FiledRowsAreSafe(e: Engine, tb: Tables, p: string, t: TokenizerName)
    requires Refreshable(e, tb.chunks, p, t) && Filed(tb)
    ensures DeletePolicyTerms(Refreshed(e, tb, p, t).terms, p, t) == DeletePolicyTerms(tb.terms, p, t)
  {
    RefreshFrame(e, tb, p, t);
  }

  // ---------------------------------------------------------------- invariants

  /** A refresh keeps the foreign keys and, where it held, the filing invariant. */
  lemma RefreshKeepsInvariants(e: Engine, tb: Tables, p: string, t: TokenizerName)
    requires Refreshable(e, tb.chunks, p, t) && WellFormed(tb)
    ensures WellFormed(Refreshed(e, tb, p, t))
    ensures Filed(tb) ==> Filed(Refreshed(e, tb, p, t))
  {
    var after := Refreshed(e, tb, p, t);
    forall k | k in after.terms
      ensures k.chunk in tb.chunks && after.terms[k].policy in tb.policies
      ensures Filed(tb) ==> after.terms[k].policy == tb.chunks[k.chunk].policy
    {
      RefreshedTermAt(e, tb, p, t, k);
      assert k in TermKeys(e, tb.chunks, PolicyIds(tb.chunks, p), t) ==> k.chunk in PolicyIds(tb.chunks, p);
    }
    forall k | k in after.stats
      ensures k.policy in tb.policies
    {
      RefreshedStatAt(e, tb, p, t, k);
      if k.policy == p && k.tokenizer == t {
        var id :| id in PolicyIds(tb.chunks, p) && k.term in ChunkTokens(e, tb.chunks, t, id);
      }
    }
  }

  /** Rewriting one chunk keeps the filing invariant exactly when it files the rows under
      the chunk's own policy, or writes none. */
  lemma RewriteKeepsFiling(e: Engine, tb: Tables, id: int, p: string, t: TokenizerName, text: string)
    requires Filed(tb) && id in tb.chunks
    ensures Filed(tb.(terms := WrittenTerms(tb.terms, id, p, t, Tokens(e, t, text))))
       <==> Tokens(e, t, text) == [] || p == tb.chunks[id].policy
  {
    var tokens := Tokens(e, t, text);
    if tokens == [] || p == tb.chunks[id].policy {
      OwnRewriteStaysFiled(tb, id, p, t, tokens);
    } else {
      WrittenAt(tb.terms, id, p, t, tokens, TermKey(id, t, tokens[0]));
      assert TermKey(id, t, tokens[0]) in WrittenTerms(tb.terms, id, p, t, tokens);
    }
  }

  lemma OwnRewriteStaysFiled(tb: Tables, id: int, p: string, t: TokenizerName, tokens: seq<string>)
    requires Filed(tb) && id in tb.chunks && (tokens == [] || p == tb.chunks[id].policy)
    ensures Filed(tb.(terms := WrittenTerms(tb.terms, id, p, t, tokens)))
  {
    var after := WrittenTerms(tb.terms, id, p, t, tokens);
    forall k | k in after
      ensures k.chunk in tb.chunks && after[k].policy == tb.chunks[k.chunk].policy
    {
      WrittenAt(tb.terms, id, p, t, tokens, k);
    }
  }

  // ---------------------------------------------------------------- idempotence, order

  /** Refreshing a slice twice is refreshing it once. */
  lemma RefreshIsIdempotent(e: Engine, tb: Tables, p: string, t: TokenizerName)
    requires Refreshable(e, tb.chunks, p, t)
    ensures Refreshed(e, Refreshed(e, tb, p, t), p, t) == Refreshed(e, tb, p, t)
  {
    var once := Refreshed(e, tb, p, t);
    var twice := Refreshed(e, once, p, t);
    forall k: TermKey
      ensures k in twice.terms <==> k in once.terms
      ensures k in twice.terms ==> twice.terms[k] == once.terms[k]
    {
      RefreshedTermAt(e, tb, p, t, k);
      RefreshedTermAt(e, once, p, t, k);
    }
    forall k: StatKey
      ensures k in twice.stats <==> k in once.stats
      ensures k in twice.stats ==> twice.stats[k] == once.stats[k]
    {
      RefreshedStatAt(e, tb, p, t, k);
      RefreshedStatAt(e, once, p, t, k);
    }
    SameTable(twice.terms, once.terms);
    SameTable(twice.stats, once.stats);
  }

  /** Refreshes of different slices commute, misfiled rows or not. */
  lemma RefreshesCommute(e: Engine, tb: Tables, p: string, t: TokenizerName, p': string, t': TokenizerName)
    requires Refreshable(e, tb.chunks, p, t) && Refreshable(e, tb.chunks, p', t')
    requires p != p' || t != t'
    ensures Refreshed(e, Refreshed(e, tb, p, t), p', t') == Refreshed(e, Refreshed(e, tb, p', t'), p, t)
  {
    var one, other := Refreshed(e, tb, p, t), Refreshed(e, tb, p', t');
    var a, b := Refreshed(e, one, p', t'), Refreshed(e, other, p, t);
    forall k: TermKey
      ensures k in a.terms <==> k in b.terms
      ensures k in a.terms ==> a.terms[k] == b.terms[k]
    {
      CommuteAt(e, tb, p, t, p', t', k);
    }
    forall k: StatKey
      ensures k in a.stats <==> k in b.stats
      ensures k in a.stats ==> a.stats[k] == b.stats[k]
    {
      RefreshedStatAt(e, tb, p, t, k);
      RefreshedStatAt(e, tb, p', t', k);
      RefreshedStatAt(e, one, p', t', k);
      RefreshedStatAt(e, other, p, t, k);
    }
    SameTable(a.terms, b.terms);
    SameTable(a.stats, b.stats);
  }

  lemma CommuteAt(e: Engine, tb: Tables, p: string, t: TokenizerName, p': string, t': TokenizerName, k: TermKey)
    requires Refreshable(e, tb.chunks, p, t) && Refreshable(e, tb.chunks, p', t')
    requires p != p' || t != t'
    ensures var a, b := Refreshed(e, Refreshed(e, tb, p, t), p', t').terms,
      Refreshed(e, Refreshed(e, tb, p', t'), p, t).terms;
      (k in a <==> k in b) && (k in a ==> a[k] == b[k])
  {
    var one, other := Refreshed(e, tb, p, t), Refreshed(e, tb, p', t');
    RefreshedTermAt(e, tb, p, t, k);
    RefreshedTermAt(e, tb, p', t', k);
    RefreshedTermAt(e, one, p', t', k);
    RefreshedTermAt(e, other, p, t, k);
  }
}
