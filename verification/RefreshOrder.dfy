/** Refreshing many policies: what is left in every slice, and why the order is free. */
module RefreshOrder {
  import opened Collections
  import opened KeywordIndex
  import opened RefreshLaws

  /** One refresh in its own transaction: committed, or rolled back. */
  ghost function Attempt(e: Engine, tb: Tables, p: string, t: TokenizerName): Tables {
    if Refreshable(e, tb.chunks, p, t) then Refreshed(e, tb, p, t) else tb
  }

  ghost function AttemptAll(e: Engine, tb: Tables, ps: seq<string>, t: TokenizerName): Tables
    decreases |ps|
  {
    if ps == [] then tb else AttemptAll(e, Attempt(e, tb, ps[0], t), ps[1..], t)
  }

  lemma {:induction false} AttemptAllSnoc(e: Engine, tb: Tables, ps: seq<string>, p: string, t: TokenizerName)
    ensures AttemptAll(e, tb, ps + [p], t) == Attempt(e, AttemptAll(e, tb, ps, t), p, t)
    decreases |ps|
  {
    if ps == [] {
      assert ps + [p] == [p] && [p][1..] == [];
    } else {
      assert (ps + [p])[1..] == ps[1..] + [p];
      AttemptAllSnoc(e, Attempt(e, tb, ps[0], t), ps[1..], p, t);
    }
  }

  // ---------------------------------------------------------------- order is free

  lemma AttemptsCommute(e: Engine, tb: Tables, p: string, q: string, t: TokenizerName)
    ensures Attempt(e, Attempt(e, tb, p, t), q, t) == Attempt(e, Attempt(e, tb, q, t), p, t)
  {
    if p != q && Refreshable(e, tb.chunks, p, t) && Refreshable(e, tb.chunks, q, t) {
      RefreshesCommute(e, tb, p, t, q, t);
    }
  }

  lemma DropLater(qs: seq<string>, i: nat)
    requires 0 < i < |qs|
    ensures var rest := qs[..i] + qs[i + 1..];
      rest[0] == qs[0] && rest[1..] == qs[1..][..i - 1] + qs[1..][i..] && qs[1..][i - 1] == qs[i]
  {
  }

  lemma {:induction false} AnyOneFirst(e: Engine, tb: Tables, qs: seq<string>, i: nat, t: TokenizerName)
    requires i < |qs|
    ensures AttemptAll(e, tb, qs, t) == AttemptAll(e, Attempt(e, tb, qs[i], t), qs[..i] + qs[i + 1..], t)
    decreases i
  {
    if i == 0 {
      assert qs[..0] + qs[1..] == qs[1..];
    } else {
      var first := Attempt(e, tb, qs[0], t);
      AnyOneFirst(e, first, qs[1..], i - 1, t);
      AttemptsCommute(e, tb, qs[0], qs[i], t);
      DropLater(qs, i);
    }
  }

  /** Any two orders of refreshing the same set of policies end in the same tables. */
  lemma {:induction false} OrderIsIrrelevant(e: Engine, tb: Tables, ps: seq<string>, qs: seq<string>, t: TokenizerName)
    requires Distinct(ps) && Distinct(qs) && Elements(ps) == Elements(qs)
    ensures AttemptAll(e, tb, ps, t) == AttemptAll(e, tb, qs, t)
    decreases |ps|
  {
    DistinctSize(ps);
    DistinctSize(qs);
    if ps != [] {
      assert ps[0] in Elements(ps);
      var i :| 0 <= i < |qs| && qs[i] == ps[0];
      AnyOneFirst(e, tb, qs, i, t);
      SameRest(ps, qs, i);
      var rest := qs[..i] + qs[i + 1..];
      OrderIsIrrelevant(e, Attempt(e, tb, ps[0], t), ps[1..], rest, t);
    }
  }

  lemma SameRest(ps: seq<string>, qs: seq<string>, i: nat)
    requires Distinct(ps) && Distinct(qs) && Elements(ps) == Elements(qs)
    requires ps != [] && i < |qs| && qs[i] == ps[0]
    ensures var rest := qs[..i] + qs[i + 1..]; Distinct(rest) && Elements(ps[1..]) == Elements(rest)
  {
    var rest := qs[..i] + qs[i + 1..];
    forall x
      ensures x in ps[1..] <==> x in rest
    {
      if x in ps[1..] {
        assert x in Elements(ps) && x != ps[0];
        var j :| 0 <= j < |qs| && qs[j] == x;
        assert rest[if j < i then j else j - 1] == x;
      }
      if x in rest {
        var j :| 0 <= j < |rest| && rest[j] == x;
        assert x == qs[if j < i then j else j + 1] && x in Elements(qs);
        var m :| 0 <= m < |ps| && ps[m] == x;
        assert ps[1..][m - 1] == x;
      }
    }
  }

  // ---------------------------------------------------------------- one other slice

  /** What a committed refresh does to a row of another slice: it stays, unless it is
      misfiled among the refreshed policy's chunks; and no row joins the slice. */
  lemma OtherSliceRow(e: Engine, tb: Tables, p: string, t: TokenizerName, q: string, u: TokenizerName, k: TermKey)
    requires Refreshable(e, tb.chunks, p, t) && (q != p || u != t)
    ensures var before, after := TermSlice(tb.terms, q, u), TermSlice(Refreshed(e, tb, p, t).terms, q, u);
      && (k in after <==> k in before && !Misfiled(e, tb, p, t, k))
      && (k in after ==> after[k] == before[k])
  {
    RefreshedTermAt(e, tb, p, t, k);
  }

  /** A refresh of another slice leaves a filed slice alone. */
  lemma OtherSliceKept(e: Engine, tb: Tables, p: string, t: TokenizerName, q: string, u: TokenizerName)
    requires Refreshable(e, tb.chunks, p, t) && Filed(tb) && (q != p || u != t)
    ensures TermSlice(Refreshed(e, tb, p, t).terms, q, u) == TermSlice(tb.terms, q, u)
    ensures StatSlice(Refreshed(e, tb, p, t).stats, q, u) == StatSlice(tb.stats, q, u)
  {
    var a, b := TermSlice(Refreshed(e, tb, p, t).terms, q, u), TermSlice(tb.terms, q, u);
    forall k: TermKey
      ensures k in a <==> k in b
      ensures k in a ==> a[k] == b[k]
    {
      OtherSliceRow(e, tb, p, t, q, u, k);
    }
    SameTable(a, b);
    OtherStatsKept(e, tb, p, t, q, u);
  }

  lemma OtherStatsKept(e: Engine, tb: Tables, p: string, t: TokenizerName, q: string, u: TokenizerName)
    requires Refreshable(e, tb.chunks, p, t) && (q != p || u != t)
    ensures StatSlice(Refreshed(e, tb, p, t).stats, q, u) == StatSlice(tb.stats, q, u)
  {
    var a, b := StatSlice(Refreshed(e, tb, p, t).stats, q, u), StatSlice(tb.stats, q, u);
    forall k: StatKey
      ensures k in a <==> k in b
      ensures k in a ==> a[k] == b[k]
    {
      RefreshedStatAt(e, tb, p, t, k);
    }
    SameTable(a, b);
  }

  // ---------------------------------------------------------------- exact slices

  /** The slice holds exactly the from-scratch count of the policy's chunks. */
  ghost predicate SliceExact(e: Engine, tb: Tables, p: string, t: TokenizerName) {
    && TermSlice(tb.terms, p, t) == CountedTerms(e, tb.chunks, PolicyIds(tb.chunks, p), p, t)
    && PolicyAverage(e, tb.chunks, p, t).Value?
    && StatSlice(tb.stats, p, t) == CountedStats(e, tb.chunks, p, t, PolicyAverage(e, tb.chunks, p, t).tenThousandths)
  }

  lemma RefreshedSliceIsExact(e: Engine, tb: Tables, p: string, t: TokenizerName)
    requires Refreshable(e, tb.chunks, p, t)
    ensures SliceExact(e, Refreshed(e, tb, p, t), p, t)
  {
    RefreshedSliceIsTheCount(e, tb, p, t);
  }

  /** The rows of an exact slice belong to chunks of its policy, so no refresh of another
      policy takes any of them. */
  lemma ExactRowIsNotMisfiled(e: Engine, tb: Tables, p: string, t: TokenizerName, q: string, u: TokenizerName,
                              k: TermKey)
    requires SliceExact(e, tb, q, u) && k in TermSlice(tb.terms, q, u)
    ensures !Misfiled(e, tb, p, t, k)
  {
    assert k in CountedTerms(e, tb.chunks, PolicyIds(tb.chunks, q), q, u);
    assert k in TermKeys(e, tb.chunks, PolicyIds(tb.chunks, q), u);
  }

  /** Once a slice is exact, every refresh keeps it exact, whatever else the tables hold. */
  lemma ExactStaysExact(e: Engine, tb: Tables, p: string, t: TokenizerName, q: string, u: TokenizerName)
    requires SliceExact(e, tb, q, u) && Refreshable(e, tb.chunks, p, t)
    ensures SliceExact(e, Refreshed(e, tb, p, t), q, u)
  {
    if p == q && t == u {
      RefreshedSliceIsExact(e, tb, p, t);
    } else {
      OtherExactSliceKept(e, tb, p, t, q, u);
    }
  }

  lemma OtherExactSliceKept(e: Engine, tb: Tables, p: string, t: TokenizerName, q: string, u: TokenizerName)
    requires SliceExact(e, tb, q, u) && Refreshable(e, tb.chunks, p, t) && (q != p || u != t)
    ensures TermSlice(Refreshed(e, tb, p, t).terms, q, u) == TermSlice(tb.terms, q, u)
    ensures StatSlice(Refreshed(e, tb, p, t).stats, q, u) == StatSlice(tb.stats, q, u)
  {
    var a, b := TermSlice(Refreshed(e, tb, p, t).terms, q, u), TermSlice(tb.terms, q, u);
    forall k: TermKey
      ensures k in a <==> k in b
      ensures k in a ==> a[k] == b[k]
    {
      OtherSliceRow(e, tb, p, t, q, u, k);
      if k in b { ExactRowIsNotMisfiled(e, tb, p, t, q, u, k); }
    }
    SameTable(a, b);
    OtherStatsKept(e, tb, p, t, q, u);
  }

  // ---------------------------------------------------------------- every slice at the end

  ghost predicate SliceKept(before: Tables, after: Tables, p: string, t: TokenizerName) {
    && TermSlice(after.terms, p, t) == TermSlice(before.terms, p, t)
    && StatSlice(after.stats, p, t) == StatSlice(before.stats, p, t)
  }

  /** The slice is refreshed, and its refresh commits. */
  ghost predicate Committed(e: Engine, chunks: Chunks, ps: seq<string>, t: TokenizerName, q: string, u: TokenizerName) {
    u == t && q in ps && Refreshable(e, chunks, q, t)
  }

  /** Some committed refresh of the work list deletes the row as misfiled. */
  ghost predicate Taken(e: Engine, tb: Tables, ps: seq<string>, t: TokenizerName, k: TermKey) {
    exists p :: p in ps && Refreshable(e, tb.chunks, p, t) && Misfiled(e, tb, p, t, k)
  }

  /** A slice whose refresh commits is exact at the end of any work list, from any tables:
      no later refresh takes a row from it. */
  lemma {:induction false} CommittedSliceIsExact(e: Engine, tb: Tables, ps: seq<string>, t: TokenizerName, q: string)
    requires (q in ps && Refreshable(e, tb.chunks, q, t)) || SliceExact(e, tb, q, t)
    ensures SliceExact(e, AttemptAll(e, tb, ps, t), q, t)
    decreases |ps|
  {
    if ps != [] {
      var next := Attempt(e, tb, ps[0], t);
      FirstAttemptIsExact(e, tb, ps[0], t, q);
      assert q in ps <==> q == ps[0] || q in ps[1..];
      CommittedSliceIsExact(e, next, ps[1..], t, q);
    }
  }

  lemma FirstAttemptIsExact(e: Engine, tb: Tables, p: string, t: TokenizerName, q: string)
    ensures Attempt(e, tb, p, t).chunks == tb.chunks
    ensures SliceExact(e, tb, q, t) ==> SliceExact(e, Attempt(e, tb, p, t), q, t)
    ensures q == p && Refreshable(e, tb.chunks, q, t) ==> SliceExact(e, Attempt(e, tb, p, t), q, t)
  {
    if Refreshable(e, tb.chunks, p, t) {
      if SliceExact(e, tb, q, t) { ExactStaysExact(e, tb, p, t, q, t); }
      if q == p { RefreshedSliceIsExact(e, tb, p, t); }
    }
  }

  /** A row of any other slice is there at the end, unchanged, if and only if no committed
      refresh took it; and no row joins the slice. */
  lemma {:induction false} OtherRowAfterAll(e: Engine, tb: Tables, ps: seq<string>, t: TokenizerName, q: string,
                                            u: TokenizerName, k: TermKey)
    requires !Committed(e, tb.chunks, ps, t, q, u)
    ensures var before, after := TermSlice(tb.terms, q, u), TermSlice(AttemptAll(e, tb, ps, t).terms, q, u);
      && (k in after <==> k in before && !Taken(e, tb, ps, t, k))
      && (k in after ==> after[k] == before[k])
    decreases |ps|
  {
    if ps != [] {
      var p := ps[0];
      var next := Attempt(e, tb, p, t);
      assert p in ps && forall x :: x in ps[1..] ==> x in ps;
      if Refreshable(e, tb.chunks, p, t) { OtherSliceRow(e, tb, p, t, q, u, k); }
      OtherRowAfterAll(e, next, ps[1..], t, q, u, k);
      TakenFirstOrLater(e, tb, next, ps, t, k);
    }
  }

  /** A row is taken by the first refresh or, if that leaves it alone, by a later one. */
  lemma TakenFirstOrLater(e: Engine, tb: Tables, next: Tables, ps: seq<string>, t: TokenizerName, k: TermKey)
    requires ps != [] && next.chunks == tb.chunks
    ensures Refreshable(e, tb.chunks, ps[0], t) && Misfiled(e, tb, ps[0], t, k) ==> Taken(e, tb, ps, t, k)
    ensures k in tb.terms && k in next.terms && next.terms[k] == tb.terms[k] ==>
      (Taken(e, tb, ps, t, k) <==>
        || (Refreshable(e, tb.chunks, ps[0], t) && Misfiled(e, tb, ps[0], t, k))
        || Taken(e, next, ps[1..], t, k))
  {
    assert forall p :: p in ps <==> p == ps[0] || p in ps[1..];
    if k in tb.terms && k in next.terms && next.terms[k] == tb.terms[k] {
      assert forall p :: Misfiled(e, next, p, t, k) <==> Misfiled(e, tb, p, t, k);
    }
  }

  lemma {:induction false} OtherStatsAfterAll(e: Engine, tb: Tables, ps: seq<string>, t: TokenizerName, q: string,
                                              u: TokenizerName)
    requires !Committed(e, tb.chunks, ps, t, q, u)
    ensures StatSlice(AttemptAll(e, tb, ps, t).stats, q, u) == StatSlice(tb.stats, q, u)
    decreases |ps|
  {
    if ps != [] {
      assert ps[0] in ps && forall x :: x in ps[1..] ==> x in ps;
      if Refreshable(e, tb.chunks, ps[0], t) { OtherStatsKept(e, tb, ps[0], t, q, u); }
      OtherStatsAfterAll(e, Attempt(e, tb, ps[0], t), ps[1..], t, q, u);
    }
  }

  /** Every other slice is as before if and only if none of its rows was taken. */
  lemma OtherSliceKeptExactlyWhen(e: Engine, tb: Tables, ps: seq<string>, t: TokenizerName, q: string,
                                  u: TokenizerName)
    requires !Committed(e, tb.chunks, ps, t, q, u)
    ensures SliceKept(tb, AttemptAll(e, tb, ps, t), q, u)
      <==> forall k :: k in TermSlice(tb.terms, q, u) ==> !Taken(e, tb, ps, t, k)
  {
    var before, after := TermSlice(tb.terms, q, u), TermSlice(AttemptAll(e, tb, ps, t).terms, q, u);
    OtherStatsAfterAll(e, tb, ps, t, q, u);
    forall k
      ensures k in after <==> k in before && !Taken(e, tb, ps, t, k)
      ensures k in after ==> after[k] == before[k]
    {
      OtherRowAfterAll(e, tb, ps, t, q, u, k);
    }
    if forall k :: k in before ==> !Taken(e, tb, ps, t, k) { SameTable(after, before); }
  }

  lemma {:induction false} AttemptsKeepChunks(e: Engine, tb: Tables, ps: seq<string>, t: TokenizerName)
    ensures AttemptAll(e, tb, ps, t).chunks == tb.chunks && AttemptAll(e, tb, ps, t).policies == tb.policies
    decreases |ps|
  {
    if ps != [] { AttemptsKeepChunks(e, Attempt(e, tb, ps[0], t), ps[1..], t); }
  }

  /** After attempting every policy of a work list, from any tables: a slice whose refresh
      commits is exact, and every other slice of any tokenizer is as before if and only if
      none of its rows was misfiled among the chunks of a committed refresh. */
  lemma SlicesAfterAll(e: Engine, tb: Tables, ps: seq<string>, t: TokenizerName, q: string, u: TokenizerName)
    ensures var after := AttemptAll(e, tb, ps, t);
      && after.chunks == tb.chunks && after.policies == tb.policies
      && if Committed(e, tb.chunks, ps, t, q, u) then SliceExact(e, after, q, t)
         else SliceKept(tb, after, q, u) <==> forall k :: k in TermSlice(tb.terms, q, u) ==> !Taken(e, tb, ps, t, k)
  {
    AttemptsKeepChunks(e, tb, ps, t);
    if Committed(e, tb.chunks, ps, t, q, u) {
      CommittedSliceIsExact(e, tb, ps, t, q);
    } else {
      OtherSliceKeptExactlyWhen(e, tb, ps, t, q, u);
    }
  }

  lemma {:induction false} AttemptsKeepInvariants(e: Engine, tb: Tables, ps: seq<string>, t: TokenizerName)
    requires WellFormed(tb)
    ensures WellFormed(AttemptAll(e, tb, ps, t))
    ensures Filed(tb) ==> Filed(AttemptAll(e, tb, ps, t))
    decreases |ps|
  {
    if ps != [] {
      if Refreshable(e, tb.chunks, ps[0], t) { RefreshKeepsInvariants(e, tb, ps[0], t); }
      AttemptsKeepInvariants(e, Attempt(e, tb, ps[0], t), ps[1..], t);
    }
  }

  /** So over filed tables every slice whose refresh does not commit is as before. */
  lemma FiledSlicesAfterAll(e: Engine, tb: Tables, ps: seq<string>, t: TokenizerName, q: string, u: TokenizerName)
    requires Filed(tb)
    ensures !Committed(e, tb.chunks, ps, t, q, u) ==> SliceKept(tb, AttemptAll(e, tb, ps, t), q, u)
  {
    SlicesAfterAll(e, tb, ps, t, q, u);
    forall k | k in TermSlice(tb.terms, q, u)
      ensures !Taken(e, tb, ps, t, k)
    {
      if p :| p in ps && Refreshable(e, tb.chunks, p, t) && Misfiled(e, tb, p, t, k) {
        FiledRowsAreSafe(e, tb, p, t);
      }
    }
  }
}
