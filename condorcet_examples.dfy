/** The worked examples of the ranked pairs unit tests, stated over the pairwise matrices their
    ballots give: which defeats are locked, and who is in the first rank. */
module CondorcetExamples {
  import opened Condorcet
  import Seqs

  // ---- graphs given by their edges ----

  /** The graph on n candidates whose edges are E. */
  ghost function OnEdges(n: nat, E: set<Edge>): Graph {
    seq(n, a requires 0 <= a => From(E, a))
  }

  lemma OnEdgesAt(n: nat, E: set<Edge>)
    ensures |OnEdges(n, E)| == n
    ensures forall a, b :: 0 <= a < n ==> (b in OnEdges(n, E)[a] <==> (a, b) in E)
  {
    forall a, b | 0 <= a < n ensures b in OnEdges(n, E)[a] <==> (a, b) in E {
      if (a, b) in E {
        assert b in From(E, a);
      }
    }
  }

  lemma EmptyOnEdges(n: nat)
    ensures Empty(n) == OnEdges(n, {})
  {
    OnEdgesAt(n, {});
    forall a | 0 <= a < n ensures Empty(n)[a] == OnEdges(n, {})[a] {
      assert forall b :: b !in OnEdges(n, {})[a];
    }
    GraphsEqual(Empty(n), OnEdges(n, {}));
  }

  /** One group step on a graph given by its edges L: the group E is added and the edges C of E
      that close a cycle are taken out. */
  lemma GroupStepOnEdges(n: nat, L: set<Edge>, E: set<Edge>, C: set<Edge>)
    requires C <= E
    requires forall e :: e in E ==> (e in C <==> Reachable(OnEdges(n, L + E), e.1, e.0))
    ensures GroupStep(OnEdges(n, L), E) == OnEdges(n, (L + E) - C)
  {
    OnEdgesAt(n, L);
    OnEdgesAt(n, L + E);
    OnEdgesAt(n, (L + E) - C);
    var h := Inserted(OnEdges(n, L), E);
    forall a | 0 <= a < n ensures h[a] == OnEdges(n, L + E)[a] {
      forall b ensures b in h[a] <==> (a, b) in L + E {
        if (a, b) in E { assert b in From(E, a); }
      }
    }
    GraphsEqual(h, OnEdges(n, L + E));
    assert InCycle(h, E) == C;
    var r := GroupStep(OnEdges(n, L), E);
    forall a | 0 <= a < n ensures r[a] == OnEdges(n, (L + E) - C)[a] {
      forall b ensures b in r[a] <==> (a, b) in (L + E) - C {
        if (a, b) in C { assert b in From(C, a); }
      }
    }
    GraphsEqual(r, OnEdges(n, (L + E) - C));
  }

  /** Nothing outside a set closed under the edges L can be reached from inside it. */
  lemma Unreachable(n: nat, L: set<Edge>, S: set<nat>, a: nat, b: nat)
    requires a in S && b !in S
    requires forall e :: e in L && e.0 in S ==> e.1 in S
    ensures !Reachable(OnEdges(n, L), a, b)
  {
    var g := OnEdges(n, L);
    OnEdgesAt(n, L);
    forall x, y | x in S && x < |g| && y in g[x] ensures y in S {
      assert (x, y) in L;
    }
    if Reachable(g, a, b) {
      ClosedContainsReachable(g, S, a, b);
    }
  }

  /** A walk through three candidates along edges of L. */
  lemma Walk3(n: nat, L: set<Edge>, a: nat, b: nat, c: nat)
    requires a < n && b < n && (a, b) in L && (b, c) in L
    ensures Reachable(OnEdges(n, L), a, c)
  {
    OnEdgesAt(n, L);
    assert IsPath(OnEdges(n, L), [a, b, c]);
  }

  /** The defeats of a matrix, given pair by pair. */
  lemma DefeatSetIs(totals: seq<seq<nat>>, n: nat, D: set<Edge>)
    requires forall e :: e in D ==> e.0 < n && e.1 < n
    requires forall a, b :: 0 <= a < n && 0 <= b < n ==> ((a, b) in D <==> At(totals, a, b) > At(totals, b, a))
    ensures DefeatSet(totals, n) == D
  {
  }

  /** Locking a group-by-group order of the defeats gives the locked graph. */
  lemma LockedIs(totals: seq<seq<nat>>, n: nat, s: seq<Edge>)
    requires StrongestFirst(totals, s) && Elems(s) == DefeatSet(totals, n)
    ensures IsLockedGraph(totals, n, LockRuns(totals, Empty(n), s))
    ensures forall g :: IsLockedGraph(totals, n, g) ==> g == LockRuns(totals, Empty(n), s)
  {
    forall g | IsLockedGraph(totals, n, g) ensures g == LockRuns(totals, Empty(n), s) {
      LockedGraphUnique(totals, n, g, LockRuns(totals, Empty(n), s));
    }
  }

  /** A run of equal grouping keys, followed by a different key, has the run's length. */
  lemma {:induction false} RunLengthOfRun(totals: seq<seq<nat>>, run: seq<Edge>, rest: seq<Edge>, k: (nat, nat))
    requires forall i :: 0 <= i < |run| ==> GroupKey(totals, run[i]) == k
    requires rest != [] ==> GroupKey(totals, rest[0]) != k
    ensures RunLength(totals, k, run + rest) == |run|
    decreases |run|
  {
    if run == [] {
      assert run + rest == rest;
    } else {
      RunLengthOfRun(totals, run[1..], rest, k);
      assert (run + rest)[1..] == run[1..] + rest;
    }
  }

  /** Locking a run E of equal grouping keys on the graph with edges L: the edges C of E that close
      a cycle are dropped, and what follows the run is locked on what is left. */
  lemma LockRun(totals: seq<seq<nat>>, n: nat, L: set<Edge>, run: seq<Edge>, rest: seq<Edge>, E: set<Edge>, C: set<Edge>, L': set<Edge>)
    requires run != [] && Elems(run) == E
    requires forall i :: 0 <= i < |run| ==> GroupKey(totals, run[i]) == GroupKey(totals, run[0])
    requires rest != [] ==> GroupKey(totals, rest[0]) != GroupKey(totals, run[0])
    requires C <= E
    requires forall e :: e in E ==> (e in C <==> Reachable(OnEdges(n, L + E), e.1, e.0))
    requires L' == (L + E) - C
    ensures LockRuns(totals, OnEdges(n, L), run + rest) == LockRuns(totals, OnEdges(n, L'), rest)
  {
    RunLengthOfRun(totals, run, rest, GroupKey(totals, run[0]));
    assert (run + rest)[0] == run[0];
    assert (run + rest)[..|run|] == run && (run + rest)[|run|..] == rest;
    GroupStepOnEdges(n, L, E, C);
  }

  lemma {:induction false} KeysChain(totals: seq<seq<nat>>, s: seq<Edge>, i: nat, j: nat)
    requires forall k :: 0 <= k < |s| - 1 ==> KeyAtLeast(SortKey(totals, s[k]), SortKey(totals, s[k + 1]))
    requires i < j < |s|
    ensures KeyAtLeast(SortKey(totals, s[i]), SortKey(totals, s[j]))
    decreases j - i
  {
    if i + 1 < j {
      KeysChain(totals, s, i + 1, j);
    }
  }

  /** Each defeat at least as strong as the next: strongest first. */
  lemma AdjacentSorted(totals: seq<seq<nat>>, s: seq<Edge>)
    requires forall k :: 0 <= k < |s| - 1 ==> KeyAtLeast(SortKey(totals, s[k]), SortKey(totals, s[k + 1]))
    ensures StrongestFirst(totals, s)
  {
    forall i, j | 0 <= i < j < |s| ensures KeyAtLeast(SortKey(totals, s[i]), SortKey(totals, s[j])) {
      KeysChain(totals, s, i, j);
    }
  }

  /** The first rank, from the undefeated candidates of the locked graph: w lists them, and every
      other candidate c is defeated by beater[c]. */
  lemma FirstRank(totals: seq<seq<nat>>, n: nat, L: set<Edge>, w: seq<nat>, beater: seq<nat>)
    requires IsLockedGraph(totals, n, OnEdges(n, L))
    requires w != [] && Seqs.StrictlyAscending(w)
    requires forall c :: c in w ==> c < n && forall d :: (d, c) !in L
    requires |beater| == n && forall c :: 0 <= c < n && c !in w ==> beater[c] < n && (beater[c], c) in L
    ensures forall votes, r :: IsRankedPairs(n, votes, r) && r.totals == totals ==> |r.ranks| > 0 && r.ranks[0] == w
  {
    var g := OnEdges(n, L);
    OnEdgesAt(n, L);
    LockedGraphShape(totals, n, g);
    var U := Elems(Upto(n));
    UptoElems(n);
    assert w[0] in w;
    forall c ensures c in Undefeated(g, U) <==> c in w {
      if c in U && c !in w {
        assert beater[c] in U && c in g[beater[c]];
      }
    }
    TiersUnfold(g, U);
    Seqs.AscendingUnique(Seqs.Ascending(Undefeated(g, U)), w);
    forall votes, r | IsRankedPairs(n, votes, r) && r.totals == totals
      ensures |r.ranks| > 0 && r.ranks[0] == w
    {
      var g' :| IsLockedGraph(r.totals, n, g') && Acyclic(g') && r.ranks == Tiers(g', Elems(Upto(n)));
      LockedGraphUnique(totals, n, g', g);
    }
  }

  // ---- the examples ----

  /** ericgorr example 1: 7 ballots 0 > 1 > 2, 5 ballots 1 > 0 > 2, 4 ballots 2 > 0 > 1, 2 ballots 1 > 2 > 0. */
  function Example1(): seq<seq<nat>> {
    [[0, 11, 12], [7, 0, 14], [6, 4, 0]]
  }

  /** 0 beats 1 by 11 to 7 and 2 by 12 to 6, so whatever ballots give this matrix, 0 alone is ranked
      first. */
  lemma Example1FirstRank()
    ensures CondorcetWinner(Example1(), 3, 0)
    ensures forall votes, r :: IsRankedPairs(3, votes, r) && r.totals == Example1() ==> |r.ranks| > 0 && r.ranks[0] == [0]
  {
    var t := Example1();
    assert t[0] == [0, 11, 12] && t[1] == [7, 0, 14] && t[2] == [6, 4, 0];
    assert CondorcetWinner(t, 3, 0);
    forall votes, r | IsRankedPairs(3, votes, r) && r.totals == t
      ensures |r.ranks| > 0 && r.ranks[0] == [0]
    {
      var g :| IsLockedGraph(r.totals, 3, g) && Acyclic(g) && r.ranks == Tiers(g, Elems(Upto(3)));
      CondorcetWinnerFirst(t, 3, g, 0);
    }
  }

  /** The five-candidate test: one ballot each of 4 > 1 > 3 > 2 > 0, 1 > 0 > 4 > 3 > 2, 3 > 0 > 4
      > 1 > 2, 3 > 4 > 0 > 1 > 2 and 2 > 1 > 3 > 0 > 4. */
  function FiveCandidates(): seq<seq<nat>> {
    [[0, 2, 3, 1, 3], [3, 0, 4, 3, 2], [2, 1, 0, 1, 1], [4, 2, 4, 0, 3], [2, 3, 4, 2, 0]]
  }

  /** Its defeats, strongest first: 1 > 2 (4), 3 > 0 (4), 3 > 2 (4), 4 > 2 (4), 0 > 2 (3), 0 > 4
      (3), 1 > 0 (3), 1 > 3 (3), 3 > 4 (3), 4 > 1 (3). */
  function FiveCandidatesOrder(): seq<Edge> {
    [(1, 2), (3, 0), (3, 2), (4, 2), (0, 2), (0, 4), (1, 0), (1, 3), (3, 4), (4, 1)]
  }

  lemma FiveCandidatesSorted()
    ensures StrongestFirst(FiveCandidates(), FiveCandidatesOrder())
  {
    var t, s := FiveCandidates(), FiveCandidatesOrder();
    forall k | 0 <= k < |s| - 1 ensures KeyAtLeast(SortKey(t, s[k]), SortKey(t, s[k + 1])) {
      assert t[0] == [0, 2, 3, 1, 3] && t[1] == [3, 0, 4, 3, 2] && t[2] == [2, 1, 0, 1, 1] && t[3] == [4, 2, 4, 0, 3] && t[4] == [2, 3, 4, 2, 0];
      assert k == 0 || k == 1 || k == 2 || k == 3 || k == 4 || k == 5 || k == 6 || k == 7 || k == 8;
    }
    AdjacentSorted(t, s);
  }

  lemma FiveCandidatesDefeats()
    ensures Elems(FiveCandidatesOrder()) == DefeatSet(FiveCandidates(), 5)
  {
    var t := FiveCandidates();
    var D := {(0, 2), (0, 4), (1, 0), (1, 2), (1, 3), (3, 0), (3, 2), (3, 4), (4, 1), (4, 2)};
    forall a, b | 0 <= a < 5 && 0 <= b < 5 ensures (a, b) in D <==> At(t, a, b) > At(t, b, a) {
      assert t[0] == [0, 2, 3, 1, 3] && t[1] == [3, 0, 4, 3, 2] && t[2] == [2, 1, 0, 1, 1] && t[3] == [4, 2, 4, 0, 3] && t[4] == [2, 3, 4, 2, 0];
      assert a == 0 || a == 1 || a == 2 || a == 3 || a == 4;
      assert b == 0 || b == 1 || b == 2 || b == 3 || b == 4;
    }
    DefeatSetIs(t, 5, D);
    assert Elems(FiveCandidatesOrder()) == D;
  }

  /** Which defeats of the group 1 > 2, 3 > 0, 3 > 2, 4 > 2 close a cycle. */
  lemma FiveCandidatesCycles1()
    ensures forall e :: e in {(1, 2), (3, 0), (3, 2), (4, 2)} ==> (e in {} <==> Reachable(OnEdges(5, {} + {(1, 2), (3, 0), (3, 2), (4, 2)}), e.1, e.0))
  {
    assert {} + {(1, 2), (3, 0), (3, 2), (4, 2)} == {(1, 2), (3, 0), (3, 2), (4, 2)};
    Unreachable(5, {(1, 2), (3, 0), (3, 2), (4, 2)}, {2}, 2, 1);
    Unreachable(5, {(1, 2), (3, 0), (3, 2), (4, 2)}, {0}, 0, 3);
    Unreachable(5, {(1, 2), (3, 0), (3, 2), (4, 2)}, {2}, 2, 3);
    Unreachable(5, {(1, 2), (3, 0), (3, 2), (4, 2)}, {2}, 2, 4);
  }

  /** The edge sets of this group step, written out. */
  lemma FiveCandidatesSets1()
    ensures Elems([(1, 2), (3, 0), (3, 2), (4, 2)]) == {(1, 2), (3, 0), (3, 2), (4, 2)}
    ensures {} <= {(1, 2), (3, 0), (3, 2), (4, 2)}
    ensures {(1, 2), (3, 0), (3, 2), (4, 2)} == ({} + {(1, 2), (3, 0), (3, 2), (4, 2)}) - {}
  {
  }

  /** 1 > 2 is locked, as nothing leads from 2 back to 1; 3 > 0 is locked, as nothing leads from 0
      back to 3; 3 > 2 is locked, as nothing leads from 2 back to 3; 4 > 2 is locked, as nothing
      leads from 2 back to 4. */
  lemma FiveCandidatesStep1(t: seq<seq<nat>>, rest: seq<Edge>)
    requires GroupKey(t, (3, 0)) == GroupKey(t, (1, 2))
    requires GroupKey(t, (3, 2)) == GroupKey(t, (1, 2))
    requires GroupKey(t, (4, 2)) == GroupKey(t, (1, 2))
    requires rest != [] ==> GroupKey(t, rest[0]) != GroupKey(t, (1, 2))
    ensures LockRuns(t, OnEdges(5, {}), [(1, 2), (3, 0), (3, 2), (4, 2)] + rest) == LockRuns(t, OnEdges(5, {(1, 2), (3, 0), (3, 2), (4, 2)}), rest)
  {
    FiveCandidatesCycles1();
    FiveCandidatesSets1();
    LockRun(t, 5, {}, [(1, 2), (3, 0), (3, 2), (4, 2)], rest, {(1, 2), (3, 0), (3, 2), (4, 2)}, {}, {(1, 2), (3, 0), (3, 2), (4, 2)});
  }

  /** Which defeats of the group 0 > 2, 0 > 4, 1 > 0, 1 > 3, 3 > 4, 4 > 1 close a cycle. */
  lemma FiveCandidatesCycles2()
    ensures forall e :: e in {(0, 2), (0, 4), (1, 0), (1, 3), (3, 4), (4, 1)} ==> (e in {(0, 4), (1, 0), (1, 3), (3, 4), (4, 1)} <==> Reachable(OnEdges(5, {(1, 2), (3, 0), (3, 2), (4, 2)} + {(0, 2), (0, 4), (1, 0), (1, 3), (3, 4), (4, 1)}), e.1, e.0))
  {
    assert {(1, 2), (3, 0), (3, 2), (4, 2)} + {(0, 2), (0, 4), (1, 0), (1, 3), (3, 4), (4, 1)} == {(0, 2), (0, 4), (1, 0), (1, 2), (1, 3), (3, 0), (3, 2), (3, 4), (4, 1), (4, 2)};
    Unreachable(5, {(0, 2), (0, 4), (1, 0), (1, 2), (1, 3), (3, 0), (3, 2), (3, 4), (4, 1), (4, 2)}, {2}, 2, 0);
    Walk3(5, {(0, 2), (0, 4), (1, 0), (1, 2), (1, 3), (3, 0), (3, 2), (3, 4), (4, 1), (4, 2)}, 4, 1, 0);
    Walk3(5, {(0, 2), (0, 4), (1, 0), (1, 2), (1, 3), (3, 0), (3, 2), (3, 4), (4, 1), (4, 2)}, 0, 4, 1);
    Walk3(5, {(0, 2), (0, 4), (1, 0), (1, 2), (1, 3), (3, 0), (3, 2), (3, 4), (4, 1), (4, 2)}, 3, 4, 1);
    Walk3(5, {(0, 2), (0, 4), (1, 0), (1, 2), (1, 3), (3, 0), (3, 2), (3, 4), (4, 1), (4, 2)}, 4, 1, 3);
    Walk3(5, {(0, 2), (0, 4), (1, 0), (1, 2), (1, 3), (3, 0), (3, 2), (3, 4), (4, 1), (4, 2)}, 1, 3, 4);
  }

  /** The edge sets of this group step, written out. */
  lemma FiveCandidatesSets2()
    ensures Elems([(0, 2), (0, 4), (1, 0), (1, 3), (3, 4), (4, 1)]) == {(0, 2), (0, 4), (1, 0), (1, 3), (3, 4), (4, 1)}
    ensures {(0, 4), (1, 0), (1, 3), (3, 4), (4, 1)} <= {(0, 2), (0, 4), (1, 0), (1, 3), (3, 4), (4, 1)}
    ensures {(0, 2), (1, 2), (3, 0), (3, 2), (4, 2)} == ({(1, 2), (3, 0), (3, 2), (4, 2)} + {(0, 2), (0, 4), (1, 0), (1, 3), (3, 4), (4, 1)}) - {(0, 4), (1, 0), (1, 3), (3, 4), (4, 1)}
  {
  }

  /** 0 > 2 is locked, as nothing leads from 2 back to 0; 0 > 4 is dropped, as 4 > 1 > 0 leads
      back; 1 > 0 is dropped, as 0 > 4 > 1 leads back; 1 > 3 is dropped, as 3 > 4 > 1 leads back;
      3 > 4 is dropped, as 4 > 1 > 3 leads back; 4 > 1 is dropped, as 1 > 3 > 4 leads back. */
  lemma FiveCandidatesStep2(t: seq<seq<nat>>)
    requires GroupKey(t, (0, 4)) == GroupKey(t, (0, 2))
    requires GroupKey(t, (1, 0)) == GroupKey(t, (0, 2))
    requires GroupKey(t, (1, 3)) == GroupKey(t, (0, 2))
    requires GroupKey(t, (3, 4)) == GroupKey(t, (0, 2))
    requires GroupKey(t, (4, 1)) == GroupKey(t, (0, 2))
    ensures LockRuns(t, OnEdges(5, {(1, 2), (3, 0), (3, 2), (4, 2)}), [(0, 2), (0, 4), (1, 0), (1, 3), (3, 4), (4, 1)]) == OnEdges(5, {(0, 2), (1, 2), (3, 0), (3, 2), (4, 2)})
  {
    FiveCandidatesCycles2();
    FiveCandidatesSets2();
    assert [(0, 2), (0, 4), (1, 0), (1, 3), (3, 4), (4, 1)] == [(0, 2), (0, 4), (1, 0), (1, 3), (3, 4), (4, 1)] + [];
    LockRun(t, 5, {(1, 2), (3, 0), (3, 2), (4, 2)}, [(0, 2), (0, 4), (1, 0), (1, 3), (3, 4), (4, 1)], [], {(0, 2), (0, 4), (1, 0), (1, 3), (3, 4), (4, 1)}, {(0, 4), (1, 0), (1, 3), (3, 4), (4, 1)}, {(0, 2), (1, 2), (3, 0), (3, 2), (4, 2)});
  }

  lemma FiveCandidatesKeys()
    ensures GroupKey(FiveCandidates(), (1, 2)) == (4, 1)
      && GroupKey(FiveCandidates(), (3, 0)) == (4, 1)
      && GroupKey(FiveCandidates(), (3, 2)) == (4, 1)
      && GroupKey(FiveCandidates(), (4, 2)) == (4, 1)
      && GroupKey(FiveCandidates(), (0, 2)) == (3, 2)
      && GroupKey(FiveCandidates(), (0, 4)) == (3, 2)
      && GroupKey(FiveCandidates(), (1, 0)) == (3, 2)
      && GroupKey(FiveCandidates(), (1, 3)) == (3, 2)
      && GroupKey(FiveCandidates(), (3, 4)) == (3, 2)
      && GroupKey(FiveCandidates(), (4, 1)) == (3, 2)
  {
    var t := FiveCandidates();
    assert t[0] == [0, 2, 3, 1, 3] && t[1] == [3, 0, 4, 3, 2] && t[2] == [2, 1, 0, 1, 1] && t[3] == [4, 2, 4, 0, 3] && t[4] == [2, 3, 4, 2, 0];
  }

  lemma FiveCandidatesRuns()
    ensures FiveCandidatesOrder() == [(1, 2), (3, 0), (3, 2), (4, 2)] + [(0, 2), (0, 4), (1, 0), (1, 3), (3, 4), (4, 1)]
  {
  }

  lemma FiveCandidatesLocks(t: seq<seq<nat>>)
    requires t == FiveCandidates()
    ensures LockRuns(t, Empty(5), FiveCandidatesOrder()) == OnEdges(5, {(0, 2), (1, 2), (3, 0), (3, 2), (4, 2)})
  {
    FiveCandidatesKeys();
    FiveCandidatesRuns();
    EmptyOnEdges(5);
    FiveCandidatesStep1(t, [(0, 2), (0, 4), (1, 0), (1, 3), (3, 4), (4, 1)]);
    FiveCandidatesStep2(t);
  }

  /** The locked graph of this matrix: 0 > 2, 1 > 2, 3 > 0, 3 > 2, 4 > 2. */
  lemma FiveCandidatesGraph()
    ensures IsLockedGraph(FiveCandidates(), 5, OnEdges(5, {(0, 2), (1, 2), (3, 0), (3, 2), (4, 2)}))
    ensures forall g :: IsLockedGraph(FiveCandidates(), 5, g) ==> g == OnEdges(5, {(0, 2), (1, 2), (3, 0), (3, 2), (4, 2)})
  {
    FiveCandidatesSorted();
    FiveCandidatesDefeats();
    LockedIs(FiveCandidates(), 5, FiveCandidatesOrder());
    FiveCandidatesLocks(FiveCandidates());
  }

  /** Whatever ballots give this matrix, the first rank is [1, 3, 4]. */
  lemma FiveCandidatesFirstRank()
    ensures forall votes, r :: IsRankedPairs(5, votes, r) && r.totals == FiveCandidates() ==> |r.ranks| > 0 && r.ranks[0] == [1, 3, 4]
  {
    FiveCandidatesGraph();
    FirstRank(FiveCandidates(), 5, {(0, 2), (1, 2), (3, 0), (3, 2), (4, 2)}, [1, 3, 4], [3, 0, 0, 0, 0]);
  }

  /** ericgorr example 2: 40 ballots 0 > 1 > 2, 35 ballots 1 > 2 > 0, 25 ballots 2 > 0 > 1. */
  function Example2(): seq<seq<nat>> {
    [[0, 65, 40], [35, 0, 75], [60, 25, 0]]
  }

  /** Its defeats, strongest first: 1 > 2 (75), 0 > 1 (65), 2 > 0 (60). */
  function Example2Order(): seq<Edge> {
    [(1, 2), (0, 1), (2, 0)]
  }

  lemma Example2Sorted()
    ensures StrongestFirst(Example2(), Example2Order())
  {
    var t, s := Example2(), Example2Order();
    forall k | 0 <= k < |s| - 1 ensures KeyAtLeast(SortKey(t, s[k]), SortKey(t, s[k + 1])) {
      assert t[0] == [0, 65, 40] && t[1] == [35, 0, 75] && t[2] == [60, 25, 0];
      assert k == 0 || k == 1;
    }
    AdjacentSorted(t, s);
  }

  lemma Example2Defeats()
    ensures Elems(Example2Order()) == DefeatSet(Example2(), 3)
  {
    var t := Example2();
    var D := {(0, 1), (1, 2), (2, 0)};
    forall a, b | 0 <= a < 3 && 0 <= b < 3 ensures (a, b) in D <==> At(t, a, b) > At(t, b, a) {
      assert t[0] == [0, 65, 40] && t[1] == [35, 0, 75] && t[2] == [60, 25, 0];
      assert a == 0 || a == 1 || a == 2;
      assert b == 0 || b == 1 || b == 2;
    }
    DefeatSetIs(t, 3, D);
    assert Elems(Example2Order()) == D;
  }

  /** 1 > 2 is locked, as nothing leads from 2 back to 1. */
  lemma Example2Step1(t: seq<seq<nat>>, rest: seq<Edge>)
    requires rest != [] ==> GroupKey(t, rest[0]) != GroupKey(t, (1, 2))
    ensures LockRuns(t, OnEdges(3, {}), [(1, 2)] + rest) == LockRuns(t, OnEdges(3, {(1, 2)}), rest)
  {
    Unreachable(3, {(1, 2)}, {2}, 2, 1);
    LockRun(t, 3, {}, [(1, 2)], rest, {(1, 2)}, {}, {(1, 2)});
  }

  /** 0 > 1 is locked, as nothing leads from 1 back to 0. */
  lemma Example2Step2(t: seq<seq<nat>>, rest: seq<Edge>)
    requires rest != [] ==> GroupKey(t, rest[0]) != GroupKey(t, (0, 1))
    ensures LockRuns(t, OnEdges(3, {(1, 2)}), [(0, 1)] + rest) == LockRuns(t, OnEdges(3, {(0, 1), (1, 2)}), rest)
  {
    Unreachable(3, {(0, 1), (1, 2)}, {1, 2}, 1, 0);
    LockRun(t, 3, {(1, 2)}, [(0, 1)], rest, {(0, 1)}, {}, {(0, 1), (1, 2)});
  }

  /** 2 > 0 is dropped, as 0 > 1 > 2 leads back. */
  lemma Example2Step3(t: seq<seq<nat>>)
    ensures LockRuns(t, OnEdges(3, {(0, 1), (1, 2)}), [(2, 0)]) == OnEdges(3, {(0, 1), (1, 2)})
  {
    Walk3(3, {(0, 1), (1, 2), (2, 0)}, 0, 1, 2);
    assert [(2, 0)] == [(2, 0)] + [];
    LockRun(t, 3, {(0, 1), (1, 2)}, [(2, 0)], [], {(2, 0)}, {(2, 0)}, {(0, 1), (1, 2)});
  }

  lemma Example2Keys()
    ensures GroupKey(Example2(), (1, 2)) == (75, 25)
      && GroupKey(Example2(), (0, 1)) == (65, 35)
      && GroupKey(Example2(), (2, 0)) == (60, 40)
  {
    var t := Example2();
    assert t[0] == [0, 65, 40] && t[1] == [35, 0, 75] && t[2] == [60, 25, 0];
  }

  lemma Example2Runs()
    ensures Example2Order() == [(1, 2)] + [(0, 1), (2, 0)]
      && [(0, 1), (2, 0)] == [(0, 1)] + [(2, 0)]
  {
  }

  lemma Example2Locks(t: seq<seq<nat>>)
    requires t == Example2()
    ensures LockRuns(t, Empty(3), Example2Order()) == OnEdges(3, {(0, 1), (1, 2)})
  {
    Example2Keys();
    Example2Runs();
    EmptyOnEdges(3);
    Example2Step1(t, [(0, 1), (2, 0)]);
    Example2Step2(t, [(2, 0)]);
    Example2Step3(t);
  }

  /** The locked graph of this matrix: 0 > 1, 1 > 2. */
  lemma Example2Graph()
    ensures IsLockedGraph(Example2(), 3, OnEdges(3, {(0, 1), (1, 2)}))
    ensures forall g :: IsLockedGraph(Example2(), 3, g) ==> g == OnEdges(3, {(0, 1), (1, 2)})
  {
    Example2Sorted();
    Example2Defeats();
    LockedIs(Example2(), 3, Example2Order());
    Example2Locks(Example2());
  }

  /** Whatever ballots give this matrix, the first rank is [0]. */
  lemma Example2FirstRank()
    ensures forall votes, r :: IsRankedPairs(3, votes, r) && r.totals == Example2() ==> |r.ranks| > 0 && r.ranks[0] == [0]
  {
    Example2Graph();
    FirstRank(Example2(), 3, {(0, 1), (1, 2)}, [0], [0, 0, 1]);
  }

  /** ericgorr example 3: 7 ballots 0 > 1 > 2, 7 ballots 1 > 0 > 2, 2 ballots 2 > 0 > 1, 2 ballots
      2 > 1 > 0. */
  function Example3(): seq<seq<nat>> {
    [[0, 9, 14], [9, 0, 14], [4, 4, 0]]
  }

  /** Its defeats, strongest first: 0 > 2 (14), 1 > 2 (14). */
  function Example3Order(): seq<Edge> {
    [(0, 2), (1, 2)]
  }

  lemma Example3Sorted()
    ensures StrongestFirst(Example3(), Example3Order())
  {
    var t, s := Example3(), Example3Order();
    forall k | 0 <= k < |s| - 1 ensures KeyAtLeast(SortKey(t, s[k]), SortKey(t, s[k + 1])) {
      assert t[0] == [0, 9, 14] && t[1] == [9, 0, 14] && t[2] == [4, 4, 0];
      assert k == 0;
    }
    AdjacentSorted(t, s);
  }

  lemma Example3Defeats()
    ensures Elems(Example3Order()) == DefeatSet(Example3(), 3)
  {
    var t := Example3();
    var D := {(0, 2), (1, 2)};
    forall a, b | 0 <= a < 3 && 0 <= b < 3 ensures (a, b) in D <==> At(t, a, b) > At(t, b, a) {
      assert t[0] == [0, 9, 14] && t[1] == [9, 0, 14] && t[2] == [4, 4, 0];
      assert a == 0 || a == 1 || a == 2;
      assert b == 0 || b == 1 || b == 2;
    }
    DefeatSetIs(t, 3, D);
    assert Elems(Example3Order()) == D;
  }

  /** 0 > 2 is locked, as nothing leads from 2 back to 0; 1 > 2 is locked, as nothing leads from 2
      back to 1. */
  lemma Example3Step1(t: seq<seq<nat>>)
    requires GroupKey(t, (1, 2)) == GroupKey(t, (0, 2))
    ensures LockRuns(t, OnEdges(3, {}), [(0, 2), (1, 2)]) == OnEdges(3, {(0, 2), (1, 2)})
  {
    Unreachable(3, {(0, 2), (1, 2)}, {2}, 2, 0);
    Unreachable(3, {(0, 2), (1, 2)}, {2}, 2, 1);
    assert [(0, 2), (1, 2)] == [(0, 2), (1, 2)] + [];
    LockRun(t, 3, {}, [(0, 2), (1, 2)], [], {(0, 2), (1, 2)}, {}, {(0, 2), (1, 2)});
  }

  lemma Example3Keys()
    ensures GroupKey(Example3(), (0, 2)) == (14, 4)
      && GroupKey(Example3(), (1, 2)) == (14, 4)
  {
    var t := Example3();
    assert t[0] == [0, 9, 14] && t[1] == [9, 0, 14] && t[2] == [4, 4, 0];
  }

  lemma Example3Locks(t: seq<seq<nat>>)
    requires t == Example3()
    ensures LockRuns(t, Empty(3), Example3Order()) == OnEdges(3, {(0, 2), (1, 2)})
  {
    Example3Keys();
    EmptyOnEdges(3);
    Example3Step1(t);
  }

  /** The locked graph of this matrix: 0 > 2, 1 > 2. */
  lemma Example3Graph()
    ensures IsLockedGraph(Example3(), 3, OnEdges(3, {(0, 2), (1, 2)}))
    ensures forall g :: IsLockedGraph(Example3(), 3, g) ==> g == OnEdges(3, {(0, 2), (1, 2)})
  {
    Example3Sorted();
    Example3Defeats();
    LockedIs(Example3(), 3, Example3Order());
    Example3Locks(Example3());
  }

  /** Whatever ballots give this matrix, the first rank is [0, 1]. */
  lemma Example3FirstRank()
    ensures forall votes, r :: IsRankedPairs(3, votes, r) && r.totals == Example3() ==> |r.ranks| > 0 && r.ranks[0] == [0, 1]
  {
    Example3Graph();
    FirstRank(Example3(), 3, {(0, 2), (1, 2)}, [0, 1], [0, 0, 0]);
  }

  /** ericgorr example 4, also run as interesting example 1: 12 ballots 0 > 3 > 2 > 1, 3 ballots 1
      > 0 > 2 > 3, 25 ballots 1 > 2 > 0 > 3, 21 ballots 2 > 1 > 0 > 3, 12 ballots 3 > 0 > 1 > 2,
      21 ballots 3 > 0 > 2 > 1, 6 ballots 3 > 1 > 0 > 2. */
  function Example4(): seq<seq<nat>> {
    [[0, 45, 54, 61], [55, 0, 46, 49], [46, 54, 0, 49], [39, 51, 51, 0]]
  }

  /** Its defeats, strongest first: 0 > 3 (61), 1 > 0 (55), 0 > 2 (54), 2 > 1 (54), 3 > 1 (51), 3
      > 2 (51). */
  function Example4Order(): seq<Edge> {
    [(0, 3), (1, 0), (0, 2), (2, 1), (3, 1), (3, 2)]
  }

  lemma Example4Sorted()
    ensures StrongestFirst(Example4(), Example4Order())
  {
    var t, s := Example4(), Example4Order();
    forall k | 0 <= k < |s| - 1 ensures KeyAtLeast(SortKey(t, s[k]), SortKey(t, s[k + 1])) {
      assert t[0] == [0, 45, 54, 61] && t[1] == [55, 0, 46, 49] && t[2] == [46, 54, 0, 49] && t[3] == [39, 51, 51, 0];
      assert k == 0 || k == 1 || k == 2 || k == 3 || k == 4;
    }
    AdjacentSorted(t, s);
  }

  lemma Example4Defeats()
    ensures Elems(Example4Order()) == DefeatSet(Example4(), 4)
  {
    var t := Example4();
    var D := {(0, 2), (0, 3), (1, 0), (2, 1), (3, 1), (3, 2)};
    forall a, b | 0 <= a < 4 && 0 <= b < 4 ensures (a, b) in D <==> At(t, a, b) > At(t, b, a) {
      assert t[0] == [0, 45, 54, 61] && t[1] == [55, 0, 46, 49] && t[2] == [46, 54, 0, 49] && t[3] == [39, 51, 51, 0];
      assert a == 0 || a == 1 || a == 2 || a == 3;
      assert b == 0 || b == 1 || b == 2 || b == 3;
    }
    DefeatSetIs(t, 4, D);
    assert Elems(Example4Order()) == D;
  }

  /** 0 > 3 is locked, as nothing leads from 3 back to 0. */
  lemma Example4Step1(t: seq<seq<nat>>, rest: seq<Edge>)
    requires rest != [] ==> GroupKey(t, rest[0]) != GroupKey(t, (0, 3))
    ensures LockRuns(t, OnEdges(4, {}), [(0, 3)] + rest) == LockRuns(t, OnEdges(4, {(0, 3)}), rest)
  {
    Unreachable(4, {(0, 3)}, {3}, 3, 0);
    LockRun(t, 4, {}, [(0, 3)], rest, {(0, 3)}, {}, {(0, 3)});
  }

  /** 1 > 0 is locked, as nothing leads from 0 back to 1. */
  lemma Example4Step2(t: seq<seq<nat>>, rest: seq<Edge>)
    requires rest != [] ==> GroupKey(t, rest[0]) != GroupKey(t, (1, 0))
    ensures LockRuns(t, OnEdges(4, {(0, 3)}), [(1, 0)] + rest) == LockRuns(t, OnEdges(4, {(0, 3), (1, 0)}), rest)
  {
    Unreachable(4, {(0, 3), (1, 0)}, {0, 3}, 0, 1);
    LockRun(t, 4, {(0, 3)}, [(1, 0)], rest, {(1, 0)}, {}, {(0, 3), (1, 0)});
  }

  /** 0 > 2 is dropped, as 2 > 1 > 0 leads back; 2 > 1 is dropped, as 1 > 0 > 2 leads back. */
  lemma Example4Step3(t: seq<seq<nat>>, rest: seq<Edge>)
    requires GroupKey(t, (2, 1)) == GroupKey(t, (0, 2))
    requires rest != [] ==> GroupKey(t, rest[0]) != GroupKey(t, (0, 2))
    ensures LockRuns(t, OnEdges(4, {(0, 3), (1, 0)}), [(0, 2), (2, 1)] + rest) == LockRuns(t, OnEdges(4, {(0, 3), (1, 0)}), rest)
  {
    Walk3(4, {(0, 2), (0, 3), (1, 0), (2, 1)}, 2, 1, 0);
    Walk3(4, {(0, 2), (0, 3), (1, 0), (2, 1)}, 1, 0, 2);
    LockRun(t, 4, {(0, 3), (1, 0)}, [(0, 2), (2, 1)], rest, {(0, 2), (2, 1)}, {(0, 2), (2, 1)}, {(0, 3), (1, 0)});
  }

  /** 3 > 1 is dropped, as 1 > 0 > 3 leads back; 3 > 2 is locked, as nothing leads from 2 back to
      3. */
  lemma Example4Step4(t: seq<seq<nat>>)
    requires GroupKey(t, (3, 2)) == GroupKey(t, (3, 1))
    ensures LockRuns(t, OnEdges(4, {(0, 3), (1, 0)}), [(3, 1), (3, 2)]) == OnEdges(4, {(0, 3), (1, 0), (3, 2)})
  {
    Walk3(4, {(0, 3), (1, 0), (3, 1), (3, 2)}, 1, 0, 3);
    Unreachable(4, {(0, 3), (1, 0), (3, 1), (3, 2)}, {2}, 2, 3);
    assert [(3, 1), (3, 2)] == [(3, 1), (3, 2)] + [];
    LockRun(t, 4, {(0, 3), (1, 0)}, [(3, 1), (3, 2)], [], {(3, 1), (3, 2)}, {(3, 1)}, {(0, 3), (1, 0), (3, 2)});
  }

  lemma Example4Keys()
    ensures GroupKey(Example4(), (0, 3)) == (61, 39)
      && GroupKey(Example4(), (1, 0)) == (55, 45)
      && GroupKey(Example4(), (0, 2)) == (54, 46)
      && GroupKey(Example4(), (2, 1)) == (54, 46)
      && GroupKey(Example4(), (3, 1)) == (51, 49)
      && GroupKey(Example4(), (3, 2)) == (51, 49)
  {
    var t := Example4();
    assert t[0] == [0, 45, 54, 61] && t[1] == [55, 0, 46, 49] && t[2] == [46, 54, 0, 49] && t[3] == [39, 51, 51, 0];
  }

  lemma Example4Runs()
    ensures Example4Order() == [(0, 3)] + [(1, 0), (0, 2), (2, 1), (3, 1), (3, 2)]
      && [(1, 0), (0, 2), (2, 1), (3, 1), (3, 2)] == [(1, 0)] + [(0, 2), (2, 1), (3, 1), (3, 2)]
      && [(0, 2), (2, 1), (3, 1), (3, 2)] == [(0, 2), (2, 1)] + [(3, 1), (3, 2)]
  {
  }

  lemma Example4Locks(t: seq<seq<nat>>)
    requires t == Example4()
    ensures LockRuns(t, Empty(4), Example4Order()) == OnEdges(4, {(0, 3), (1, 0), (3, 2)})
  {
    Example4Keys();
    Example4Runs();
    EmptyOnEdges(4);
    Example4Step1(t, [(1, 0), (0, 2), (2, 1), (3, 1), (3, 2)]);
    Example4Step2(t, [(0, 2), (2, 1), (3, 1), (3, 2)]);
    Example4Step3(t, [(3, 1), (3, 2)]);
    Example4Step4(t);
  }

  /** The locked graph of this matrix: 0 > 3, 1 > 0, 3 > 2. */
  lemma Example4Graph()
    ensures IsLockedGraph(Example4(), 4, OnEdges(4, {(0, 3), (1, 0), (3, 2)}))
    ensures forall g :: IsLockedGraph(Example4(), 4, g) ==> g == OnEdges(4, {(0, 3), (1, 0), (3, 2)})
  {
    Example4Sorted();
    Example4Defeats();
    LockedIs(Example4(), 4, Example4Order());
    Example4Locks(Example4());
  }

  /** Whatever ballots give this matrix, the first rank is [1]. */
  lemma Example4FirstRank()
    ensures forall votes, r :: IsRankedPairs(4, votes, r) && r.totals == Example4() ==> |r.ranks| > 0 && r.ranks[0] == [1]
  {
    Example4Graph();
    FirstRank(Example4(), 4, {(0, 3), (1, 0), (3, 2)}, [1], [1, 0, 3, 0]);
  }

  /** ericgorr interesting example 2: 280 ballots 0 > 2 > 3 > 1, 301 ballots 1 > 0 > 2 > 3, 303
      ballots 2 > 1 > 3 > 0, 356 ballots 3 > 0 > 1 > 2. */
  function Interesting2(): seq<seq<nat>> {
    [[0, 636, 937, 581], [604, 0, 657, 604], [303, 583, 0, 884], [659, 636, 356, 0]]
  }

  /** Its defeats, strongest first: 0 > 2 (937), 2 > 3 (884), 3 > 0 (659), 1 > 2 (657), 0 > 1
      (636), 3 > 1 (636). */
  function Interesting2Order(): seq<Edge> {
    [(0, 2), (2, 3), (3, 0), (1, 2), (0, 1), (3, 1)]
  }

  lemma Interesting2Sorted()
    ensures StrongestFirst(Interesting2(), Interesting2Order())
  {
    var t, s := Interesting2(), Interesting2Order();
    forall k | 0 <= k < |s| - 1 ensures KeyAtLeast(SortKey(t, s[k]), SortKey(t, s[k + 1])) {
      assert t[0] == [0, 636, 937, 581] && t[1] == [604, 0, 657, 604] && t[2] == [303, 583, 0, 884] && t[3] == [659, 636, 356, 0];
      assert k == 0 || k == 1 || k == 2 || k == 3 || k == 4;
    }
    AdjacentSorted(t, s);
  }

  lemma Interesting2Defeats()
    ensures Elems(Interesting2Order()) == DefeatSet(Interesting2(), 4)
  {
    var t := Interesting2();
    var D := {(0, 1), (0, 2), (1, 2), (2, 3), (3, 0), (3, 1)};
    forall a, b | 0 <= a < 4 && 0 <= b < 4 ensures (a, b) in D <==> At(t, a, b) > At(t, b, a) {
      assert t[0] == [0, 636, 937, 581] && t[1] == [604, 0, 657, 604] && t[2] == [303, 583, 0, 884] && t[3] == [659, 636, 356, 0];
      assert a == 0 || a == 1 || a == 2 || a == 3;
      assert b == 0 || b == 1 || b == 2 || b == 3;
    }
    DefeatSetIs(t, 4, D);
    assert Elems(Interesting2Order()) == D;
  }

  /** 0 > 2 is locked, as nothing leads from 2 back to 0. */
  lemma Interesting2Step1(t: seq<seq<nat>>, rest: seq<Edge>)
    requires rest != [] ==> GroupKey(t, rest[0]) != GroupKey(t, (0, 2))
    ensures LockRuns(t, OnEdges(4, {}), [(0, 2)] + rest) == LockRuns(t, OnEdges(4, {(0, 2)}), rest)
  {
    Unreachable(4, {(0, 2)}, {2}, 2, 0);
    LockRun(t, 4, {}, [(0, 2)], rest, {(0, 2)}, {}, {(0, 2)});
  }

  /** 2 > 3 is locked, as nothing leads from 3 back to 2. */
  lemma Interesting2Step2(t: seq<seq<nat>>, rest: seq<Edge>)
    requires rest != [] ==> GroupKey(t, rest[0]) != GroupKey(t, (2, 3))
    ensures LockRuns(t, OnEdges(4, {(0, 2)}), [(2, 3)] + rest) == LockRuns(t, OnEdges(4, {(0, 2), (2, 3)}), rest)
  {
    Unreachable(4, {(0, 2), (2, 3)}, {3}, 3, 2);
    LockRun(t, 4, {(0, 2)}, [(2, 3)], rest, {(2, 3)}, {}, {(0, 2), (2, 3)});
  }

  /** 3 > 0 is dropped, as 0 > 2 > 3 leads back. */
  lemma Interesting2Step3(t: seq<seq<nat>>, rest: seq<Edge>)
    requires rest != [] ==> GroupKey(t, rest[0]) != GroupKey(t, (3, 0))
    ensures LockRuns(t, OnEdges(4, {(0, 2), (2, 3)}), [(3, 0)] + rest) == LockRuns(t, OnEdges(4, {(0, 2), (2, 3)}), rest)
  {
    Walk3(4, {(0, 2), (2, 3), (3, 0)}, 0, 2, 3);
    LockRun(t, 4, {(0, 2), (2, 3)}, [(3, 0)], rest, {(3, 0)}, {(3, 0)}, {(0, 2), (2, 3)});
  }

  /** 1 > 2 is locked, as nothing leads from 2 back to 1. */
  lemma Interesting2Step4(t: seq<seq<nat>>, rest: seq<Edge>)
    requires rest != [] ==> GroupKey(t, rest[0]) != GroupKey(t, (1, 2))
    ensures LockRuns(t, OnEdges(4, {(0, 2), (2, 3)}), [(1, 2)] + rest) == LockRuns(t, OnEdges(4, {(0, 2), (1, 2), (2, 3)}), rest)
  {
    Unreachable(4, {(0, 2), (1, 2), (2, 3)}, {2, 3}, 2, 1);
    LockRun(t, 4, {(0, 2), (2, 3)}, [(1, 2)], rest, {(1, 2)}, {}, {(0, 2), (1, 2), (2, 3)});
  }

  /** 0 > 1 is locked, as nothing leads from 1 back to 0; 3 > 1 is dropped, as 1 > 2 > 3 leads
      back. */
  lemma Interesting2Step5(t: seq<seq<nat>>)
    requires GroupKey(t, (3, 1)) == GroupKey(t, (0, 1))
    ensures LockRuns(t, OnEdges(4, {(0, 2), (1, 2), (2, 3)}), [(0, 1), (3, 1)]) == OnEdges(4, {(0, 1), (0, 2), (1, 2), (2, 3)})
  {
    Unreachable(4, {(0, 1), (0, 2), (1, 2), (2, 3), (3, 1)}, {1, 2, 3}, 1, 0);
    Walk3(4, {(0, 1), (0, 2), (1, 2), (2, 3), (3, 1)}, 1, 2, 3);
    assert [(0, 1), (3, 1)] == [(0, 1), (3, 1)] + [];
    LockRun(t, 4, {(0, 2), (1, 2), (2, 3)}, [(0, 1), (3, 1)], [], {(0, 1), (3, 1)}, {(3, 1)}, {(0, 1), (0, 2), (1, 2), (2, 3)});
  }

  lemma Interesting2Keys()
    ensures GroupKey(Interesting2(), (0, 2)) == (937, 303)
      && GroupKey(Interesting2(), (2, 3)) == (884, 356)
      && GroupKey(Interesting2(), (3, 0)) == (659, 581)
      && GroupKey(Interesting2(), (1, 2)) == (657, 583)
      && GroupKey(Interesting2(), (0, 1)) == (636, 604)
      && GroupKey(Interesting2(), (3, 1)) == (636, 604)
  {
    var t := Interesting2();
    assert t[0] == [0, 636, 937, 581] && t[1] == [604, 0, 657, 604] && t[2] == [303, 583, 0, 884] && t[3] == [659, 636, 356, 0];
  }

  lemma Interesting2Runs()
    ensures Interesting2Order() == [(0, 2)] + [(2, 3), (3, 0), (1, 2), (0, 1), (3, 1)]
      && [(2, 3), (3, 0), (1, 2), (0, 1), (3, 1)] == [(2, 3)] + [(3, 0), (1, 2), (0, 1), (3, 1)]
      && [(3, 0), (1, 2), (0, 1), (3, 1)] == [(3, 0)] + [(1, 2), (0, 1), (3, 1)]
      && [(1, 2), (0, 1), (3, 1)] == [(1, 2)] + [(0, 1), (3, 1)]
  {
  }

  lemma Interesting2Locks(t: seq<seq<nat>>)
    requires t == Interesting2()
    ensures LockRuns(t, Empty(4), Interesting2Order()) == OnEdges(4, {(0, 1), (0, 2), (1, 2), (2, 3)})
  {
    Interesting2Keys();
    Interesting2Runs();
    EmptyOnEdges(4);
    Interesting2Step1(t, [(2, 3), (3, 0), (1, 2), (0, 1), (3, 1)]);
    Interesting2Step2(t, [(3, 0), (1, 2), (0, 1), (3, 1)]);
    Interesting2Step3(t, [(1, 2), (0, 1), (3, 1)]);
    Interesting2Step4(t, [(0, 1), (3, 1)]);
    Interesting2Step5(t);
  }

  /** The locked graph of this matrix: 0 > 1, 0 > 2, 1 > 2, 2 > 3. */
  lemma Interesting2Graph()
    ensures IsLockedGraph(Interesting2(), 4, OnEdges(4, {(0, 1), (0, 2), (1, 2), (2, 3)}))
    ensures forall g :: IsLockedGraph(Interesting2(), 4, g) ==> g == OnEdges(4, {(0, 1), (0, 2), (1, 2), (2, 3)})
  {
    Interesting2Sorted();
    Interesting2Defeats();
    LockedIs(Interesting2(), 4, Interesting2Order());
    Interesting2Locks(Interesting2());
  }

  /** Whatever ballots give this matrix, the first rank is [0]. */
  lemma Interesting2FirstRank()
    ensures forall votes, r :: IsRankedPairs(4, votes, r) && r.totals == Interesting2() ==> |r.ranks| > 0 && r.ranks[0] == [0]
  {
    Interesting2Graph();
    FirstRank(Interesting2(), 4, {(0, 1), (0, 2), (1, 2), (2, 3)}, [0], [0, 0, 0, 2]);
  }
}
