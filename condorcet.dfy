module Condorcet {
  import Seqs

  // ---- graphs and reachability ----
  /** A directed graph on nodes 0..|g|-1: g[a] is the set of nodes a has an edge to. */
  type Graph = seq<set<nat>>

  /** Every successor named in g is itself a node of g. */
  ghost predicate WellFormed(g: Graph) {
    forall a, b :: 0 <= a < |g| && b in g[a] ==> b < |g|
  }

  /** p is a walk through g: consecutive nodes are joined by edges. */
  ghost predicate IsPath(g: Graph, p: seq<nat>) {
    |p| > 0 && forall i :: 0 <= i < |p| - 1 ==> p[i] < |g| && p[i + 1] in g[p[i]]
  }

  /** There is a directed path (possibly of length zero) from a to b. */
  ghost predicate Reachable(g: Graph, a: nat, b: nat) {
    exists p :: IsPath(g, p) && p[0] == a && p[|p| - 1] == b
  }

  lemma ReachableRefl(g: Graph, a: nat)
    ensures Reachable(g, a, a)
  {
    assert IsPath(g, [a]);
  }

  lemma ReachableStep(g: Graph, a: nat, x: nat, y: nat)
    requires Reachable(g, a, x) && x < |g| && y in g[x]
    ensures Reachable(g, a, y)
  {
    var p :| IsPath(g, p) && p[0] == a && p[|p| - 1] == x;
    var q := p + [y];
    assert IsPath(g, q);
  }

  /** Joining two paths by an edge from the end of the first to the start of the second. */
  lemma PathJoin(g: Graph, p: seq<nat>, q: seq<nat>)
    requires IsPath(g, p) && IsPath(g, q)
    requires p[|p| - 1] < |g| && q[0] in g[p[|p| - 1]]
    ensures IsPath(g, p + q)
  {
    var r := p + q;
    forall i | 0 <= i < |r| - 1 ensures r[i] < |g| && r[i + 1] in g[r[i]] {
      if i < |p| - 1 {
        assert r[i] == p[i] && r[i + 1] == p[i + 1];
      } else if i == |p| - 1 {
        assert r[i] == p[|p| - 1] && r[i + 1] == q[0];
      } else {
        assert r[i] == q[i - |p|] && r[i + 1] == q[i - |p| + 1];
      }
    }
  }

  /** The nodes of a set closed under successors contain everything reachable from its members. */
  lemma {:induction false} ClosedContainsReachable(g: Graph, s: set<nat>, a: nat, b: nat)
    requires a in s
    requires forall x, y :: x in s && x < |g| && y in g[x] ==> y in s
    requires Reachable(g, a, b)
    ensures b in s
  {
    var p :| IsPath(g, p) && p[0] == a && p[|p| - 1] == b;
    var i := 0;
    while i < |p| - 1
      invariant 0 <= i <= |p| - 1
      invariant p[i] in s
    {
      assert p[i] < |g| && p[i + 1] in g[p[i]];
      i := i + 1;
    }
  }

  /** Appends the members of s to stack, in some order. */
  method PushAll(stack: seq<nat>, s: set<nat>) returns (r: seq<nat>)
    ensures forall x :: x in r <==> x in stack || x in s
  {
    r := stack;
    var rest := s;
    while rest != {}
      invariant rest <= s
      invariant forall x :: x in r <==> x in stack || x in s - rest
      decreases rest
    {
      var x :| x in rest;
      r := r + [x];
      rest := rest - {x};
    }
  }

  /** Whether b is reachable from a, by an iterative depth-first search with a stack and a set of
      discovered nodes. */
  method IsReachable(a: nat, b: nat, graph: Graph) returns (r: bool)
    requires WellFormed(graph)
    requires a < |graph| || a == b
    ensures r <==> Reachable(graph, a, b)
  {
    var discovered: set<nat> := {};
    var stack: seq<nat> := [a];
    ReachableRefl(graph, a);
    while stack != []
      invariant forall x :: x in stack ==> x < |graph| || x == b
      invariant forall x :: x in discovered ==> x < |graph|
      invariant b !in discovered
      invariant a in discovered || a in stack
      invariant forall x :: x in stack ==> Reachable(graph, a, x)
      invariant forall x :: x in discovered ==> Reachable(graph, a, x)
      invariant forall x, y :: x in discovered && y in graph[x] ==> y in discovered || y in stack
      decreases set x | 0 <= x < |graph| && x !in discovered, |stack|
    {
      ghost var full := stack;
      var node: nat := stack[|stack| - 1];
      stack := stack[..|stack| - 1];
      assert forall x :: x in full <==> x in stack || x == node;
      if node in discovered {
        // Already explored.
      } else if node == b {
        return true;
      } else {
        assert node in full;
        assert node < |graph|;
        ghost var before := set x | 0 <= x < |graph| && x !in discovered;
        assert node in before;
        discovered := discovered + {node};
        assert node !in (set x | 0 <= x < |graph| && x !in discovered);
        assert (set x | 0 <= x < |graph| && x !in discovered) < before;
        forall y | y in graph[node] ensures Reachable(graph, a, y) {
          ReachableStep(graph, a, node, y);
        }
        stack := PushAll(stack, graph[node]);
      }
    }
    if Reachable(graph, a, b) {
      ClosedContainsReachable(graph, discovered, a, b);
    }
    return false;
  }

  // ---- ballots and their validation ----

  /** One entry of a ballot; lower rank is better. */
  datatype VoteItem = VoteItem(candidate: nat, rank: nat)

  /** Whether entry i of a raw ballot survives validation: its candidate is in range and no earlier
      entry names the same candidate. */
  predicate KeptAt(n: nat, ballot: seq<VoteItem>, i: nat)
    requires i < |ballot|
  {
    ballot[i].candidate < n && forall j :: 0 <= j < i ==> ballot[j].candidate != ballot[i].candidate
  }

  /** The ballot after validation: the kept entries, in their original order. */
  function Filtered(n: nat, ballot: seq<VoteItem>): seq<VoteItem>
  {
    if ballot == [] then []
    else
      var last := |ballot| - 1;
      Filtered(n, ballot[..last]) + (if KeptAt(n, ballot, last) then [ballot[last]] else [])
  }

  /** A ballot whose candidates are all in range and pairwise distinct. */
  ghost predicate ValidBallot(n: nat, ballot: seq<VoteItem>) {
    && (forall i :: 0 <= i < |ballot| ==> ballot[i].candidate < n)
    && (forall i, j :: 0 <= i < j < |ballot| ==> ballot[i].candidate != ballot[j].candidate)
  }

  ghost predicate Names(ballot: seq<VoteItem>, c: nat) {
    exists i :: 0 <= i < |ballot| && ballot[i].candidate == c
  }

  /** Validation takes nothing that was not in the ballot. */
  lemma {:induction false} FilteredSub(n: nat, ballot: seq<VoteItem>)
    ensures forall x :: x in Filtered(n, ballot) ==> x in ballot
  {
    if ballot != [] {
      var last := |ballot| - 1;
      var pre := ballot[..last];
      FilteredSub(n, pre);
      var f := Filtered(n, pre);
      var r := Filtered(n, ballot);
      assert r == f + (if KeptAt(n, ballot, last) then [ballot[last]] else []);
      forall x | x in r ensures x in ballot {
        if x in f { assert x in pre; }
      }
    }
  }

  /** Validation leaves a ballot whose candidates are in range and pairwise distinct. */
  lemma {:induction false} FilteredValid(n: nat, ballot: seq<VoteItem>)
    ensures ValidBallot(n, Filtered(n, ballot))
  {
    if ballot != [] {
      var last := |ballot| - 1;
      var pre := ballot[..last];
      FilteredValid(n, pre);
      FilteredSub(n, pre);
      var f := Filtered(n, pre);
      var r := Filtered(n, ballot);
      if KeptAt(n, ballot, last) {
        assert r == f + [ballot[last]];
        forall i | 0 <= i < |f| ensures f[i].candidate != ballot[last].candidate {
          assert f[i] in pre;
        }
      } else {
        assert r == f;
      }
    }
  }

  /** Every in-range candidate the ballot names survives validation. */
  lemma {:induction false} FilteredKeepsNamed(n: nat, ballot: seq<VoteItem>, c: nat)
    requires c < n && Names(ballot, c)
    ensures Names(Filtered(n, ballot), c)
  {
    var last := |ballot| - 1;
    var pre := ballot[..last];
    var f := Filtered(n, pre);
    var r := Filtered(n, ballot);
    assert r == f + (if KeptAt(n, ballot, last) then [ballot[last]] else []);
    var j :| 0 <= j < |ballot| && ballot[j].candidate == c;
    if j < last {
      assert pre[j] == ballot[j];
      FilteredKeepsNamed(n, pre, c);
      var i :| 0 <= i < |f| && f[i].candidate == c;
      assert r[i] == f[i];
    } else if KeptAt(n, ballot, last) {
      assert r[|r| - 1].candidate == c;
    } else {
      var k :| 0 <= k < last && ballot[k].candidate == c;
      assert pre[k] == ballot[k];
      FilteredKeepsNamed(n, pre, c);
      var i :| 0 <= i < |f| && f[i].candidate == c;
      assert r[i] == f[i];
    }
  }

  /** Validation keeps exactly one entry for each in-range candidate the ballot names, takes
      nothing that was not in the ballot, and leaves a valid ballot. */
  lemma FilteredSpec(n: nat, ballot: seq<VoteItem>)
    ensures ValidBallot(n, Filtered(n, ballot))
    ensures forall x :: x in Filtered(n, ballot) ==> x in ballot
    ensures forall c: nat :: Names(Filtered(n, ballot), c) <==> c < n && Names(ballot, c)
  {
    FilteredSub(n, ballot);
    FilteredValid(n, ballot);
    var r := Filtered(n, ballot);
    forall c: nat ensures Names(r, c) <==> c < n && Names(ballot, c) {
      if Names(r, c) {
        var i :| 0 <= i < |r| && r[i].candidate == c;
        assert r[i] in ballot;
      }
      if c < n && Names(ballot, c) {
        FilteredKeepsNamed(n, ballot, c);
      }
    }
  }

  lemma ValidPrefix(n: nat, ballot: seq<VoteItem>)
    requires ValidBallot(n, ballot) && ballot != []
    ensures ValidBallot(n, ballot[..|ballot| - 1])
  {
    var pre := ballot[..|ballot| - 1];
    forall i | 0 <= i < |pre| ensures pre[i] == ballot[i] { }
  }

  /** A ballot that is already valid passes validation unchanged. */
  lemma {:induction false} FilteredValidIdentity(n: nat, ballot: seq<VoteItem>)
    requires ValidBallot(n, ballot)
    ensures Filtered(n, ballot) == ballot
  {
    if ballot != [] {
      var last := |ballot| - 1;
      var pre := ballot[..last];
      ValidPrefix(n, ballot);
      FilteredValidIdentity(n, pre);
      assert KeptAt(n, ballot, last) by {
        forall j | 0 <= j < last ensures ballot[j].candidate != ballot[last].candidate { }
      }
      assert Filtered(n, ballot) == Filtered(n, pre) + [ballot[last]];
      assert ballot == pre + [ballot[last]];
    }
  }

  /** Re-validating a validated ballot changes nothing. */
  lemma FilteredIdempotent(n: nat, ballot: seq<VoteItem>)
    ensures Filtered(n, Filtered(n, ballot)) == Filtered(n, ballot)
  {
    FilteredSpec(n, ballot);
    FilteredValidIdentity(n, Filtered(n, ballot));
  }

  /** Validation of one ballot: `retain` with a `seen_candidates` flag per candidate. */
  method RetainValid(n: nat, ballot: seq<VoteItem>) returns (kept: seq<VoteItem>)
    ensures kept == Filtered(n, ballot)
  {
    var seen := new bool[n](_ => false);
    kept := [];
    var i := 0;
    while i < |ballot|
      invariant 0 <= i <= |ballot|
      invariant kept == Filtered(n, ballot[..i])
      invariant forall c :: 0 <= c < n ==> (seen[c] <==> exists j :: 0 <= j < i && ballot[j].candidate == c)
    {
      var item := ballot[i];
      assert ballot[..i + 1][..i] == ballot[..i];
      if item.candidate < n && !seen[item.candidate] {
        kept := kept + [item];
      }
      if item.candidate < n {
        seen[item.candidate] := true;
      }
      i := i + 1;
    }
    assert ballot[..i] == ballot;
  }

  /** Validation of every ballot. */
  method ValidateVotes(n: nat, votes: seq<seq<VoteItem>>) returns (valid: seq<seq<VoteItem>>)
    ensures |valid| == |votes|
    ensures forall k :: 0 <= k < |votes| ==> valid[k] == Filtered(n, votes[k])
  {
    valid := [];
    for k := 0 to |votes|
      invariant |valid| == k
      invariant forall k' :: 0 <= k' < k ==> valid[k'] == Filtered(n, votes[k'])
    {
      var ballot := RetainValid(n, votes[k]);
      valid := valid + [ballot];
    }
  }
  ghost predicate SortedByRank(v: seq<VoteItem>) {
    forall i, j :: 0 <= i < j < |v| ==> v[i].rank <= v[j].rank
  }

  /** Inserts x after every entry of v whose rank is not greater than x's. */
  function InsertByRank(x: VoteItem, v: seq<VoteItem>): (r: seq<VoteItem>)
    requires SortedByRank(v)
    ensures SortedByRank(r)
    ensures multiset(r) == multiset(v) + multiset{x}
  {
    if v == [] then [x]
    else if x.rank < v[0].rank then [x] + v
    else
      var rest := InsertByRank(x, v[1..]);
      assert v == [v[0]] + v[1..];
      SortedCons(v[0], rest, v[1..], x);
      [v[0]] + rest
  }

  lemma SortedCons(h: VoteItem, t: seq<VoteItem>, from: seq<VoteItem>, x: VoteItem)
    requires SortedByRank(t) && SortedByRank([h] + from) && h.rank <= x.rank
    requires multiset(t) == multiset(from) + multiset{x}
    ensures SortedByRank([h] + t)
  {
    forall y | y in t ensures h.rank <= y.rank {
      assert y in multiset(t);
      if y != x {
        assert y in multiset(from);
        var k :| 0 <= k < |from| && from[k] == y;
        assert ([h] + from)[k + 1] == y && ([h] + from)[0] == h;
        assert 0 < k + 1 < |[h] + from|;
      }
    }
    var r := [h] + t;
    forall i, j | 0 <= i < j < |r| ensures r[i].rank <= r[j].rank {
      if i == 0 { assert r[j] == t[j - 1] && t[j - 1] in t; }
      else { assert r[i] == t[i - 1] && r[j] == t[j - 1]; }
    }
  }

  /** A stable sort by rank, as `sort_by_key(|item| item.rank)` and `Array.prototype.sort` with a
      rank comparator perform it. */
  function SortByRank(v: seq<VoteItem>): (r: seq<VoteItem>)
    ensures SortedByRank(r)
    ensures multiset(r) == multiset(v)
  {
    if v == [] then []
    else
      var last := |v| - 1;
      assert v == v[..last] + [v[last]];
      InsertByRank(v[last], SortByRank(v[..last]))
  }

  lemma {:induction false} SortByRankOfSorted(v: seq<VoteItem>)
    requires SortedByRank(v)
    ensures SortByRank(v) == v
  {
    if v != [] {
      var last := |v| - 1;
      SortByRankOfSorted(v[..last]);
      InsertAtEnd(v[last], v[..last]);
      assert v[..last] + [v[last]] == v;
    }
  }

  lemma {:induction false} InsertAtEnd(x: VoteItem, v: seq<VoteItem>)
    requires SortedByRank(v)
    requires forall y :: y in v ==> y.rank <= x.rank
    ensures InsertByRank(x, v) == v + [x]
  {
    if v != [] {
      assert v[0] in v;
      InsertAtEnd(x, v[1..]);
      assert [v[0]] + (v[1..] + [x]) == v + [x];
    }
  }

  // ---- pairwise totals ----

  /** The ballot ranks a strictly above b (entries with equal ranks express no preference). */
  ghost predicate Prefers(v: seq<VoteItem>, a: nat, b: nat) {
    exists x, y :: x in v && y in v && x.candidate == a && y.candidate == b && x.rank < y.rank
  }

  /** The number of ballots that, once validated, rank a strictly above b. */
  ghost function Count(n: nat, votes: seq<seq<VoteItem>>, a: nat, b: nat): nat
  {
    if votes == [] then 0
    else
      var last := |votes| - 1;
      Count(n, votes[..last], a, b) + (if Prefers(Filtered(n, votes[last]), a, b) then 1 else 0)
  }

  /** totals[a][b]: the number of ballots ranking candidate a over candidate b. */
  ghost function TotalsOf(n: nat, votes: seq<seq<VoteItem>>): (t: seq<seq<nat>>)
  {
    seq(n, a requires 0 <= a => seq(n, b requires 0 <= b => Count(n, votes, a, b)))
  }

  ghost predicate IsSquare(t: seq<seq<nat>>, n: nat) {
    |t| == n && forall a :: 0 <= a < n ==> |t[a]| == n
  }

  /** Pairs (p, q) of a ballot with p < i, p < q and a strict rank increase, naming a then b. */
  ghost predicate CountedBefore(v: seq<VoteItem>, i: nat, a: nat, b: nat) {
    exists p, q :: 0 <= p < i && p < q < |v| && v[p].candidate == a && v[q].candidate == b && v[p].rank < v[q].rank
  }

  ghost predicate NamedIn(v: seq<VoteItem>, lo: nat, hi: nat, b: nat) {
    exists k :: lo <= k < hi && k < |v| && v[k].candidate == b
  }

  lemma CountedStep(v: seq<VoteItem>, i: nat, start: nat, a: nat, b: nat)
    requires SortedByRank(v) && i < start <= |v|
    requires forall k :: i < k < start ==> v[k].rank == v[i].rank
    requires start < |v| ==> v[start].rank != v[i].rank
    ensures CountedBefore(v, i + 1, a, b) <==>
            CountedBefore(v, i, a, b) || (a == v[i].candidate && NamedIn(v, start, |v|, b))
  {
    if CountedBefore(v, i + 1, a, b) && !CountedBefore(v, i, a, b) {
      CountedNew(v, i, start, a, b);
    }
    if CountedBefore(v, i, a, b) {
      CountedOld(v, i, a, b);
    }
    if a == v[i].candidate && NamedIn(v, start, |v|, b) {
      var k :| start <= k < |v| && k < |v| && v[k].candidate == b;
      assert v[start].rank <= v[k].rank;
      assert v[i].rank <= v[start].rank;
      CountedLater(v, i, k);
    }
  }

  lemma CountedOld(v: seq<VoteItem>, i: nat, a: nat, b: nat)
    requires CountedBefore(v, i, a, b)
    ensures CountedBefore(v, i + 1, a, b)
  {
    var p, q :| 0 <= p < i && p < q < |v| && v[p].candidate == a && v[q].candidate == b && v[p].rank < v[q].rank;
  }

  lemma CountedLater(v: seq<VoteItem>, i: nat, k: nat)
    requires i < k < |v| && v[i].rank < v[k].rank
    ensures CountedBefore(v, i + 1, v[i].candidate, v[k].candidate)
  {
  }

  /** A pair counted at entry i but not before names v[i] and an entry past its ties. */
  lemma CountedNew(v: seq<VoteItem>, i: nat, start: nat, a: nat, b: nat)
    requires i < start <= |v|
    requires forall k :: i < k < start ==> v[k].rank == v[i].rank
    requires CountedBefore(v, i + 1, a, b) && !CountedBefore(v, i, a, b)
    ensures a == v[i].candidate && NamedIn(v, start, |v|, b)
  {
    var p, q :| 0 <= p < i + 1 && p < q < |v| && v[p].candidate == a && v[q].candidate == b && v[p].rank < v[q].rank;
    assert p == i;
    assert q >= start;
  }

  lemma CountedAll(v: seq<VoteItem>, a: nat, b: nat)
    requires SortedByRank(v)
    ensures CountedBefore(v, |v|, a, b) <==> Prefers(v, a, b)
  {
    if Prefers(v, a, b) {
      var x, y :| x in v && y in v && x.candidate == a && y.candidate == b && x.rank < y.rank;
      var p :| 0 <= p < |v| && v[p] == x;
      var q :| 0 <= q < |v| && v[q] == y;
      assert p < q;
      CountedPair(v, p, q);
    }
    if CountedBefore(v, |v|, a, b) {
      PairPrefers(v, a, b);
    }
  }

  lemma CountedPair(v: seq<VoteItem>, p: nat, q: nat)
    requires p < q < |v| && v[p].rank < v[q].rank
    ensures CountedBefore(v, |v|, v[p].candidate, v[q].candidate)
  {
  }

  lemma PairPrefers(v: seq<VoteItem>, a: nat, b: nat)
    requires CountedBefore(v, |v|, a, b)
    ensures Prefers(v, a, b)
  {
    var p, q :| 0 <= p < |v| && p < q < |v| && v[p].candidate == a && v[q].candidate == b && v[p].rank < v[q].rank;
    assert v[p] in v && v[q] in v;
  }

  /** Adds one sorted, validated ballot into the matrix: for each entry, skip the entries tied with
      it and count a win over every later one. */
  method AddBallot(totals: seq<seq<nat>>, n: nat, v: seq<VoteItem>) returns (t: seq<seq<nat>>)
    requires IsSquare(totals, n) && ValidBallot(n, v) && SortedByRank(v)
    ensures IsSquare(t, n)
    ensures forall a, b :: 0 <= a < n && 0 <= b < n ==>
              t[a][b] == totals[a][b] + (if Prefers(v, a, b) then 1 else 0)
  {
    t := totals;
    var i := 0;
    while i < |v|
      invariant 0 <= i <= |v|
      invariant IsSquare(t, n)
      invariant forall a, b :: 0 <= a < n && 0 <= b < n ==>
                  t[a][b] == totals[a][b] + (if CountedBefore(v, i, a, b) then 1 else 0)
    {
      var j := i + 1;
      while j < |v| && v[j].rank == v[i].rank
        invariant i + 1 <= j <= |v|
        invariant forall k :: i < k < j ==> v[k].rank == v[i].rank
      {
        j := j + 1;
      }
      t := CountWins(t, n, v, i, j);
      forall a, b | 0 <= a < n && 0 <= b < n
        ensures t[a][b] == totals[a][b] + (if CountedBefore(v, i + 1, a, b) then 1 else 0)
      {
        CountedStep(v, i, j, a, b);
        if a == v[i].candidate {
          NotCountedYet(n, v, i, b);
        }
      }
      i := i + 1;
    }
    forall a, b ensures CountedBefore(v, |v|, a, b) <==> Prefers(v, a, b) {
      CountedAll(v, a, b);
    }
  }

  /** The inner loop for entry i: one more win for v[i] over every entry from start on. */
  method CountWins(t0: seq<seq<nat>>, n: nat, v: seq<VoteItem>, i: nat, start: nat) returns (t: seq<seq<nat>>)
    requires IsSquare(t0, n) && ValidBallot(n, v) && i < start <= |v|
    ensures IsSquare(t, n)
    ensures forall a, b {:trigger t[a][b]} :: 0 <= a < n && 0 <= b < n ==>
              t[a][b] == t0[a][b] + (if a == v[i].candidate && NamedIn(v, start, |v|, b) then 1 else 0)
  {
    t := t0;
    var j := start;
    assert forall b :: !NamedIn(v, start, start, b);
    while j < |v|
      invariant start <= j <= |v|
      invariant IsSquare(t, n)
      invariant forall a, b {:trigger t[a][b]} :: 0 <= a < n && 0 <= b < n ==>
                  t[a][b] == t0[a][b] + (if a == v[i].candidate && NamedIn(v, start, j, b) then 1 else 0)
    {
      var a, b := v[i].candidate, v[j].candidate;
      NotNamedYet(n, v, start, j);
      t := t[a := t[a][b := t[a][b] + 1]];
      NamedStep(v, start, j);
      j := j + 1;
    }
  }

  /** On a valid ballot no earlier entry names the candidate of entry i. */
  lemma NotCountedYet(n: nat, v: seq<VoteItem>, i: nat, b: nat)
    requires ValidBallot(n, v) && i < |v|
    ensures !CountedBefore(v, i, v[i].candidate, b)
  {
    forall p | 0 <= p < i ensures v[p].candidate != v[i].candidate {
    }
  }

  lemma NotNamedYet(n: nat, v: seq<VoteItem>, start: nat, j: nat)
    requires ValidBallot(n, v) && start <= j < |v|
    ensures !NamedIn(v, start, j, v[j].candidate)
  {
    forall k | start <= k < j ensures v[k].candidate != v[j].candidate {
    }
  }

  lemma NamedStep(v: seq<VoteItem>, start: nat, j: nat)
    requires start <= j < |v|
    ensures forall b :: NamedIn(v, start, j + 1, b) <==> NamedIn(v, start, j, b) || b == v[j].candidate
  {
    forall b | NamedIn(v, start, j + 1, b) ensures NamedIn(v, start, j, b) || b == v[j].candidate {
      var k :| start <= k < j + 1 && k < |v| && v[k].candidate == b;
    }
    assert NamedIn(v, start, j + 1, v[j].candidate);
  }

  // ---- permutations of ballots ----

  lemma TwoIndicesCount<T>(s: seq<T>, i: nat, j: nat)
    requires i < j < |s| && s[i] == s[j]
    ensures multiset(s)[s[i]] >= 2
  {
    assert s == s[..j] + [s[j]] + s[j + 1..];
    assert s[i] == s[..j][i];
    assert s[i] in multiset(s[..j]);
  }

  lemma CountTwoIndices<T>(s: seq<T>, x: T)
    requires multiset(s)[x] >= 2
    ensures exists i, j :: 0 <= i < j < |s| && s[i] == x && s[j] == x
  {
    assert x in multiset(s);
    var i :| 0 <= i < |s| && s[i] == x;
    assert s == s[..i] + [s[i]] + s[i + 1..];
    assert multiset(s[..i] + s[i + 1..])[x] >= 1;
    assert x in multiset(s[..i]) || x in multiset(s[i + 1..]);
    if x in s[..i] {
      var p :| 0 <= p < i && s[..i][p] == x;
      assert s[p] == x;
    } else {
      assert x in s[i + 1..];
      var q :| 0 <= q < |s| - i - 1 && s[i + 1..][q] == x;
      assert s[i + 1 + q] == x;
    }
  }

  /** Reordering a valid ballot leaves it valid. */
  lemma ValidPermutation(n: nat, u: seq<VoteItem>, v: seq<VoteItem>)
    requires ValidBallot(n, u) && multiset(u) == multiset(v)
    ensures ValidBallot(n, v)
  {
    forall i | 0 <= i < |v| ensures v[i].candidate < n {
      assert v[i] in multiset(v);
      var p :| 0 <= p < |u| && u[p] == v[i];
    }
    forall i, j | 0 <= i < j < |v| ensures v[i].candidate != v[j].candidate {
      if v[i] == v[j] {
        TwoIndicesCount(v, i, j);
        CountTwoIndices(u, v[i]);
      } else {
        assert v[i] in multiset(u) && v[j] in multiset(u);
        var p :| 0 <= p < |u| && u[p] == v[i];
        var q :| 0 <= q < |u| && u[q] == v[j];
        DistinctAt(n, u, p, q);
      }
    }
  }

  lemma DistinctAt(n: nat, u: seq<VoteItem>, p: nat, q: nat)
    requires ValidBallot(n, u) && p < |u| && q < |u| && p != q
    ensures u[p].candidate != u[q].candidate
  {
    if p > q { DistinctAt(n, u, q, p); }
  }

  lemma SameMembersPrefer(s: seq<VoteItem>, v: seq<VoteItem>)
    requires multiset(s) == multiset(v)
    ensures forall a, b :: Prefers(s, a, b) <==> Prefers(v, a, b)
  {
    forall x ensures x in s <==> x in v {
      assert x in s <==> x in multiset(s);
      assert x in v <==> x in multiset(v);
    }
  }

  /** Sorting a validated ballot by rank keeps it valid and keeps every preference it expresses. */
  lemma SortedBallot(n: nat, ballot: seq<VoteItem>)
    ensures ValidBallot(n, SortByRank(Filtered(n, ballot)))
    ensures SortedByRank(SortByRank(Filtered(n, ballot)))
    ensures forall a, b :: Prefers(SortByRank(Filtered(n, ballot)), a, b) <==> Prefers(Filtered(n, ballot), a, b)
  {
    var v := Filtered(n, ballot);
    var s := SortByRank(v);
    FilteredSpec(n, ballot);
    ValidPermutation(n, v, s);
    SameMembersPrefer(s, v);
  }

  lemma TotalsFromCells(t: seq<seq<nat>>, n: nat, votes: seq<seq<VoteItem>>)
    requires IsSquare(t, n)
    requires forall a, b :: 0 <= a < n && 0 <= b < n ==> t[a][b] == Count(n, votes, a, b)
    ensures t == TotalsOf(n, votes)
  {
    var u := TotalsOf(n, votes);
    forall a | 0 <= a < n ensures t[a] == u[a] {
      assert |t[a]| == |u[a]|;
    }
  }

  lemma CountSnoc(n: nat, votes: seq<seq<VoteItem>>, k: nat, a: nat, b: nat)
    requires k < |votes|
    ensures Count(n, votes[..k + 1], a, b) ==
            Count(n, votes[..k], a, b) + (if Prefers(Filtered(n, votes[k]), a, b) then 1 else 0)
  {
    assert votes[..k + 1][..k] == votes[..k];
  }

  /** The matrix counted directly over validated ballots. */
  method ComputeTotals(n: nat, valid: seq<seq<VoteItem>>, ghost votes: seq<seq<VoteItem>>)
    returns (totals: seq<seq<nat>>)
    requires |valid| == |votes|
    requires forall k :: 0 <= k < |votes| ==> valid[k] == Filtered(n, votes[k])
    ensures totals == TotalsOf(n, votes)
  {
    totals := seq(n, _ => seq(n, _ => 0));
    for k := 0 to |valid|
      invariant IsSquare(totals, n)
      invariant forall a, b :: 0 <= a < n && 0 <= b < n ==> totals[a][b] == Count(n, votes[..k], a, b)
    {
      SortedBallot(n, votes[k]);
      var vote := SortByRank(valid[k]);
      totals := AddBallot(totals, n, vote);
      forall a, b | 0 <= a < n && 0 <= b < n ensures totals[a][b] == Count(n, votes[..k + 1], a, b) {
        CountSnoc(n, votes, k, a, b);
      }
    }
    assert votes[..|valid|] == votes;
    TotalsFromCells(totals, n, votes);
  }

  // ---- facts about the totals ----

  /** On a valid ballot each candidate has one entry, so there is at most one rank per candidate. */
  lemma SingleEntry(n: nat, v: seq<VoteItem>, x: VoteItem, y: VoteItem)
    requires ValidBallot(n, v) && x in v && y in v && x.candidate == y.candidate
    ensures x == y
  {
    var i :| 0 <= i < |v| && v[i] == x;
    var j :| 0 <= j < |v| && v[j] == y;
  }

  /** Two entries with equal ranks count for neither candidate over the other. */
  lemma TieCountsForNeither(n: nat, ballot: seq<VoteItem>, x: VoteItem, y: VoteItem)
    requires x in Filtered(n, ballot) && y in Filtered(n, ballot) && x.rank == y.rank
    ensures !Prefers(Filtered(n, ballot), x.candidate, y.candidate)
    ensures !Prefers(Filtered(n, ballot), y.candidate, x.candidate)
  {
    var v := Filtered(n, ballot);
    FilteredSpec(n, ballot);
    forall x', y' | x' in v && y' in v && x'.candidate == x.candidate && y'.candidate == y.candidate
      ensures x'.rank == y'.rank
    {
      SingleEntry(n, v, x, x');
      SingleEntry(n, v, y, y');
    }
  }

  lemma {:induction false} DiagonalZero(n: nat, votes: seq<seq<VoteItem>>, a: nat)
    ensures Count(n, votes, a, a) == 0
  {
    if votes != [] {
      var last := |votes| - 1;
      DiagonalZero(n, votes[..last], a);
      var v := Filtered(n, votes[last]);
      FilteredSpec(n, votes[last]);
      forall x, y | x in v && y in v && x.candidate == a && y.candidate == a ensures x.rank == y.rank {
        SingleEntry(n, v, x, y);
      }
    }
  }

  lemma {:induction false} OppositeCountsBounded(n: nat, votes: seq<seq<VoteItem>>, a: nat, b: nat)
    ensures Count(n, votes, a, b) + Count(n, votes, b, a) <= |votes|
  {
    if votes != [] {
      var last := |votes| - 1;
      OppositeCountsBounded(n, votes[..last], a, b);
      var v := Filtered(n, votes[last]);
      FilteredSpec(n, votes[last]);
      if Prefers(v, a, b) {
        var x, y :| x in v && y in v && x.candidate == a && y.candidate == b && x.rank < y.rank;
        forall y', x' | y' in v && x' in v && y'.candidate == b && x'.candidate == a ensures y'.rank >= x'.rank {
          SingleEntry(n, v, x, x');
          SingleEntry(n, v, y, y');
        }
      }
    }
  }

  lemma {:induction false} CountRemove(n: nat, votes: seq<seq<VoteItem>>, k: nat, a: nat, b: nat)
    requires k < |votes|
    ensures Count(n, votes, a, b) ==
            Count(n, votes[..k] + votes[k + 1..], a, b) + (if Prefers(Filtered(n, votes[k]), a, b) then 1 else 0)
  {
    var last := |votes| - 1;
    RemovedLast(votes, k);
    if k < last {
      CountRemove(n, votes[..last], k, a, b);
      CountLast(n, votes[..k] + votes[k + 1..], a, b);
    }
  }

  lemma CountLast(n: nat, votes: seq<seq<VoteItem>>, a: nat, b: nat)
    requires votes != []
    ensures Count(n, votes, a, b) ==
            Count(n, votes[..|votes| - 1], a, b) + (if Prefers(Filtered(n, votes[|votes| - 1]), a, b) then 1 else 0)
  {
  }

  /** Removing entry k, then the last entry, is removing the last entry, then entry k. */
  lemma RemovedLast<T>(s: seq<T>, k: nat)
    requires k < |s|
    ensures k == |s| - 1 ==> s[..k] + s[k + 1..] == s[..|s| - 1]
    ensures k < |s| - 1 ==>
      var r := s[..k] + s[k + 1..];
      |r| == |s| - 1 && r[..|r| - 1] == s[..|s| - 1][..k] + s[..|s| - 1][k + 1..] && r[|r| - 1] == s[|s| - 1]
  {
    if k < |s| - 1 {
      var r := s[..k] + s[k + 1..];
      assert r[..|r| - 1] == s[..|s| - 1][..k] + s[..|s| - 1][k + 1..];
    }
  }

  /** The count for a pair depends on the multiset of ballots, not on their order. */
  lemma {:induction false} CountPermutation(n: nat, v1: seq<seq<VoteItem>>, v2: seq<seq<VoteItem>>, a: nat, b: nat)
    requires multiset(v1) == multiset(v2)
    ensures Count(n, v1, a, b) == Count(n, v2, a, b)
    decreases |v1|
  {
    if v1 == [] {
      assert |v2| == |multiset(v2)| == 0;
    } else {
      var last := |v1| - 1;
      var k := RemoveMatching(v1, v2);
      CountRemove(n, v2, k, a, b);
      CountPermutation(n, v1[..last], v2[..k] + v2[k + 1..], a, b);
      CountLast(n, v1, a, b);
    }
  }

  /** The last element of v1 sits somewhere in a permutation v2 of it; removing it from both
      leaves permutations of each other. */
  lemma RemoveMatching<T>(v1: seq<T>, v2: seq<T>) returns (k: nat)
    requires multiset(v1) == multiset(v2) && v1 != []
    ensures k < |v2| && v2[k] == v1[|v1| - 1]
    ensures multiset(v1[..|v1| - 1]) == multiset(v2[..k] + v2[k + 1..])
  {
    var last := |v1| - 1;
    var e := v1[last];
    assert v1 == v1[..last] + [e];
    assert e in multiset(v2);
    k :| 0 <= k < |v2| && v2[k] == e;
    Seqs.RemoveAt(v2, k);
    assert multiset(v1) == multiset(v1[..last]) + multiset{e};
    assert multiset(v1[..last]) == multiset(v1) - multiset{e};
  }

  /** Permuting the list of ballots leaves the whole matrix unchanged. */
  lemma TotalsPermutation(n: nat, v1: seq<seq<VoteItem>>, v2: seq<seq<VoteItem>>)
    requires multiset(v1) == multiset(v2)
    ensures TotalsOf(n, v1) == TotalsOf(n, v2)
  {
    forall a, b | 0 <= a < n && 0 <= b < n ensures Count(n, v1, a, b) == Count(n, v2, a, b) {
      CountPermutation(n, v1, v2, a, b);
    }
    var t1, t2 := TotalsOf(n, v1), TotalsOf(n, v2);
    forall a | 0 <= a < n ensures t1[a] == t2[a] {
      assert |t1[a]| == |t2[a]|;
    }
  }

  /** The matrix is n by n, zero on the diagonal, and the two counts of a pair never exceed the
      number of ballots together. */
  lemma TotalsShape(n: nat, votes: seq<seq<VoteItem>>)
    ensures IsSquare(TotalsOf(n, votes), n)
    ensures forall a :: 0 <= a < n ==> TotalsOf(n, votes)[a][a] == 0
    ensures forall a, b :: 0 <= a < n && 0 <= b < n ==>
              TotalsOf(n, votes)[a][b] + TotalsOf(n, votes)[b][a] <= |votes|
  {
    forall a | 0 <= a < n ensures TotalsOf(n, votes)[a][a] == 0 { DiagonalZero(n, votes, a); }
    forall a, b | 0 <= a < n && 0 <= b < n
      ensures TotalsOf(n, votes)[a][b] + TotalsOf(n, votes)[b][a] <= |votes|
    {
      OppositeCountsBounded(n, votes, a, b);
    }
  }

  // ---- the defeat graph ----

  /** A defeat (winner, loser). */
  type Edge = (nat, nat)

  ghost function Elems<T>(s: seq<T>): set<T> {
    set x | x in s
  }

  /** No edge a -> b lies on a cycle: b never leads back to a. */
  ghost predicate Acyclic(g: Graph) {
    forall a, b :: 0 <= a < |g| && b in g[a] ==> !Reachable(g, b, a)
  }

  ghost predicate EdgesWithin(E: set<Edge>, n: nat) {
    forall e :: e in E ==> e.0 < n && e.1 < n
  }

  /** The heads of the edges in E whose tail is a. */
  ghost function From(E: set<Edge>, a: nat): set<nat> {
    set e | e in E && e.0 == a :: e.1
  }

  ghost function Inserted(g: Graph, E: set<Edge>): Graph {
    seq(|g|, a requires 0 <= a < |g| => g[a] + From(E, a))
  }

  ghost function Removed(g: Graph, C: set<Edge>): Graph {
    seq(|g|, a requires 0 <= a < |g| => g[a] - From(C, a))
  }

  /** The edges of E that close a cycle in h (their loser leads back to their winner). */
  ghost function InCycle(h: Graph, E: set<Edge>): set<Edge> {
    set e | e in E && Reachable(h, e.1, e.0)
  }

  /** Locking one group of equivalent defeats: all of them are inserted together, then every one of
      them that lies on a cycle of the enlarged graph is taken out again. */
  ghost function GroupStep(g: Graph, E: set<Edge>): Graph {
    Removed(Inserted(g, E), InCycle(Inserted(g, E), E))
  }

  lemma FromAdd(E: set<Edge>, e: Edge, a: nat)
    ensures From(E + {e}, a) == From(E, a) + (if e.0 == a then {e.1} else {})
  {
  }

  lemma ElemsSnoc<T>(s: seq<T>, i: nat)
    requires i < |s|
    ensures Elems(s[..i + 1]) == Elems(s[..i]) + {s[i]}
  {
    assert s[..i + 1] == s[..i] + [s[i]];
  }

  lemma GraphsEqual(g: Graph, h: Graph)
    requires |g| == |h| && forall a :: 0 <= a < |g| ==> g[a] == h[a]
    ensures g == h
  {
  }

  lemma GroupStepWellFormed(g: Graph, E: set<Edge>)
    requires WellFormed(g) && EdgesWithin(E, |g|)
    ensures |GroupStep(g, E)| == |g| && WellFormed(GroupStep(g, E))
    ensures WellFormed(Inserted(g, E))
  {
  }

  /** Inserts every edge of group into g. */
  method InsertEdges(g: Graph, group: seq<Edge>) returns (h: Graph)
    requires forall k :: 0 <= k < |group| ==> group[k].0 < |g|
    ensures h == Inserted(g, Elems(group))
  {
    h := g;
    for i := 0 to |group|
      invariant |h| == |g|
      invariant forall a :: 0 <= a < |g| ==> h[a] == g[a] + From(Elems(group[..i]), a)
    {
      var a, b := group[i].0, group[i].1;
      h := h[a := h[a] + {b}];
      ElemsSnoc(group, i);
      forall x | 0 <= x < |g|
        ensures From(Elems(group[..i + 1]), x) == From(Elems(group[..i]), x) + (if a == x then {b} else {})
      {
        FromAdd(Elems(group[..i]), group[i], x);
      }
    }
    assert group[..|group|] == group;
    GraphsEqual(h, Inserted(g, Elems(group)));
  }

  /** Removes every edge of cycles from h. */
  method RemoveEdges(h: Graph, cycles: seq<Edge>) returns (r: Graph)
    requires forall k :: 0 <= k < |cycles| ==> cycles[k].0 < |h|
    ensures r == Removed(h, Elems(cycles))
  {
    r := h;
    for i := 0 to |cycles|
      invariant |r| == |h|
      invariant forall a :: 0 <= a < |h| ==> r[a] == h[a] - From(Elems(cycles[..i]), a)
    {
      var a, b := cycles[i].0, cycles[i].1;
      r := r[a := r[a] - {b}];
      ElemsSnoc(cycles, i);
      forall x | 0 <= x < |h|
        ensures From(Elems(cycles[..i + 1]), x) == From(Elems(cycles[..i]), x) + (if a == x then {b} else {})
      {
        FromAdd(Elems(cycles[..i]), cycles[i], x);
      }
    }
    assert cycles[..|cycles|] == cycles;
    GraphsEqual(r, Removed(h, Elems(cycles)));
  }

  lemma InCycleAdd(h: Graph, E: set<Edge>, e: Edge)
    ensures InCycle(h, E + {e}) == InCycle(h, E) + (if Reachable(h, e.1, e.0) then {e} else {})
  {
  }

  lemma InCycleSnoc(h: Graph, group: seq<Edge>, i: nat, cycles: seq<Edge>, back: bool)
    requires i < |group| && Elems(cycles) == InCycle(h, Elems(group[..i]))
    requires back <==> Reachable(h, group[i].1, group[i].0)
    ensures Elems(if back then cycles + [group[i]] else cycles) == InCycle(h, Elems(group[..i + 1]))
  {
    ElemsSnoc(group, i);
    InCycleAdd(h, Elems(group[..i]), group[i]);
    if back {
      ElemsSnoc(cycles + [group[i]], |cycles|);
      assert (cycles + [group[i]])[..|cycles|] == cycles;
    }
  }

  /** The edges of group whose loser reaches their winner in h, in group order. */
  method CycleEdges(h: Graph, group: seq<Edge>) returns (cycles: seq<Edge>)
    requires WellFormed(h)
    requires forall k :: 0 <= k < |group| ==> group[k].0 < |h| && group[k].1 < |h|
    ensures Elems(cycles) == InCycle(h, Elems(group))
    ensures forall k :: 0 <= k < |cycles| ==> cycles[k] in group
  {
    cycles := [];
    for i := 0 to |group|
      invariant Elems(cycles) == InCycle(h, Elems(group[..i]))
      invariant forall k :: 0 <= k < |cycles| ==> cycles[k] in group
    {
      var a, b := group[i].0, group[i].1;
      var back := IsReachable(b, a, h);
      InCycleSnoc(h, group, i, cycles, back);
      if back {
        cycles := cycles + [group[i]];
      }
    }
    assert group[..|group|] == group;
  }

  /** One group of equivalent defeats locked into the graph. */
  method LockGroup(g: Graph, group: seq<Edge>) returns (r: Graph)
    requires WellFormed(g)
    requires forall k :: 0 <= k < |group| ==> group[k].0 < |g| && group[k].1 < |g|
    ensures r == GroupStep(g, Elems(group))
  {
    var h := InsertEdges(g, group);
    GroupStepWellFormed(g, Elems(group));
    var cycles := CycleEdges(h, group);
    r := RemoveEdges(h, cycles);
  }

  /** g1 is contained in g2, node by node. */
  ghost predicate Subgraph(g1: Graph, g2: Graph) {
    |g1| == |g2| && forall a :: 0 <= a < |g1| ==> g1[a] <= g2[a]
  }

  lemma PathMono(g1: Graph, g2: Graph, p: seq<nat>)
    requires Subgraph(g1, g2) && IsPath(g1, p)
    ensures IsPath(g2, p)
  {
    forall i | 0 <= i < |p| - 1 ensures p[i] < |g2| && p[i + 1] in g2[p[i]] {
      assert p[i] < |g1| && p[i + 1] in g1[p[i]];
    }
  }

  lemma ReachMono(g1: Graph, g2: Graph, a: nat, b: nat)
    requires Subgraph(g1, g2) && Reachable(g1, a, b)
    ensures Reachable(g2, a, b)
  {
    var p :| IsPath(g1, p) && p[0] == a && p[|p| - 1] == b;
    PathMono(g1, g2, p);
  }

  /** In a closed walk each edge's head leads back to its tail. */
  lemma ClosedWalkEdge(g: Graph, c: seq<nat>, i: nat)
    requires IsPath(g, c) && |c| >= 2 && c[0] == c[|c| - 1] && i < |c| - 1
    ensures Reachable(g, c[i + 1], c[i])
  {
    var p := c[i + 1..];
    assert IsPath(g, p);
    if i == 0 {
      assert p[0] == c[1] && p[|p| - 1] == c[0];
    } else {
      var q := c[1..i + 1];
      assert IsPath(g, q);
      assert p[|p| - 1] == c[0] && q[0] == c[1];
      PathJoin(g, p, q);
      assert (p + q)[0] == c[i + 1] && (p + q)[|p + q| - 1] == c[i];
    }
  }

  /** A walk through the graph after a group step either stays inside the old graph or uses one of the
      group's kept edges. */
  lemma {:induction false} WalkAfterGroupStep(g: Graph, E: set<Edge>, p: seq<nat>)
    requires IsPath(GroupStep(g, E), p)
    ensures IsPath(g, p) || exists i :: 0 <= i < |p| - 1 && (p[i], p[i + 1]) in E - InCycle(Inserted(g, E), E)
  {
    var r := GroupStep(g, E);
    if !IsPath(g, p) {
      var i :| 0 <= i < |p| - 1 && !(p[i] < |g| && p[i + 1] in g[p[i]]);
      assert p[i] < |r| && p[i + 1] in r[p[i]];
      assert p[i + 1] in From(E, p[i]);
      var e :| e in E && e.0 == p[i] && e.1 == p[i + 1];
      assert e == (p[i], p[i + 1]);
    }
  }

  /** Locking a group keeps the graph acyclic. */
  lemma GroupStepAcyclic(g: Graph, E: set<Edge>)
    requires WellFormed(g) && EdgesWithin(E, |g|) && Acyclic(g)
    ensures Acyclic(GroupStep(g, E))
  {
    var h := Inserted(g, E);
    var r := GroupStep(g, E);
    assert Subgraph(r, h);
    forall a, b | 0 <= a < |r| && b in r[a] ensures !Reachable(r, b, a) {
      if Reachable(r, b, a) {
        var p :| IsPath(r, p) && p[0] == b && p[|p| - 1] == a;
        var c := [a] + p;
        assert IsPath(r, c);
        WalkAfterGroupStep(g, E, c);
        if IsPath(g, c) {
          ClosedWalkEdge(g, c, 0);
        } else {
          var i :| 0 <= i < |c| - 1 && (c[i], c[i + 1]) in E - InCycle(h, E);
          ClosedWalkEdge(r, c, i);
          ReachMono(r, h, c[i + 1], c[i]);
        }
      }
    }
  }

  // ---- defeats and their order ----

  /** totals[a][b], or 0 outside the matrix. */
  function At(totals: seq<seq<nat>>, a: nat, b: nat): nat {
    if a < |totals| && b < |totals[a]| then totals[a][b] else 0
  }

  /** a defeats b: more ballots rank a over b than b over a. */
  ghost predicate IsDefeat(totals: seq<seq<nat>>, n: nat, e: Edge) {
    e.0 < n && e.1 < n && At(totals, e.0, e.1) > At(totals, e.1, e.0)
  }

  ghost function DefeatSet(totals: seq<seq<nat>>, n: nat): set<Edge> {
    set a: nat, b: nat | a < n && b < n && At(totals, a, b) > At(totals, b, a) :: (a, b)
  }

  predicate EdgeBefore(e: Edge, f: Edge) {
    e.0 < f.0 || (e.0 == f.0 && e.1 < f.1)
  }

  /** Every defeat, enumerated by winner and then by loser. */
  method Defeats(totals: seq<seq<nat>>, n: nat) returns (d: seq<Edge>)
    requires IsSquare(totals, n)
    ensures forall e: Edge :: e in d <==> IsDefeat(totals, n, e)
    ensures forall i, j :: 0 <= i < j < |d| ==> EdgeBefore(d[i], d[j])
  {
    d := [];
    for c := 0 to n
      invariant forall e: Edge :: e in d <==> IsDefeat(totals, n, e) && e.0 < c
      invariant forall i, j :: 0 <= i < j < |d| ==> EdgeBefore(d[i], d[j])
      invariant forall i :: 0 <= i < |d| ==> d[i].0 < c
    {
      for c2 := 0 to n
        invariant forall e: Edge :: e in d <==> IsDefeat(totals, n, e) && (e.0 < c || (e.0 == c && e.1 < c2))
        invariant forall i, j :: 0 <= i < j < |d| ==> EdgeBefore(d[i], d[j])
        invariant forall i :: 0 <= i < |d| ==> EdgeBefore(d[i], (c, c2))
      {
        if totals[c][c2] > totals[c2][c] {
          d := d + [(c, c2)];
        }
      }
    }
  }

  /** The sort key (strength, margin) of a defeat. */
  function SortKey(totals: seq<seq<nat>>, e: Edge): (int, int) {
    (At(totals, e.0, e.1), At(totals, e.0, e.1) - At(totals, e.1, e.0))
  }

  /** The grouping key of a defeat: its two pairwise counts. */
  function GroupKey(totals: seq<seq<nat>>, e: Edge): (nat, nat) {
    (At(totals, e.0, e.1), At(totals, e.1, e.0))
  }

  predicate KeyAtLeast(k1: (int, int), k2: (int, int)) {
    k1.0 > k2.0 || (k1.0 == k2.0 && k1.1 >= k2.1)
  }

  /** Strongest defeats first: descending by strength, then by margin. */
  ghost predicate StrongestFirst(totals: seq<seq<nat>>, s: seq<Edge>) {
    forall i, j :: 0 <= i < j < |s| ==> KeyAtLeast(SortKey(totals, s[i]), SortKey(totals, s[j]))
  }

  lemma SameKeys(totals: seq<seq<nat>>, e: Edge, f: Edge)
    ensures SortKey(totals, e) == SortKey(totals, f) <==> GroupKey(totals, e) == GroupKey(totals, f)
  {
  }

  function InsertEdge(totals: seq<seq<nat>>, x: Edge, v: seq<Edge>): (r: seq<Edge>)
    requires StrongestFirst(totals, v)
    ensures StrongestFirst(totals, r)
    ensures multiset(r) == multiset(v) + multiset{x}
  {
    if v == [] then [x]
    else if !KeyAtLeast(SortKey(totals, v[0]), SortKey(totals, x)) then [x] + v
    else
      var rest := InsertEdge(totals, x, v[1..]);
      assert v == [v[0]] + v[1..];
      EdgeSortedCons(totals, v[0], rest, v[1..], x);
      [v[0]] + rest
  }

  lemma EdgeSortedCons(totals: seq<seq<nat>>, h: Edge, t: seq<Edge>, from: seq<Edge>, x: Edge)
    requires StrongestFirst(totals, t) && StrongestFirst(totals, [h] + from)
    requires KeyAtLeast(SortKey(totals, h), SortKey(totals, x))
    requires multiset(t) == multiset(from) + multiset{x}
    ensures StrongestFirst(totals, [h] + t)
  {
    forall y | y in t ensures KeyAtLeast(SortKey(totals, h), SortKey(totals, y)) {
      assert y in multiset(t);
      if y != x {
        assert y in multiset(from);
        var k :| 0 <= k < |from| && from[k] == y;
        assert ([h] + from)[k + 1] == y && ([h] + from)[0] == h;
        assert 0 < k + 1 < |[h] + from|;
      }
    }
    var r := [h] + t;
    forall i, j | 0 <= i < j < |r| ensures KeyAtLeast(SortKey(totals, r[i]), SortKey(totals, r[j])) {
      if i == 0 { assert r[j] == t[j - 1] && t[j - 1] in t; }
      else { assert r[i] == t[i - 1] && r[j] == t[j - 1]; }
    }
  }

  /** Sorts the defeats strongest first; the order among defeats with equal keys is immaterial
      (see LockOrderIrrelevant). */
  function SortDefeats(totals: seq<seq<nat>>, v: seq<Edge>): (r: seq<Edge>)
    ensures StrongestFirst(totals, r)
    ensures multiset(r) == multiset(v)
  {
    if v == [] then []
    else
      var last := |v| - 1;
      assert v == v[..last] + [v[last]];
      InsertEdge(totals, v[last], SortDefeats(totals, v[..last]))
  }

  // ---- locking, group by group ----

  /** The number of leading defeats of s whose grouping key is k. */
  function RunLength(totals: seq<seq<nat>>, k: (nat, nat), s: seq<Edge>): (r: nat)
    ensures r <= |s|
    ensures forall i :: 0 <= i < r ==> GroupKey(totals, s[i]) == k
    ensures r < |s| ==> GroupKey(totals, s[r]) != k
  {
    if s == [] || GroupKey(totals, s[0]) != k then 0 else 1 + RunLength(totals, k, s[1..])
  }

  /** The graph after locking the defeats of s, a maximal run of equal keys at a time. */
  ghost function LockRuns(totals: seq<seq<nat>>, g: Graph, s: seq<Edge>): Graph
    decreases |s|
  {
    if s == [] then g
    else
      var r := RunLength(totals, GroupKey(totals, s[0]), s);
      LockRuns(totals, GroupStep(g, Elems(s[..r])), s[r..])
  }

  function Empty(n: nat): (g: Graph)
    ensures |g| == n && WellFormed(g) && forall a :: 0 <= a < n ==> g[a] == {}
  {
    seq(n, _ => {})
  }

  /** The end of the run of defeats that starts at i and shares its grouping key. */
  method RunEnd(totals: seq<seq<nat>>, sorted: seq<Edge>, i: nat) returns (j: nat)
    requires i < |sorted|
    ensures j == i + RunLength(totals, GroupKey(totals, sorted[i]), sorted[i..])
  {
    var key := GroupKey(totals, sorted[i]);
    j := i + 1;
    assert sorted[i..][1..] == sorted[i + 1..];
    while j < |sorted| && GroupKey(totals, sorted[j]) == key
      invariant i < j <= |sorted|
      invariant RunLength(totals, key, sorted[i..]) == (j - i) + RunLength(totals, key, sorted[j..])
    {
      assert sorted[j..][1..] == sorted[j + 1..];
      j := j + 1;
    }
  }

  lemma LockRunsUnfold(totals: seq<seq<nat>>, g: Graph, s: seq<Edge>, i: nat, j: nat)
    requires i < |s| && j == i + RunLength(totals, GroupKey(totals, s[i]), s[i..])
    ensures LockRuns(totals, g, s[i..]) == LockRuns(totals, GroupStep(g, Elems(s[i..j])), s[j..])
  {
    assert s[i..][..j - i] == s[i..j];
    assert s[i..][j - i..] == s[j..];
  }

  /** The group-by loop: runs of defeats with equal (strength, opposition) are locked together. */
  method LockDefeats(totals: seq<seq<nat>>, n: nat, sorted: seq<Edge>) returns (g: Graph)
    requires forall k :: 0 <= k < |sorted| ==> sorted[k].0 < n && sorted[k].1 < n
    ensures g == LockRuns(totals, Empty(n), sorted)
  {
    g := Empty(n);
    var i := 0;
    while i < |sorted|
      invariant i <= |sorted| && |g| == n && WellFormed(g)
      invariant LockRuns(totals, g, sorted[i..]) == LockRuns(totals, Empty(n), sorted)
    {
      var j := RunEnd(totals, sorted, i);
      LockRunsUnfold(totals, g, sorted, i, j);
      GroupStepWellFormed(g, Elems(sorted[i..j]));
      g := LockGroup(g, sorted[i..j]);
      i := j;
    }
  }

  // ---- what locking guarantees ----

  lemma {:induction false} LockRunsAcyclic(totals: seq<seq<nat>>, g: Graph, s: seq<Edge>)
    requires WellFormed(g) && Acyclic(g)
    requires forall k :: 0 <= k < |s| ==> s[k].0 < |g| && s[k].1 < |g|
    ensures |LockRuns(totals, g, s)| == |g|
    ensures WellFormed(LockRuns(totals, g, s)) && Acyclic(LockRuns(totals, g, s))
    decreases |s|
  {
    if s != [] {
      var r := RunLength(totals, GroupKey(totals, s[0]), s);
      GroupStepWellFormed(g, Elems(s[..r]));
      GroupStepAcyclic(g, Elems(s[..r]));
      LockRunsAcyclic(totals, GroupStep(g, Elems(s[..r])), s[r..]);
    }
  }

  /** Every edge of the locked graph was already there or is one of the defeats. */
  lemma {:induction false} LockRunsEdges(totals: seq<seq<nat>>, g: Graph, s: seq<Edge>)
    ensures |LockRuns(totals, g, s)| == |g|
    ensures forall a :: 0 <= a < |g| ==> LockRuns(totals, g, s)[a] <= g[a] + From(Elems(s), a)
    decreases |s|
  {
    if s != [] {
      var r := RunLength(totals, GroupKey(totals, s[0]), s);
      var g' := GroupStep(g, Elems(s[..r]));
      LockRunsEdges(totals, g', s[r..]);
      assert s == s[..r] + s[r..];
      assert Elems(s) == Elems(s[..r]) + Elems(s[r..]);
    }
  }

  /** Reaching c from another node needs an edge into c. */
  lemma IncomingEdge(g: Graph, x: nat, c: nat)
    requires Reachable(g, x, c) && x != c
    ensures exists a :: 0 <= a < |g| && c in g[a]
  {
    var p :| IsPath(g, p) && p[0] == x && p[|p| - 1] == c;
    assert p[|p| - 2] < |g| && c in g[p[|p| - 2]];
  }

  /** A candidate no group ever defeats keeps every defeat of its own: none of them can close a
      cycle, because nothing leads back to it. */
  lemma {:induction false} LockRunsKeepsSource(totals: seq<seq<nat>>, g: Graph, s: seq<Edge>, c: nat)
    requires forall a :: 0 <= a < |g| ==> c !in g[a]
    requires forall k :: 0 <= k < |s| ==> s[k].1 != c
    requires c < |g|
    ensures |LockRuns(totals, g, s)| == |g|
    ensures forall a :: 0 <= a < |g| ==> c !in LockRuns(totals, g, s)[a]
    ensures forall k :: 0 <= k < |s| && s[k].0 == c ==> s[k].1 in LockRuns(totals, g, s)[c]
    ensures g[c] <= LockRuns(totals, g, s)[c]
    decreases |s|
  {
    if s != [] {
      var r := RunLength(totals, GroupKey(totals, s[0]), s);
      var E := Elems(s[..r]);
      var h := Inserted(g, E);
      var g' := GroupStep(g, E);
      forall a | 0 <= a < |g| ensures c !in h[a] {
        assert forall e :: e in E ==> e.1 != c;
      }
      forall e | e in E && e.0 == c ensures e !in InCycle(h, E) {
        if Reachable(h, e.1, e.0) {
          IncomingEdge(h, e.1, c);
        }
      }
      assert forall a :: 0 <= a < |g| ==> c !in g'[a];
      forall k | r <= k < |s| ensures s[r..][k - r] == s[k] { }
      LockRunsKeepsSource(totals, g', s[r..], c);
      forall k | 0 <= k < r && s[k].0 == c ensures s[k].1 in g'[c] {
        assert s[k] in E;
      }
    }
  }

  lemma KeysEqual(totals: seq<seq<nat>>, e: Edge, f: Edge)
    requires KeyAtLeast(SortKey(totals, e), SortKey(totals, f))
    requires KeyAtLeast(SortKey(totals, f), SortKey(totals, e))
    ensures GroupKey(totals, e) == GroupKey(totals, f)
  {
  }

  /** The defeats of a set whose group key is (or is not) k. */
  ghost function WithKey(totals: seq<seq<nat>>, es: set<Edge>, k: (nat, nat), keep: bool): set<Edge>
  {
    set e | e in es && (GroupKey(totals, e) == k) == keep
  }

  /** In a strongest-first order the first run holds exactly the defeats whose key is the largest,
      and the rest holds all the others. */
  lemma FirstRun(totals: seq<seq<nat>>, s: seq<Edge>)
    requires s != [] && StrongestFirst(totals, s)
    ensures var r := RunLength(totals, GroupKey(totals, s[0]), s);
      && Elems(s[..r]) == WithKey(totals, Elems(s), GroupKey(totals, s[0]), true)
      && Elems(s[r..]) == WithKey(totals, Elems(s), GroupKey(totals, s[0]), false)
  {
    var k := GroupKey(totals, s[0]);
    var r := RunLength(totals, k, s);
    assert s == s[..r] + s[r..];
    forall i | r <= i < |s| ensures GroupKey(totals, s[i]) != k {
      if GroupKey(totals, s[i]) == k {
        assert KeyAtLeast(SortKey(totals, s[r]), SortKey(totals, s[i])) || i == r;
        assert KeyAtLeast(SortKey(totals, s[0]), SortKey(totals, s[r]));
        KeysEqual(totals, s[0], s[r]);
      }
    }
    forall e | e in Elems(s[r..]) ensures GroupKey(totals, e) != k {
      var i :| 0 <= i < |s[r..]| && s[r..][i] == e;
      assert s[r + i] == e;
    }
  }

  /** The first element of a strongest-first order has the largest key of all. */
  lemma FirstIsStrongest(totals: seq<seq<nat>>, s: seq<Edge>, e: Edge)
    requires s != [] && StrongestFirst(totals, s) && e in s
    ensures KeyAtLeast(SortKey(totals, s[0]), SortKey(totals, e))
  {
    var i :| 0 <= i < |s| && s[i] == e;
  }

  lemma SuffixStrongest(totals: seq<seq<nat>>, s: seq<Edge>, r: nat)
    requires r <= |s| && StrongestFirst(totals, s)
    ensures StrongestFirst(totals, s[r..])
  {
    forall i, j | 0 <= i < j < |s| - r
      ensures KeyAtLeast(SortKey(totals, s[r..][i]), SortKey(totals, s[r..][j]))
    {
      assert s[r..][i] == s[r + i] && s[r..][j] == s[r + j];
    }
  }

  lemma HeadInElems<T>(s: seq<T>)
    ensures s != [] ==> s[0] in Elems(s)
  {
  }

  /** Locking depends only on which defeats there are, not on how ties in the order fell: any two
      strongest-first orders of the same defeats lock the same graph. This is why an unstable sort
      is good enough. */
  lemma {:induction false} LockOrderIrrelevant(totals: seq<seq<nat>>, g: Graph, s1: seq<Edge>, s2: seq<Edge>)
    requires StrongestFirst(totals, s1) && StrongestFirst(totals, s2) && Elems(s1) == Elems(s2)
    ensures LockRuns(totals, g, s1) == LockRuns(totals, g, s2)
    decreases |s1|
  {
    HeadInElems(s1);
    HeadInElems(s2);
    if s1 != [] {
      assert s1[0] in Elems(s2);
      assert s2 != [];
      assert s2[0] in Elems(s1);
      FirstIsStrongest(totals, s1, s2[0]);
      FirstIsStrongest(totals, s2, s1[0]);
      KeysEqual(totals, s1[0], s2[0]);
      var k := GroupKey(totals, s1[0]);
      FirstRun(totals, s1);
      FirstRun(totals, s2);
      var r1 := RunLength(totals, k, s1);
      var r2 := RunLength(totals, k, s2);
      var E := Elems(s1[..r1]);
      assert E == Elems(s2[..r2]);
      assert Elems(s1[r1..]) == Elems(s2[r2..]);
      var g' := GroupStep(g, E);
      assert LockRuns(totals, g, s1) == LockRuns(totals, g', s1[r1..]);
      assert LockRuns(totals, g, s2) == LockRuns(totals, g', s2[r2..]);
      SuffixStrongest(totals, s1, r1);
      SuffixStrongest(totals, s2, r2);
      LockOrderIrrelevant(totals, g', s1[r1..], s2[r2..]);
    }
  }

  // ---- ranks ----

  /** The candidates 0, 1, ..., n - 1 in order. */
  function Upto(n: nat): (s: seq<nat>)
    ensures |s| == n && forall i :: 0 <= i < n ==> s[i] == i
  {
    seq(n, i requires 0 <= i => i)
  }

  /** Some member of S has an edge to c. */
  ghost predicate Beaten(g: Graph, S: set<nat>, c: nat) {
    exists d :: d in S && d < |g| && c in g[d]
  }

  /** The members of S that no member of S defeats. */
  ghost function Undefeated(g: Graph, S: set<nat>): set<nat> {
    set c | c in S && !Beaten(g, S, c)
  }

  /** a leads to b by a path of one edge or more. */
  ghost predicate LeadsTo(g: Graph, a: nat, b: nat) {
    exists p :: IsPath(g, p) && |p| >= 2 && p[0] == a && p[|p| - 1] == b
  }

  lemma LeadsToIrreflexive(g: Graph, a: nat)
    requires Acyclic(g)
    ensures !LeadsTo(g, a, a)
  {
    if LeadsTo(g, a, a) {
      var p :| IsPath(g, p) && |p| >= 2 && p[0] == a && p[|p| - 1] == a;
      ClosedWalkEdge(g, p, 0);
    }
  }

  lemma LeadsToTransitive(g: Graph, a: nat, b: nat, c: nat)
    requires LeadsTo(g, a, b) && LeadsTo(g, b, c)
    ensures LeadsTo(g, a, c)
  {
    var p :| IsPath(g, p) && |p| >= 2 && p[0] == a && p[|p| - 1] == b;
    var q :| IsPath(g, q) && |q| >= 2 && q[0] == b && q[|q| - 1] == c;
    assert IsPath(g, q[1..]);
    PathJoin(g, p, q[1..]);
    assert (p + q[1..])[0] == a && (p + q[1..])[|p + q[1..]| - 1] == c;
  }

  /** In an acyclic graph every non-empty set has a member nothing else in the set leads to. */
  lemma {:induction false} MinimalExists(g: Graph, S: set<nat>)
    requires Acyclic(g) && S != {}
    ensures exists m :: m in S && forall c :: c in S ==> !LeadsTo(g, c, m)
    decreases |S|
  {
    var y :| y in S;
    LeadsToIrreflexive(g, y);
    if S - {y} == {} {
      forall c | c in S ensures c == y {
        assert c !in S - {y};
      }
      assert y in S && forall c :: c in S ==> !LeadsTo(g, c, y);
    } else {
      MinimalExists(g, S - {y});
      var m :| m in S - {y} && forall c :: c in S - {y} ==> !LeadsTo(g, c, m);
      if !LeadsTo(g, y, m) {
        assert m in S && forall c :: c in S ==> !LeadsTo(g, c, m);
      } else {
        forall c | c in S ensures !LeadsTo(g, c, y) {
          if c != y && LeadsTo(g, c, y) {
            LeadsToTransitive(g, c, y, m);
          }
        }
        assert y in S && forall c :: c in S ==> !LeadsTo(g, c, y);
      }
    }
  }

  lemma EdgeLeadsTo(g: Graph)
    ensures forall d, m :: 0 <= d < |g| && m in g[d] ==> LeadsTo(g, d, m)
  {
    forall d, m | 0 <= d < |g| && m in g[d] ensures LeadsTo(g, d, m) {
      assert IsPath(g, [d, m]);
    }
  }

  /** In an acyclic graph a non-empty set of candidates always has an undefeated member. */
  lemma UndefeatedNonEmpty(g: Graph, S: set<nat>)
    requires Acyclic(g) && S != {}
    ensures Undefeated(g, S) != {}
  {
    MinimalExists(g, S);
    var m :| m in S && forall c :: c in S ==> !LeadsTo(g, c, m);
    EdgeLeadsTo(g);
    assert m in Undefeated(g, S);
  }

  /** The ranks of S: the undefeated members of S in ascending order, then the ranks of the rest. */
  ghost function Tiers(g: Graph, S: set<nat>): seq<seq<nat>>
    requires Acyclic(g)
    decreases |S|
  {
    if S == {} then []
    else
      UndefeatedNonEmpty(g, S);
      var w := Undefeated(g, S);
      [Seqs.Ascending(w)] + Tiers(g, S - w)
  }

  lemma TiersUnfold(g: Graph, S: set<nat>)
    requires Acyclic(g) && S != {}
    ensures Undefeated(g, S) != {}
    ensures Tiers(g, S) == [Seqs.Ascending(Undefeated(g, S))] + Tiers(g, S - Undefeated(g, S))
  {
    UndefeatedNonEmpty(g, S);
  }

  ghost predicate InSomeTier(T: seq<seq<nat>>, x: nat) {
    exists t :: 0 <= t < |T| && x in T[t]
  }

  /** Ranks are non-empty ascending lists. */
  ghost predicate NonEmptyAscending(T: seq<seq<nat>>) {
    forall t :: 0 <= t < |T| ==> T[t] != [] && Seqs.StrictlyAscending(T[t])
  }

  lemma NonEmptyCons(T: seq<seq<nat>>, head: seq<nat>, rest: seq<seq<nat>>)
    requires T == [head] + rest && head != [] && Seqs.StrictlyAscending(head) && NonEmptyAscending(rest)
    ensures NonEmptyAscending(T)
  {
    forall t | 0 < t < |T| ensures T[t] == rest[t - 1] { }
  }

  /** Every rank is a non-empty ascending list. */
  lemma {:induction false} TiersNonEmpty(g: Graph, S: set<nat>)
    requires Acyclic(g)
    ensures NonEmptyAscending(Tiers(g, S))
    decreases |S|
  {
    if S != {} {
      TiersUnfold(g, S);
      var w := Undefeated(g, S);
      TiersNonEmpty(g, S - w);
      assert |Seqs.Ascending(w)| == |w|;
      NonEmptyCons(Tiers(g, S), Seqs.Ascending(w), Tiers(g, S - w));
    }
  }

  lemma TierInRest(T: seq<seq<nat>>, rest: seq<seq<nat>>, w: set<nat>, t: nat, x: nat)
    requires T == [Seqs.Ascending(w)] + rest && 0 < t < |T| && x in T[t]
    ensures InSomeTier(rest, x)
  {
    assert x in rest[t - 1];
  }

  /** The ranks hold exactly the members of S. */
  lemma {:induction false} TiersCover(g: Graph, S: set<nat>)
    requires Acyclic(g)
    ensures forall x :: InSomeTier(Tiers(g, S), x) <==> x in S
    decreases |S|
  {
    if S != {} {
      TiersUnfold(g, S);
      var w := Undefeated(g, S);
      var rest := Tiers(g, S - w);
      var T := Tiers(g, S);
      TiersCover(g, S - w);
      forall x | InSomeTier(T, x) ensures x in S {
        var t :| 0 <= t < |T| && x in T[t];
        if t == 0 {
          assert T[0] == Seqs.Ascending(w);
        } else {
          TierInRest(T, rest, w, t, x);
        }
      }
      forall x | x in S ensures InSomeTier(T, x) {
        if x in w {
          assert x in T[0];
        } else {
          assert InSomeTier(rest, x);
          var t :| 0 <= t < |rest| && x in rest[t];
          assert x in T[t + 1];
        }
      }
    }
  }

  /** No candidate is in two ranks. */
  ghost predicate DisjointTiers(T: seq<seq<nat>>) {
    forall t, u, x :: 0 <= t < u < |T| && x in T[t] ==> x !in T[u]
  }

  lemma DisjointCons(T: seq<seq<nat>>, head: seq<nat>, rest: seq<seq<nat>>, R: set<nat>)
    requires T == [head] + rest && DisjointTiers(rest)
    requires forall x :: InSomeTier(rest, x) ==> x in R
    requires forall x :: x in head ==> x !in R
    ensures DisjointTiers(T)
  {
    forall t, u, x | 0 <= t < u < |T| && x in T[t] ensures x !in T[u] {
      assert T[u] == rest[u - 1];
      if t == 0 {
        assert !InSomeTier(rest, x);
      } else {
        assert T[t] == rest[t - 1];
      }
    }
  }

  lemma {:induction false} TiersDisjoint(g: Graph, S: set<nat>)
    requires Acyclic(g)
    ensures DisjointTiers(Tiers(g, S))
    decreases |S|
  {
    if S != {} {
      TiersUnfold(g, S);
      var w := Undefeated(g, S);
      TiersDisjoint(g, S - w);
      TiersCover(g, S - w);
      DisjointCons(Tiers(g, S), Seqs.Ascending(w), Tiers(g, S - w), S - w);
    }
  }

  /** No member of a rank is defeated by a member of that rank or of a later one. */
  ghost predicate NoDefeatFromLater(g: Graph, T: seq<seq<nat>>) {
    forall t, u, x, y :: 0 <= t <= u < |T| && x in T[t] && y in T[u] && y < |g| ==> x !in g[y]
  }

  lemma NoDefeatCons(g: Graph, T: seq<seq<nat>>, S: set<nat>, rest: seq<seq<nat>>)
    requires T == [Seqs.Ascending(Undefeated(g, S))] + rest && NoDefeatFromLater(g, rest)
    requires forall x :: InSomeTier(rest, x) ==> x in S
    ensures NoDefeatFromLater(g, T)
  {
    var w := Undefeated(g, S);
    assert T[0] == Seqs.Ascending(w);
    assert forall i :: 0 < i < |T| ==> T[i] == rest[i - 1];
    forall x, y | x in w && y in S && y < |g| ensures x !in g[y] {
      assert !Beaten(g, S, x);
    }
    forall t, u, x, y | 0 <= t <= u < |T| && x in T[t] && y in T[u] && y < |g| ensures x !in g[y] {
      if t == 0 {
        if u > 0 {
          assert y in rest[u - 1];
          assert InSomeTier(rest, y);
        }
      } else {
        assert x in rest[t - 1] && y in rest[u - 1];
      }
    }
  }

  lemma {:induction false} TiersUndefeated(g: Graph, S: set<nat>)
    requires Acyclic(g)
    ensures NoDefeatFromLater(g, Tiers(g, S))
    decreases |S|
  {
    if S != {} {
      TiersUnfold(g, S);
      var w := Undefeated(g, S);
      TiersUndefeated(g, S - w);
      TiersCover(g, S - w);
      NoDefeatCons(g, Tiers(g, S), S, Tiers(g, S - w));
    }
  }

  /** Every member of next is defeated by some member of prev. */
  ghost predicate DefeatedByAll(g: Graph, prev: seq<nat>, next: seq<nat>) {
    forall x :: x in next ==> exists y :: y in prev && y < |g| && x in g[y]
  }

  /** Every member of a rank after the first is defeated by a member of the rank just before. */
  ghost predicate DefeatChain(g: Graph, T: seq<seq<nat>>) {
    forall t :: 0 <= t < |T| - 1 ==> DefeatedByAll(g, T[t], T[t + 1])
  }

  lemma ChainCons(g: Graph, T: seq<seq<nat>>, head: seq<nat>, rest: seq<seq<nat>>)
    requires T == [head] + rest && DefeatChain(g, rest)
    requires rest != [] ==> DefeatedByAll(g, head, rest[0])
    ensures DefeatChain(g, T)
  {
    forall t | 0 <= t < |T| - 1 ensures DefeatedByAll(g, T[t], T[t + 1]) {
      if t > 0 {
        assert T[t] == rest[t - 1] && T[t + 1] == rest[t];
      }
    }
  }

  lemma SecondTierDefeated(g: Graph, S: set<nat>)
    requires Acyclic(g) && S != {} && S - Undefeated(g, S) != {}
    ensures DefeatedByAll(g, Seqs.Ascending(Undefeated(g, S)), Seqs.Ascending(Undefeated(g, S - Undefeated(g, S))))
  {
    var w := Undefeated(g, S);
    var S' := S - w;
    var w' := Undefeated(g, S');
    forall x | x in Seqs.Ascending(w') ensures exists y :: y in Seqs.Ascending(w) && y < |g| && x in g[y] {
      assert x in S && x !in w;
      var y :| y in S && y < |g| && x in g[y];
      assert y in w;
    }
  }

  lemma {:induction false} TiersDefeatedByPrevious(g: Graph, S: set<nat>)
    requires Acyclic(g)
    ensures DefeatChain(g, Tiers(g, S))
    decreases |S|
  {
    if S != {} {
      TiersUnfold(g, S);
      var w := Undefeated(g, S);
      TiersDefeatedByPrevious(g, S - w);
      if S - w != {} {
        TiersUnfold(g, S - w);
        SecondTierDefeated(g, S);
      }
      ChainCons(g, Tiers(g, S), Seqs.Ascending(w), Tiers(g, S - w));
    }
  }

  /** The members of unranked that no member of unranked defeats, in their order. */
  method FindWinners(g: Graph, unranked: seq<nat>) returns (winners: seq<nat>)
    requires forall x :: x in unranked ==> x < |g|
    requires Seqs.StrictlyAscending(unranked)
    ensures Seqs.StrictlyAscending(winners)
    ensures forall x :: x in winners <==> x in Undefeated(g, Elems(unranked))
  {
    forall k | 0 <= k < |unranked| ensures unranked[k] < |g| {
      assert unranked[k] in unranked;
    }
    winners := [];
    for i := 0 to |unranked|
      invariant Seqs.StrictlyAscending(winners)
      invariant forall x :: x in winners <==> x in unranked[..i] && x in Undefeated(g, Elems(unranked))
    {
      var c := unranked[i];
      var beaten := false;
      for k := 0 to |unranked|
        invariant beaten <==> exists m :: 0 <= m < k && c in g[unranked[m]]
      {
        if c in g[unranked[k]] {
          beaten := true;
        }
      }
      assert beaten <==> Beaten(g, Elems(unranked), c) by {
        if Beaten(g, Elems(unranked), c) {
          var d :| d in Elems(unranked) && d < |g| && c in g[d];
          var m :| 0 <= m < |unranked| && unranked[m] == d;
        }
      }
      forall x | x in winners ensures x < c {
        var m :| 0 <= m < i && unranked[..i][m] == x;
        assert unranked[m] == x;
      }
      if !beaten {
        Seqs.AscendingSnoc(winners, c);
        winners := winners + [c];
      }
      assert unranked[..i + 1] == unranked[..i] + [c];
    }
    assert unranked[..|unranked|] == unranked;
  }

  /** unranked without the winners, in order. */
  method RemoveWinners(unranked: seq<nat>, winners: seq<nat>) returns (rest: seq<nat>)
    requires Seqs.StrictlyAscending(unranked)
    ensures Seqs.StrictlyAscending(rest)
    ensures forall x :: x in rest <==> x in unranked && x !in winners
  {
    rest := [];
    for i := 0 to |unranked|
      invariant Seqs.StrictlyAscending(rest)
      invariant forall x :: x in rest <==> x in unranked[..i] && x !in winners
    {
      var c := unranked[i];
      forall x | x in rest ensures x < c {
        var m :| 0 <= m < i && unranked[..i][m] == x;
        assert unranked[m] == x;
      }
      if c !in winners {
        Seqs.AscendingSnoc(rest, c);
        rest := rest + [c];
      }
      assert unranked[..i + 1] == unranked[..i] + [c];
    }
    assert unranked[..|unranked|] == unranked;
  }

  /** One round of the ranks loop: the winners form the next rank and the rest is ranked after. */
  lemma TiersStep(g: Graph, unranked: seq<nat>, winners: seq<nat>, rest: seq<nat>)
    requires Acyclic(g) && unranked != []
    requires Seqs.StrictlyAscending(winners)
    requires forall x :: x in winners <==> x in Undefeated(g, Elems(unranked))
    requires forall x :: x in rest <==> x in unranked && x !in winners
    ensures Tiers(g, Elems(unranked)) == [winners] + Tiers(g, Elems(rest))
    ensures Elems(rest) < Elems(unranked)
  {
    var U := Elems(unranked);
    assert unranked[0] in U;
    TiersUnfold(g, U);
    Seqs.AscendingUnique(winners, Seqs.Ascending(Undefeated(g, U)));
    assert Elems(rest) == U - Undefeated(g, U);
    var x :| x in Undefeated(g, U);
  }

  lemma ConsShift<T>(done: seq<T>, w: T, all: seq<T>, later: seq<T>)
    requires all == [w] + later
    ensures done + all == (done + [w]) + later
  {
  }

  /** The ranks loop: repeatedly take out the candidates nobody left defeats. */
  method ExtractRanks(g: Graph) returns (ranks: seq<seq<nat>>)
    requires WellFormed(g) && Acyclic(g)
    ensures ranks == Tiers(g, Elems(Upto(|g|)))
  {
    var unranked: seq<nat> := Upto(|g|);
    ranks := [];
    while unranked != []
      invariant Seqs.StrictlyAscending(unranked)
      invariant forall x :: x in unranked ==> x < |g|
      invariant ranks + Tiers(g, Elems(unranked)) == Tiers(g, Elems(Upto(|g|)))
      decreases Elems(unranked)
    {
      var winners := FindWinners(g, unranked);
      var rest := RemoveWinners(unranked, winners);
      TiersStep(g, unranked, winners, rest);
      ConsShift(ranks, winners, Tiers(g, Elems(unranked)), Tiers(g, Elems(rest)));
      ranks := ranks + [winners];
      unranked := rest;
    }
    assert Elems(unranked) == {};
    assert Tiers(g, {}) == [];
  }

  // ---- the count ----

  /** The pairwise matrix and the ranks, best first. */
  datatype CondorcetTally = CondorcetTally(totals: seq<seq<nat>>, ranks: seq<seq<nat>>)

  /** g is the graph that ranked pairs locks for these totals: all the defeats, in some
      strongest-first order, locked group by group into the empty graph on n candidates. */
  ghost predicate IsLockedGraph(totals: seq<seq<nat>>, n: nat, g: Graph) {
    exists s :: StrongestFirst(totals, s) && Elems(s) == DefeatSet(totals, n) && g == LockRuns(totals, Empty(n), s)
  }

  /** c beats every other candidate head to head. */
  ghost predicate CondorcetWinner(totals: seq<seq<nat>>, n: nat, c: nat) {
    c < n && forall x :: 0 <= x < n && x != c ==> At(totals, c, x) > At(totals, x, c)
  }

  /** The locked graph is determined by the totals. */
  lemma LockedGraphUnique(totals: seq<seq<nat>>, n: nat, g1: Graph, g2: Graph)
    requires IsLockedGraph(totals, n, g1) && IsLockedGraph(totals, n, g2)
    ensures g1 == g2
  {
    var s1: seq<Edge> :| StrongestFirst(totals, s1) && Elems(s1) == DefeatSet(totals, n) && g1 == LockRuns(totals, Empty(n), s1);
    var s2: seq<Edge> :| StrongestFirst(totals, s2) && Elems(s2) == DefeatSet(totals, n) && g2 == LockRuns(totals, Empty(n), s2);
    LockOrderIrrelevant(totals, Empty(n), s1, s2);
  }

  lemma ElemsIndex<T>(s: seq<T>)
    ensures forall k :: 0 <= k < |s| ==> s[k] in Elems(s)
  {
  }

  /** The locked graph is an acyclic graph on the n candidates whose every edge is a defeat. */
  lemma LockedGraphShape(totals: seq<seq<nat>>, n: nat, g: Graph)
    requires IsLockedGraph(totals, n, g)
    ensures |g| == n && WellFormed(g) && Acyclic(g)
    ensures forall a, b :: 0 <= a < n && b in g[a] ==> IsDefeat(totals, n, (a, b))
  {
    var s: seq<Edge> :| StrongestFirst(totals, s) && Elems(s) == DefeatSet(totals, n) && g == LockRuns(totals, Empty(n), s);
    ElemsIndex(s);
    LockRunsAcyclic(totals, Empty(n), s);
    LockRunsEdges(totals, Empty(n), s);
    forall a, b | 0 <= a < n && b in g[a] ensures IsDefeat(totals, n, (a, b)) {
      assert b in From(Elems(s), a);
    }
  }

  /** r is what ranked pairs computes for these ballots: the matrix they give, and the ranks of
      the graph that locking their defeats produces. */
  ghost predicate IsRankedPairs(n: nat, votes: seq<seq<VoteItem>>, r: CondorcetTally) {
    r.totals == TotalsOf(n, votes)
    && exists g :: IsLockedGraph(r.totals, n, g) && Acyclic(g) && r.ranks == Tiers(g, Elems(Upto(n)))
  }

  /** Sorting the defeat list keeps exactly the defeats, each naming two candidates. */
  lemma SortedDefeatSet(totals: seq<seq<nat>>, n: nat, defeats: seq<Edge>, sorted: seq<Edge>)
    requires forall e: Edge :: e in defeats <==> IsDefeat(totals, n, e)
    requires multiset(sorted) == multiset(defeats)
    ensures Elems(sorted) == DefeatSet(totals, n)
    ensures forall k :: 0 <= k < |sorted| ==> sorted[k].0 < n && sorted[k].1 < n
  {
    forall e ensures e in sorted <==> e in defeats {
      assert e in sorted <==> e in multiset(sorted);
      assert e in defeats <==> e in multiset(defeats);
    }
    forall k | 0 <= k < |sorted| ensures sorted[k].0 < n && sorted[k].1 < n {
      assert sorted[k] in defeats;
    }
  }

  /** ranked_pairs: validate the ballots, count the pairwise matrix, sort and lock the defeats,
      then peel off the ranks. */
  method RankedPairs(n: nat, votes: seq<seq<VoteItem>>) returns (r: CondorcetTally, ghost locked: Graph)
    ensures r.totals == TotalsOf(n, votes)
    ensures IsLockedGraph(r.totals, n, locked) && Acyclic(locked)
    ensures r.ranks == Tiers(locked, Elems(Upto(n)))
    ensures IsRankedPairs(n, votes, r)
  {
    var valid := ValidateVotes(n, votes);
    var totals := ComputeTotals(n, valid, votes);
    TotalsShape(n, votes);
    var defeats := Defeats(totals, n);
    var sorted := SortDefeats(totals, defeats);
    SortedDefeatSet(totals, n, defeats, sorted);
    var graph := LockDefeats(totals, n, sorted);
    locked := graph;
    assert IsLockedGraph(totals, n, graph);
    LockedGraphShape(totals, n, graph);
    var ranks := ExtractRanks(graph);
    r := CondorcetTally(totals, ranks);
  }

  lemma UptoElems(n: nat)
    ensures forall c: nat :: c in Elems(Upto(n)) <==> c < n
  {
    forall c: nat | c < n ensures c in Elems(Upto(n)) {
      assert Upto(n)[c] == c;
    }
  }

  /** Every candidate is in exactly one rank, and each rank is a non-empty ascending list. */
  lemma RanksPartition(totals: seq<seq<nat>>, n: nat, g: Graph)
    requires IsLockedGraph(totals, n, g)
    ensures Acyclic(g)
    ensures forall c: nat :: InSomeTier(Tiers(g, Elems(Upto(n))), c) <==> c < n
    ensures DisjointTiers(Tiers(g, Elems(Upto(n))))
    ensures NonEmptyAscending(Tiers(g, Elems(Upto(n))))
  {
    LockedGraphShape(totals, n, g);
    var U := Elems(Upto(n));
    UptoElems(n);
    TiersCover(g, U);
    TiersDisjoint(g, U);
    TiersNonEmpty(g, U);
  }

  /** Nobody is defeated, in the locked graph, by a member of their own rank or a later one, and
      everybody after the first rank is defeated by someone in the rank before. */
  lemma RanksOrder(totals: seq<seq<nat>>, n: nat, g: Graph)
    requires IsLockedGraph(totals, n, g)
    ensures Acyclic(g)
    ensures NoDefeatFromLater(g, Tiers(g, Elems(Upto(n))))
    ensures DefeatChain(g, Tiers(g, Elems(Upto(n))))
  {
    LockedGraphShape(totals, n, g);
    TiersUndefeated(g, Elems(Upto(n)));
    TiersDefeatedByPrevious(g, Elems(Upto(n)));
  }

  /** A Condorcet winner is the sole member of the first rank. */
  lemma CondorcetWinnerFirst(totals: seq<seq<nat>>, n: nat, g: Graph, c: nat)
    requires IsLockedGraph(totals, n, g) && CondorcetWinner(totals, n, c)
    ensures Acyclic(g)
    ensures |Tiers(g, Elems(Upto(n)))| > 0 && Tiers(g, Elems(Upto(n)))[0] == [c]
  {
    WinnerLocked(totals, n, g, c);
    var U := Elems(Upto(n));
    UptoElems(n);
    SoleUndefeated(g, U, c);
    TiersUnfold(g, U);
    Seqs.AscendingUnique(Seqs.Ascending({c}), [c]);
  }

  /** The locked graph keeps every defeat of a Condorcet winner and has no edge into it. */
  lemma WinnerLocked(totals: seq<seq<nat>>, n: nat, g: Graph, c: nat)
    requires IsLockedGraph(totals, n, g) && CondorcetWinner(totals, n, c)
    ensures |g| == n && Acyclic(g)
    ensures forall a :: 0 <= a < n ==> c !in g[a]
    ensures forall x :: 0 <= x < n && x != c ==> x in g[c]
  {
    LockedGraphShape(totals, n, g);
    var s: seq<Edge> :| StrongestFirst(totals, s) && Elems(s) == DefeatSet(totals, n) && g == LockRuns(totals, Empty(n), s);
    ElemsIndex(s);
    forall k | 0 <= k < |s| ensures s[k].1 != c {
      assert s[k] in DefeatSet(totals, n);
    }
    LockRunsKeepsSource(totals, Empty(n), s, c);
    forall x | 0 <= x < n && x != c ensures x in g[c] {
      assert (c, x) in Elems(s);
      var k :| 0 <= k < |s| && s[k] == (c, x);
    }
  }

  /** A node with an edge to every other node of U and no incoming edge is the only undefeated one. */
  lemma SoleUndefeated(g: Graph, U: set<nat>, c: nat)
    requires c in U && c < |g| && forall x :: x in U ==> x < |g|
    requires forall a :: 0 <= a < |g| ==> c !in g[a]
    requires forall x :: x in U && x != c ==> x in g[c]
    ensures Undefeated(g, U) == {c}
  {
  }

  /** In a graph without edges nobody is beaten. */
  lemma NoEdgesUndefeated(g: Graph, U: set<nat>)
    requires forall a :: 0 <= a < |g| ==> g[a] == {}
    ensures Undefeated(g, U) == U
  {
    forall c | c in U ensures !Beaten(g, U, c) {
    }
  }

  /** With no defeats at all (every pair tied, as with no ballots) all candidates share one rank. */
  lemma AllTiedOneRank(totals: seq<seq<nat>>, n: nat, g: Graph)
    requires IsLockedGraph(totals, n, g) && n > 0
    requires forall a, b :: 0 <= a < n && 0 <= b < n ==> At(totals, a, b) == At(totals, b, a)
    ensures Acyclic(g)
    ensures Tiers(g, Elems(Upto(n))) == [Upto(n)]
  {
    LockedGraphShape(totals, n, g);
    var U := Elems(Upto(n));
    UptoElems(n);
    assert 0 in U && forall a :: 0 <= a < n ==> g[a] == {};
    NoEdgesUndefeated(g, U);
    TiersUnfold(g, U);
    assert Tiers(g, U - U) == [];
    Seqs.AscendingUnique(Seqs.Ascending(U), Upto(n));
  }

  /** With no candidates the matrix is empty and there are no ranks. */
  lemma NoCandidates(votes: seq<seq<VoteItem>>, r: CondorcetTally)
    requires IsRankedPairs(0, votes, r)
    ensures r.totals == [] && r.ranks == []
  {
    var g :| IsLockedGraph(r.totals, 0, g) && Acyclic(g) && r.ranks == Tiers(g, Elems(Upto(0)));
    assert Elems(Upto(0)) == {};
  }

  /** A two-entry ballot ranking its second entry strictly lower prefers the first. */
  lemma PairPreference(v: seq<VoteItem>)
    requires |v| == 2 && v[0].candidate != v[1].candidate && v[0].rank < v[1].rank
    ensures Prefers(v, v[0].candidate, v[1].candidate)
    ensures !Prefers(v, v[1].candidate, v[0].candidate)
  {
    assert v[0] in v && v[1] in v;
    forall x, y | x in v && y in v && x.candidate == v[1].candidate && y.candidate == v[0].candidate
      ensures x.rank >= y.rank
    {
      assert x == v[1] && y == v[0];
    }
  }

  /** The count over two ballots adds up what each says. */
  lemma CountTwo(n: nat, v1: seq<VoteItem>, v2: seq<VoteItem>, a: nat, b: nat)
    ensures Count(n, [v1, v2], a, b) ==
      (if Prefers(Filtered(n, v1), a, b) then 1 else 0) + (if Prefers(Filtered(n, v2), a, b) then 1 else 0)
  {
    var votes := [v1, v2];
    assert votes[..1] == [v1] && [v1][..0] == [];
    assert Count(n, [v1], a, b) == Count(n, [], a, b) + (if Prefers(Filtered(n, v1), a, b) then 1 else 0);
    assert Count(n, votes, a, b) == Count(n, [v1], a, b) + (if Prefers(Filtered(n, v2), a, b) then 1 else 0);
  }

  /** The ballots of the two-way split test: one 0 > 1 and one 1 > 0 (ranks counted from 1). */
  ghost predicate TwoWayBallots(votes: seq<seq<VoteItem>>) {
    votes == [[VoteItem(0, 1), VoteItem(1, 2)], [VoteItem(1, 1), VoteItem(0, 2)]]
  }

  /** In the two-way split each candidate is preferred by one ballot. */
  lemma TwoWayTotals(votes: seq<seq<VoteItem>>)
    requires TwoWayBallots(votes)
    ensures At(TotalsOf(2, votes), 0, 1) == 1 && At(TotalsOf(2, votes), 1, 0) == 1
  {
    var b1, b2 := votes[0], votes[1];
    assert votes == [b1, b2];
    FilteredValidIdentity(2, b1);
    FilteredValidIdentity(2, b2);
    PairPreference(b1);
    PairPreference(b2);
    CountTwo(2, b1, b2, 0, 1);
    CountTwo(2, b1, b2, 1, 0);
    TotalsAt(2, votes, 0, 1);
    TotalsAt(2, votes, 1, 0);
  }

  /** The two-way split of the unit tests puts both candidates in the first rank. */
  lemma TwoWaySplit(votes: seq<seq<VoteItem>>, r: CondorcetTally)
    requires TwoWayBallots(votes) && IsRankedPairs(2, votes, r)
    ensures r.ranks == [[0, 1]]
  {
    var totals := TotalsOf(2, votes);
    TwoWayTotals(votes);
    SymmetricPair(totals);
    var g :| IsLockedGraph(totals, 2, g) && Acyclic(g) && r.ranks == Tiers(g, Elems(Upto(2)));
    AllTiedOneRank(totals, 2, g);
    UptoTwo();
  }

  lemma TotalsAt(n: nat, votes: seq<seq<VoteItem>>, a: nat, b: nat)
    requires a < n && b < n
    ensures At(TotalsOf(n, votes), a, b) == Count(n, votes, a, b)
  {
  }

  lemma SymmetricPair(t: seq<seq<nat>>)
    requires At(t, 0, 1) == At(t, 1, 0)
    ensures forall a, b :: 0 <= a < 2 && 0 <= b < 2 ==> At(t, a, b) == At(t, b, a)
  {
    forall a, b | 0 <= a < 2 && 0 <= b < 2 ensures At(t, a, b) == At(t, b, a) {
      if a != b {
        assert (a, b) == (0, 1) || (a, b) == (1, 0);
      }
    }
  }

  lemma UptoTwo()
    ensures Upto(2) == [0, 1]
  {
    assert |Upto(2)| == 2 && Upto(2)[0] == 0 && Upto(2)[1] == 1;
  }

  /** The order in which ballots arrive does not matter. */
  lemma BallotOrderIrrelevant(n: nat, v1: seq<seq<VoteItem>>, v2: seq<seq<VoteItem>>)
    requires multiset(v1) == multiset(v2)
    ensures TotalsOf(n, v1) == TotalsOf(n, v2)
    ensures forall g1, g2 :: IsLockedGraph(TotalsOf(n, v1), n, g1) && IsLockedGraph(TotalsOf(n, v2), n, g2) ==> g1 == g2
  {
    TotalsPermutation(n, v1, v2);
    forall g1, g2 | IsLockedGraph(TotalsOf(n, v1), n, g1) && IsLockedGraph(TotalsOf(n, v2), n, g2)
      ensures g1 == g2
    {
      LockedGraphUnique(TotalsOf(n, v1), n, g1, g2);
    }
  }

  /** Ranked pairs is a function of the multiset of ballots. */
  lemma TallyOrderIrrelevant(n: nat, v1: seq<seq<VoteItem>>, v2: seq<seq<VoteItem>>, r: CondorcetTally)
    requires multiset(v1) == multiset(v2)
    requires IsRankedPairs(n, v1, r)
    ensures IsRankedPairs(n, v2, r)
  {
    TotalsPermutation(n, v1, v2);
  }
}
