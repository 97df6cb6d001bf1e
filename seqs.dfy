module Seqs {
  ghost predicate StrictlyAscending(s: seq<nat>) {
    forall i, j :: 0 <= i < j < |s| ==> s[i] < s[j]
  }
  predicate IsMin(m: nat, s: set<nat>) {
    m in s && forall x :: x in s ==> m <= x
  }
  lemma {:induction false} MinExists(s: set<nat>)
    requires s != {}
    ensures exists m :: IsMin(m, s)
    decreases |s|
  {
    var y :| y in s;
    if s - {y} != {} {
      MinExists(s - {y});
      var m :| IsMin(m, s - {y});
      if y < m {
        forall x | x in s ensures y <= x { if x != y { assert x in s - {y}; } }
        assert IsMin(y, s);
      } else {
        forall x | x in s ensures m <= x { if x != y { assert x in s - {y}; } }
        assert IsMin(m, s);
      }
    } else {
      assert s == {y};
      assert IsMin(y, s);
    }
  }
  lemma AscendingCons(m: nat, rest: seq<nat>)
    requires StrictlyAscending(rest)
    requires forall x :: x in rest ==> m < x
    ensures StrictlyAscending([m] + rest)
  {
    var r := [m] + rest;
    forall i, j | 0 <= i < j < |r| ensures r[i] < r[j] {
      if i == 0 { assert r[j] == rest[j-1]; assert rest[j-1] in rest; }
      else { assert r[i] == rest[i-1] && r[j] == rest[j-1]; }
    }
  }
  function Ascending(s: set<nat>): (r: seq<nat>)
    ensures |r| == |s|
    ensures forall x :: x in r <==> x in s
    ensures StrictlyAscending(r)
    decreases |s|
  {
    if s == {} then []
    else
      MinExists(s);
      var m :| IsMin(m, s);
      var rest := Ascending(s - {m});
      AscendingCons(m, rest);
      [m] + rest
  }

  /** A strictly ascending sequence is determined by its elements. */
  lemma {:induction false} AscendingUnique(s: seq<nat>, t: seq<nat>)
    requires StrictlyAscending(s) && StrictlyAscending(t)
    requires forall x :: x in s <==> x in t
    ensures s == t
    decreases |s|
  {
    if s != [] && t != [] {
      assert s[0] in t && t[0] in s;
      var i :| 0 <= i < |t| && t[i] == s[0];
      var j :| 0 <= j < |s| && s[j] == t[0];
      assert s[0] == t[0];
      forall x ensures x in s[1..] <==> x in t[1..] {
        if x in s[1..] {
          var k :| 0 <= k < |s| - 1 && s[1..][k] == x;
          assert s[k + 1] == x && s[0] < x;
          assert x in s;
          var m :| 0 <= m < |t| && t[m] == x;
          assert m != 0 && t[1..][m - 1] == x;
        }
        if x in t[1..] {
          var k :| 0 <= k < |t| - 1 && t[1..][k] == x;
          assert t[k + 1] == x && t[0] < x;
          assert x in t;
          var m :| 0 <= m < |s| && s[m] == x;
          assert m != 0 && s[1..][m - 1] == x;
        }
      }
      AscendingUnique(s[1..], t[1..]);
      assert s == [s[0]] + s[1..] && t == [t[0]] + t[1..];
    } else {
      HeadIn(s);
      HeadIn(t);
    }
  }

  lemma HeadIn(s: seq<nat>)
    ensures s != [] ==> s[0] in s
  {
  }

  lemma AscendingSnoc(s: seq<nat>, x: nat)
    requires StrictlyAscending(s) && forall y :: y in s ==> y < x
    ensures StrictlyAscending(s + [x])
  {
    var r := s + [x];
    forall i, j | 0 <= i < j < |r| ensures r[i] < r[j] {
      assert r[i] == s[i];
      if j < |s| { assert r[j] == s[j]; } else { assert s[i] in s; }
    }
  }

  lemma ConsSplit<T>(s: seq<T>)
    requires s != []
    ensures s == [s[0]] + s[1..]
  {
  }

  lemma SplitAt<T>(s: seq<T>, k: nat)
    requires k < |s|
    ensures s == s[..k] + ([s[k]] + s[k + 1..])
  {
  }

  lemma RemoveAt<T>(o: seq<T>, k: nat)
    requires k < |o|
    ensures multiset(o[..k] + o[k + 1..]) == multiset(o) - multiset{o[k]}
  {
    assert o == o[..k] + [o[k]] + o[k + 1..];
  }

  /** The first element of o1 sits somewhere in a permutation o2 of it; what is left of the two
      is again a permutation. */
  lemma MatchFirst<T>(o1: seq<T>, o2: seq<T>) returns (k: nat)
    requires o1 != [] && multiset(o1) == multiset(o2)
    ensures k < |o2| && o2[k] == o1[0]
    ensures multiset(o1[1..]) == multiset(o2[..k] + o2[k + 1..])
    ensures o1 == [o1[0]] + o1[1..] && o2 == o2[..k] + ([o2[k]] + o2[k + 1..])
  {
    assert o1[0] in multiset(o2);
    k :| 0 <= k < |o2| && o2[k] == o1[0];
    var rest := o2[..k] + o2[k + 1..];
    RemoveAt(o2, k);
    assert multiset(rest) == multiset(o2) - multiset{o1[0]};
    ConsSplit(o1);
    assert multiset(o1) == multiset{o1[0]} + multiset(o1[1..]);
    assert multiset(o1[1..]) == multiset(o1) - multiset{o1[0]};
    SplitAt(o2, k);
  }
}
