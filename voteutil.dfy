/** Identifiers of vote rooms and clients. Both are opaque: the UUID text format and the random
    generator behind new room names are not modelled. */
module VoteUtil {
  import Seqs

  /** The id a browser generates for its user: a UUID, here its 128-bit value. */
  datatype ClientId = ClientId(uuid: nat)

  /** The name of a room (the server makes up 20 random alphanumeric characters). */
  datatype RoomId = RoomId(name: string)

  function Uuids<V>(m: map<ClientId, V>): set<nat> {
    set k | k in m :: k.uuid
  }

  lemma {:induction false} UuidsCard<V>(m: map<ClientId, V>)
    ensures |Uuids(m)| == |m|
    decreases |m|
  {
    if m != map[] {
      var k :| k in m;
      var rest := m - {k};
      assert rest.Keys == m.Keys - {k};
      UuidsCard(rest);
      assert Uuids(m) == Uuids(rest) + {k.uuid};
      assert k.uuid !in Uuids(rest);
    }
  }

  function ToIds(us: seq<nat>): (ks: seq<ClientId>)
    ensures |ks| == |us|
    ensures forall i :: 0 <= i < |us| ==> ks[i] == ClientId(us[i])
  {
    seq(|us|, i requires 0 <= i < |us| => ClientId(us[i]))
  }

  lemma IdsOfUuids<V>(m: map<ClientId, V>, us: seq<nat>)
    requires Seqs.StrictlyAscending(us)
    requires forall u :: u in us <==> u in Uuids(m)
    ensures forall k :: k in ToIds(us) <==> k in m
    ensures forall i, j :: 0 <= i < j < |us| ==> ToIds(us)[i] != ToIds(us)[j]
  {
    var ks := ToIds(us);
    forall k | k in m ensures k in ks {
      assert k.uuid in Uuids(m);
      var i :| 0 <= i < |us| && us[i] == k.uuid;
      assert ks[i] == k;
    }
    forall k | k in ks ensures k in m {
      var i :| 0 <= i < |ks| && ks[i] == k;
      assert us[i] in us;
      var k' :| k' in m && k'.uuid == us[i];
      assert k' == k;
    }
  }

  /** The client ids of m, each exactly once. A HashMap visits its keys in an order the source
      leaves unspecified; the model fixes ascending UUID order. */
  function KeysInOrder<V>(m: map<ClientId, V>): (ks: seq<ClientId>)
    ensures |ks| == |m|
    ensures forall k :: k in ks <==> k in m
    ensures forall i, j :: 0 <= i < j < |ks| ==> ks[i] != ks[j]
  {
    var us := Seqs.Ascending(Uuids(m));
    UuidsCard(m);
    IdsOfUuids(m, us);
    ToIds(us)
  }

  /** The keys of m that map to v. */
  ghost function KeysWith<V>(m: map<ClientId, V>, v: V): set<ClientId> {
    set k | k in m && m[k] == v
  }

  /** map.values(): every value of m, one per key, in the order of KeysInOrder; a value held
      under several keys is listed once for each of them. */
  function ValuesInOrder<V(==, !new)>(m: map<ClientId, V>): (vs: seq<V>)
    ensures |vs| == |m|
    ensures forall i :: 0 <= i < |vs| ==> vs[i] == m[KeysInOrder(m)[i]]
    ensures forall v :: multiset(vs)[v] == |KeysWith(m, v)|
    ensures forall k :: k in m ==> m[k] in vs
    ensures forall v :: v in vs ==> exists k :: k in m && m[k] == v
  {
    var ks := KeysInOrder(m);
    ValuesAtAllKeys(m, ks);
    ValuesAt(m, ks)
  }

  /** Listing the values under every key once, in the order of ks. */
  lemma ValuesAtAllKeys<V>(m: map<ClientId, V>, ks: seq<ClientId>)
    requires |ks| == |m|
    requires forall k :: k in ks <==> k in m
    requires forall i, j :: 0 <= i < j < |ks| ==> ks[i] != ks[j]
    ensures |ValuesAt(m, ks)| == |m|
    ensures forall i :: 0 <= i < |ValuesAt(m, ks)| ==> ValuesAt(m, ks)[i] == m[ks[i]]
    ensures forall v :: multiset(ValuesAt(m, ks))[v] == |KeysWith(m, v)|
    ensures forall k :: k in m ==> m[k] in ValuesAt(m, ks)
    ensures forall v :: v in ValuesAt(m, ks) ==> exists k :: k in m && m[k] == v
  {
    ValuesAtKeys(m, ks);
    ValuesOfKeysCount(m, ks);
  }

  /** Listing the values under every key once lists each value once per key holding it. */
  lemma ValuesOfKeysCount<V>(m: map<ClientId, V>, ks: seq<ClientId>)
    requires forall k :: k in ks <==> k in m
    requires forall i, j :: 0 <= i < j < |ks| ==> ks[i] != ks[j]
    ensures forall v :: multiset(ValuesAt(m, ks))[v] == |KeysWith(m, v)|
  {
    forall v ensures multiset(ValuesAt(m, ks))[v] == |KeysWith(m, v)| {
      ValuesAtCount(m, ks, v);
      var s1 := set k | k in ks && m[k] == v;
      forall k ensures k in s1 <==> k in KeysWith(m, v) { }
      assert s1 == KeysWith(m, v);
    }
  }

  /** Listing the values under distinct keys lists v once for each of those keys that maps to it. */
  lemma {:induction false} ValuesAtCount<V>(m: map<ClientId, V>, ks: seq<ClientId>, v: V)
    requires forall k :: k in ks ==> k in m
    requires forall i, j :: 0 <= i < j < |ks| ==> ks[i] != ks[j]
    ensures multiset(ValuesAt(m, ks))[v] == |set k | k in ks && m[k] == v|
  {
    if ks != [] {
      var rest := ks[1..];
      DistinctTail(ks);
      ValuesAtCons(m, ks);
      ValuesAtCount(m, rest, v);
      KeysWithCons(m, ks, v);
    }
  }

  lemma DistinctTail(ks: seq<ClientId>)
    requires ks != []
    requires forall i, j :: 0 <= i < j < |ks| ==> ks[i] != ks[j]
    ensures forall i, j :: 0 <= i < j < |ks[1..]| ==> ks[1..][i] != ks[1..][j]
    ensures ks[0] !in ks[1..]
  {
    var rest := ks[1..];
    forall i, j | 0 <= i < j < |rest| ensures rest[i] != rest[j] {
      assert rest[i] == ks[i + 1] && rest[j] == ks[j + 1];
    }
    forall i | 0 <= i < |rest| ensures rest[i] != ks[0] {
      assert rest[i] == ks[i + 1];
    }
  }

  lemma ValuesAtCons<V>(m: map<ClientId, V>, ks: seq<ClientId>)
    requires ks != [] && forall k :: k in ks ==> k in m
    ensures forall k :: k in ks[1..] ==> k in m
    ensures ValuesAt(m, ks) == [m[ks[0]]] + ValuesAt(m, ks[1..])
  {
    assert forall k :: k in ks[1..] ==> k in ks;
    var l, r := ValuesAt(m, ks), [m[ks[0]]] + ValuesAt(m, ks[1..]);
    assert |l| == |r|;
    forall i | 0 <= i < |l| ensures l[i] == r[i] {
      if i > 0 { assert r[i] == ValuesAt(m, ks[1..])[i - 1] == m[ks[1..][i - 1]]; }
    }
  }

  lemma KeysWithCons<V>(m: map<ClientId, V>, ks: seq<ClientId>, v: V)
    requires ks != [] && forall k :: k in ks ==> k in m
    requires ks[0] !in ks[1..]
    ensures |set k | k in ks && m[k] == v| ==
      |set k | k in ks[1..] && m[k] == v| + (if m[ks[0]] == v then 1 else 0)
  {
    assert forall k :: k in ks[1..] ==> k in ks;
    var all := set k | k in ks && m[k] == v;
    var later := set k | k in ks[1..] && m[k] == v;
    assert ks == [ks[0]] + ks[1..];
    assert forall k :: k in ks <==> k == ks[0] || k in ks[1..];
    if m[ks[0]] == v {
      assert all == later + {ks[0]};
      assert ks[0] !in later;
    } else {
      assert all == later;
    }
  }

  function ValuesAt<V>(m: map<ClientId, V>, ks: seq<ClientId>): (vs: seq<V>)
    requires forall k :: k in ks ==> k in m
  {
    seq(|ks|, i requires 0 <= i < |ks| => m[ks[i]])
  }

  lemma ValuesAtKeys<V>(m: map<ClientId, V>, ks: seq<ClientId>)
    requires forall k :: k in ks <==> k in m
    ensures |ValuesAt(m, ks)| == |ks|
    ensures forall k :: k in m ==> m[k] in ValuesAt(m, ks)
    ensures forall v :: v in ValuesAt(m, ks) ==> exists k :: k in m && m[k] == v
  {
    var vs := ValuesAt(m, ks);
    forall k | k in m ensures m[k] in vs {
      var i :| 0 <= i < |ks| && ks[i] == k;
      assert vs[i] == m[k];
    }
    forall v | v in vs ensures exists k :: k in m && m[k] == v {
      var i :| 0 <= i < |vs| && vs[i] == v;
      assert ks[i] in ks;
    }
  }
}
