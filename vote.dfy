/** The vote coordinator: the rooms held in memory, the connections of each room's clients,
    and the ballots and tally flag kept in the room table. */
module Vote {
  import opened Wrappers
  import opened VoteUtil
  import Api
  import Condorcet
  import VoteDb
  import Watch
  import Seqs

  // ---- the choice list of a new vote ----

  /** Unicode White_Space, the characters str::trim strips. */
  predicate IsWhitespace(ch: char) {
    ('\t' <= ch <= '\r') || ch == ' ' || ch == '\U{85}' || ch == '\U{A0}' || ch == '\U{1680}'
    || ('\U{2000}' <= ch <= '\U{200A}') || ch == '\U{2028}' || ch == '\U{2029}'
    || ch == '\U{202F}' || ch == '\U{205F}' || ch == '\U{3000}'
  }

  /** The pieces joined back with newlines. */
  function JoinLines(pieces: seq<string>): string
    requires |pieces| >= 1
  {
    if |pieces| == 1 then pieces[0] else pieces[0] + "\n" + JoinLines(pieces[1..])
  }

  /** str::split('\n'): the text between newlines, so one more piece than there are newlines. */
  function SplitLines(s: string): (pieces: seq<string>)
    ensures |pieces| >= 1
    ensures forall p :: p in pieces ==> '\n' !in p
  {
    if s == [] then [""]
    else
      var rest := SplitLines(s[1..]);
      if s[0] == '\n' then [""] + rest
      else
        var r := [[s[0]] + rest[0]] + rest[1..];
        assert forall p :: p in rest[1..] ==> p in rest;
        r
  }

  /** Joining the pieces with newlines gives back the text. */
  lemma {:induction false} JoinSplit(s: string)
    ensures JoinLines(SplitLines(s)) == s
  {
    if s != [] {
      var rest := SplitLines(s[1..]);
      JoinSplit(s[1..]);
      if s[0] == '\n' {
        assert ([""] + rest)[1..] == rest;
      } else {
        var r := [[s[0]] + rest[0]] + rest[1..];
        assert r[1..] == rest[1..];
        assert s == [s[0]] + s[1..];
        if |rest| > 1 {
          assert JoinLines(rest) == rest[0] + "\n" + JoinLines(rest[1..]);
        }
      }
    }
  }

  /** Splitting what was joined gives back the pieces. */
  lemma {:induction false} SplitJoin(pieces: seq<string>)
    requires |pieces| >= 1
    requires forall p :: p in pieces ==> '\n' !in p
    ensures SplitLines(JoinLines(pieces)) == pieces
  {
    if |pieces| == 1 {
      NoNewlineOnePiece(pieces[0]);
    } else {
      var rest := pieces[1..];
      assert forall p :: p in rest ==> p in pieces;
      SplitJoin(rest);
      SplitPrefix(pieces[0], JoinLines(rest), rest);
    }
  }

  lemma {:induction false} NoNewlineOnePiece(s: string)
    requires '\n' !in s
    ensures SplitLines(s) == [s]
  {
    if s != [] {
      assert s[1..] == s[1..] && forall k :: 0 <= k < |s| - 1 ==> s[1..][k] == s[k + 1];
      assert '\n' !in s[1..];
      NoNewlineOnePiece(s[1..]);
      assert s == [s[0]] + s[1..];
    }
  }

  lemma {:induction false} SplitPrefix(p: string, t: string, pieces: seq<string>)
    requires '\n' !in p && SplitLines(t) == pieces
    ensures SplitLines(p + "\n" + t) == [p] + pieces
  {
    if p == [] {
      assert p + "\n" + t == "\n" + t;
      assert ("\n" + t)[1..] == t;
    } else {
      var u := p + "\n" + t;
      assert u[0] == p[0] && u[1..] == p[1..] + "\n" + t;
      assert '\n' !in p[1..] by {
        assert forall k :: 0 <= k < |p| - 1 ==> p[1..][k] == p[k + 1];
      }
      SplitPrefix(p[1..], t, pieces);
      var rest := SplitLines(u[1..]);
      assert rest[0] == p[1..] && rest[1..] == pieces;
      assert SplitLines(u) == [[p[0]] + rest[0]] + rest[1..];
      assert [p[0]] + p[1..] == p;
    }
  }

  /** str::trim_start. */
  function TrimStart(s: string): (r: string)
    ensures |r| <= |s| && r == s[|s| - |r|..]
    ensures forall k :: 0 <= k < |s| - |r| ==> IsWhitespace(s[k])
    ensures r != [] ==> !IsWhitespace(r[0])
  {
    if s != [] && IsWhitespace(s[0]) then TrimStart(s[1..]) else s
  }

  /** str::trim_end. */
  function TrimEnd(s: string): (r: string)
    ensures |r| <= |s| && r == s[..|r|]
    ensures forall k :: |r| <= k < |s| ==> IsWhitespace(s[k])
    ensures r != [] ==> !IsWhitespace(r[|r| - 1])
  {
    if s != [] && IsWhitespace(s[|s| - 1]) then TrimEnd(s[..|s| - 1]) else s
  }

  /** r is s[i..i + |r|] and everything around it in s is whitespace. */
  ghost predicate TrimmedAt(s: string, r: string, i: nat) {
    i <= |s| - |r| && r == s[i..i + |r|]
    && (forall k :: 0 <= k < i ==> IsWhitespace(s[k]))
    && (forall k :: i + |r| <= k < |s| ==> IsWhitespace(s[k]))
  }

  /** str::trim: the text between the leading and the trailing whitespace. */
  function Trim(s: string): (r: string)
    ensures r == [] || (!IsWhitespace(r[0]) && !IsWhitespace(r[|r| - 1]))
    ensures exists i :: TrimmedAt(s, r, i)
  {
    TrimBetween(s);
    TrimEnd(TrimStart(s))
  }

  lemma TrimBetween(s: string)
    ensures TrimmedAt(s, TrimEnd(TrimStart(s)), |s| - |TrimStart(s)|)
  {
    var a := TrimStart(s);
    var r := TrimEnd(a);
    assert |a| <= |s| && a == s[|s| - |a|..] && forall k :: 0 <= k < |s| - |a| ==> IsWhitespace(s[k]);
    assert |r| <= |a| && r == a[..|r|] && forall k :: |r| <= k < |a| ==> IsWhitespace(a[k]);
    TrimAround(s, a, r);
  }

  /** Whitespace cut from the front of s leaves a, and cut from the back of a leaves r. */
  lemma TrimAround(s: string, a: string, r: string)
    requires |a| <= |s| && a == s[|s| - |a|..] && forall k :: 0 <= k < |s| - |a| ==> IsWhitespace(s[k])
    requires |r| <= |a| && r == a[..|r|] && forall k :: |r| <= k < |a| ==> IsWhitespace(a[k])
    ensures TrimmedAt(s, r, |s| - |a|)
  {
    var i := |s| - |a|;
    assert r == s[i..i + |r|];
    forall k | i + |r| <= k < |s| ensures IsWhitespace(s[k]) {
      assert s[k] == a[k - i];
    }
  }

  /** Text that neither starts nor ends with whitespace is its own trim. */
  lemma TrimmedFixed(s: string)
    requires s == [] || (!IsWhitespace(s[0]) && !IsWhitespace(s[|s| - 1]))
    ensures Trim(s) == s
  {
  }

  /** A usable choice label: not empty, no surrounding whitespace, on one line; such a label
      is its own trim (TrimmedFixed). */
  predicate CleanLabel(c: string) {
    c != [] && !IsWhitespace(c[0]) && !IsWhitespace(c[|c| - 1]) && '\n' !in c
  }

  /** A trimmed line is blank or a clean label. */
  lemma TrimClean(line: string)
    ensures Trim(line) == [] || (!IsWhitespace(Trim(line)[0]) && !IsWhitespace(Trim(line)[|Trim(line)| - 1]))
    ensures '\n' !in line ==> '\n' !in Trim(line)
  {
    var t := Trim(line);
    var i: nat :| TrimmedAt(line, t, i);
    forall k | 0 <= k < |t| ensures t[k] == line[i + k] {
    }
  }

  /** .map(trim).filter(non-empty): the trimmed lines that are not blank, in order. */
  function NonBlankTrimmed(lines: seq<string>): (r: seq<string>)
    ensures |r| <= |lines|
  {
    if lines == [] then []
    else
      var t := Trim(lines[0]);
      (if t == [] then [] else [t]) + NonBlankTrimmed(lines[1..])
  }

  /** Every parsed choice is a clean label. */
  lemma {:induction false} NonBlankClean(lines: seq<string>)
    requires forall p :: p in lines ==> '\n' !in p
    ensures forall c :: c in NonBlankTrimmed(lines) ==> CleanLabel(c)
  {
    if lines != [] {
      var t := Trim(lines[0]);
      var rest := NonBlankTrimmed(lines[1..]);
      assert lines[0] in lines;
      TrimClean(lines[0]);
      assert forall p :: p in lines[1..] ==> p in lines;
      NonBlankClean(lines[1..]);
      var head := if t == [] then [] else [t];
      assert NonBlankTrimmed(lines) == head + rest;
      forall c | c in head + rest ensures CleanLabel(c) {
        if c !in rest {
          assert c in head;
        }
      }
    }
  }

  /** The choice list that start_vote builds from the form. */
  function ParseChoices(text: string): (choices: seq<string>)
    ensures forall c :: c in choices ==> CleanLabel(c)
  {
    NonBlankClean(SplitLines(text));
    NonBlankTrimmed(SplitLines(text))
  }

  /** Parsing sees each line of the form on its own: blank lines drop out and the rest are trimmed. */
  lemma ParseLines(lines: seq<string>)
    requires |lines| >= 1 && forall p :: p in lines ==> '\n' !in p
    ensures ParseChoices(JoinLines(lines)) == NonBlankTrimmed(lines)
  {
    SplitJoin(lines);
  }

  /** Clean labels written one per line parse back to the same list. */
  lemma {:induction false} ParseFormatted(choices: seq<string>)
    requires |choices| >= 1 && forall c :: c in choices ==> CleanLabel(c)
    ensures ParseChoices(JoinLines(choices)) == choices
  {
    ParseLines(choices);
    CleanLinesKept(choices);
  }

  lemma {:induction false} CleanLinesKept(choices: seq<string>)
    requires forall c :: c in choices ==> CleanLabel(c)
    ensures NonBlankTrimmed(choices) == choices
  {
    if choices != [] {
      var c := choices[0];
      var rest := choices[1..];
      assert CleanLabel(c) by {
        assert c in choices;
      }
      TrimmedFixed(c);
      assert forall x :: x in rest ==> x in choices;
      CleanLinesKept(rest);
      assert NonBlankTrimmed(choices) == [c] + NonBlankTrimmed(rest);
      assert choices == [c] + rest;
    }
  }

  // ---- ballots and the tally of a room ----

  /** The ballots of the clients listed in order. */
  function BallotsFrom(votes: map<ClientId, Api.UserVote>, order: seq<ClientId>): (b: seq<seq<Condorcet.VoteItem>>)
    requires forall c :: c in order ==> c in votes
    ensures |b| == |order|
  {
    if order == [] then []
    else
      assert forall c :: c in order[1..] ==> c in order;
      [votes[order[0]].selections] + BallotsFrom(votes, order[1..])
  }

  lemma {:induction false} BallotsFromAt(votes: map<ClientId, Api.UserVote>, order: seq<ClientId>, i: nat)
    requires forall c :: c in order ==> c in votes
    requires i < |order|
    ensures BallotsFrom(votes, order)[i] == votes[order[i]].selections
  {
    if i > 0 {
      assert forall c :: c in order[1..] ==> c in order;
      BallotsFromAt(votes, order[1..], i - 1);
    }
  }

  /** The clients whose ballot has the given selections. */
  ghost function VotersWith(votes: map<ClientId, Api.UserVote>, s: seq<Condorcet.VoteItem>): set<ClientId> {
    set c | c in votes && votes[c].selections == s
  }

  /** Listing the ballots of distinct clients lists s once for each of them who cast it. */
  lemma {:induction false} BallotsFromCount(votes: map<ClientId, Api.UserVote>, order: seq<ClientId>, s: seq<Condorcet.VoteItem>)
    requires forall c :: c in order ==> c in votes
    requires forall i, j :: 0 <= i < j < |order| ==> order[i] != order[j]
    ensures multiset(BallotsFrom(votes, order))[s] == |set c | c in order && votes[c].selections == s|
  {
    if order != [] {
      var rest := order[1..];
      assert forall c :: c in rest ==> c in order;
      VoteUtil.DistinctTail(order);
      BallotsFromCount(votes, rest, s);
      VotersCons(votes, order, s);
      assert BallotsFrom(votes, order) == [votes[order[0]].selections] + BallotsFrom(votes, rest);
    }
  }

  lemma VotersCons(votes: map<ClientId, Api.UserVote>, order: seq<ClientId>, s: seq<Condorcet.VoteItem>)
    requires order != [] && forall c :: c in order ==> c in votes
    requires order[0] !in order[1..]
    ensures |set c | c in order && votes[c].selections == s| ==
      |set c | c in order[1..] && votes[c].selections == s| + (if votes[order[0]].selections == s then 1 else 0)
  {
    assert forall c :: c in order[1..] ==> c in order;
    var all := set c | c in order && votes[c].selections == s;
    var later := set c | c in order[1..] && votes[c].selections == s;
    assert order == [order[0]] + order[1..];
    assert forall c :: c in order <==> c == order[0] || c in order[1..];
    if votes[order[0]].selections == s {
      assert all == later + {order[0]};
      assert order[0] !in later;
    } else {
      assert all == later;
    }
  }

  /** The ballots of a room, in the order the vote map is visited: each client's ballot once. */
  function Ballots(votes: map<ClientId, Api.UserVote>): (b: seq<seq<Condorcet.VoteItem>>)
    ensures |b| == |votes|
    ensures forall i :: 0 <= i < |b| ==> b[i] == votes[KeysInOrder(votes)[i]].selections
    ensures forall s :: multiset(b)[s] == |VotersWith(votes, s)|
    ensures forall c :: c in votes ==> votes[c].selections in b
  {
    var order := KeysInOrder(votes);
    var b := BallotsFrom(votes, order);
    BallotsListed(votes, order);
    b
  }

  lemma BallotsListed(votes: map<ClientId, Api.UserVote>, order: seq<ClientId>)
    requires forall c :: c in order <==> c in votes
    requires forall i, j :: 0 <= i < j < |order| ==> order[i] != order[j]
    ensures forall i :: 0 <= i < |order| ==> BallotsFrom(votes, order)[i] == votes[order[i]].selections
    ensures forall s :: multiset(BallotsFrom(votes, order))[s] == |VotersWith(votes, s)|
    ensures forall c :: c in votes ==> votes[c].selections in BallotsFrom(votes, order)
  {
    var b := BallotsFrom(votes, order);
    forall i | 0 <= i < |order| ensures b[i] == votes[order[i]].selections {
      BallotsFromAt(votes, order, i);
    }
    forall c | c in votes ensures votes[c].selections in b {
      var i :| 0 <= i < |order| && order[i] == c;
      assert b[i] == votes[c].selections;
    }
    forall s ensures multiset(b)[s] == |VotersWith(votes, s)| {
      BallotsFromCount(votes, order, s);
      var s1 := set c | c in order && votes[c].selections == s;
      forall c ensures c in s1 <==> c in VotersWith(votes, s) { }
      assert s1 == VotersWith(votes, s);
    }
  }

  /** calculate_room_tally: ranked pairs over the room's ballots, one per client. */
  method CalculateRoomTally(choices: seq<string>, votes: map<ClientId, Api.UserVote>) returns (r: Api.CondorcetTally)
    ensures Condorcet.IsRankedPairs(|choices|, Ballots(votes), r)
  {
    ghost var locked: Condorcet.Graph;
    r, locked := Condorcet.RankedPairs(|choices|, Ballots(votes));
  }

  /** A sequence without repetitions holds each of its members once. */
  lemma {:induction false} DistinctCount<T>(s: seq<T>, x: T)
    requires forall i, j :: 0 <= i < j < |s| ==> s[i] != s[j]
    ensures multiset(s)[x] == if x in s then 1 else 0
  {
    if s != [] {
      var t := s[1..];
      assert s == [s[0]] + t;
      assert s[0] !in t by {
        forall k | 0 <= k < |t| ensures t[k] != s[0] {
          assert t[k] == s[k + 1];
        }
      }
      assert forall i, j :: 0 <= i < j < |t| ==> t[i] == s[i + 1] && t[j] == s[j + 1];
      DistinctCount(t, x);
    }
  }

  /** Two enumerations of the same keys are permutations of each other. */
  lemma SameKeysPermutation(o1: seq<ClientId>, o2: seq<ClientId>)
    requires forall i, j :: 0 <= i < j < |o1| ==> o1[i] != o1[j]
    requires forall i, j :: 0 <= i < j < |o2| ==> o2[i] != o2[j]
    requires forall c :: c in o1 <==> c in o2
    ensures multiset(o1) == multiset(o2)
  {
    forall x ensures multiset(o1)[x] == multiset(o2)[x] {
      DistinctCount(o1, x);
      DistinctCount(o2, x);
    }
  }

  lemma {:induction false} BallotsConcat(votes: map<ClientId, Api.UserVote>, a: seq<ClientId>, b: seq<ClientId>)
    requires forall c :: c in a ==> c in votes
    requires forall c :: c in b ==> c in votes
    ensures BallotsFrom(votes, a + b) == BallotsFrom(votes, a) + BallotsFrom(votes, b)
    decreases |a|
  {
    if a != [] {
      var ab := a + b;
      assert ab[0] == a[0] && ab[1..] == a[1..] + b;
      assert forall c :: c in a[1..] ==> c in a;
      assert forall c :: c in ab ==> c in votes;
      BallotsConcat(votes, a[1..], b);
      assert BallotsFrom(votes, ab) == [votes[a[0]].selections] + BallotsFrom(votes, a[1..] + b);
    } else {
      assert a + b == b;
    }
  }

  lemma MultisetMembers<T>(o1: seq<T>, o2: seq<T>)
    requires multiset(o1) == multiset(o2)
    ensures forall c :: c in o1 <==> c in o2
  {
    forall c ensures c in o1 <==> c in o2 {
      assert c in o1 <==> c in multiset(o1);
      assert c in o2 <==> c in multiset(o2);
    }
  }

  lemma SliceMembers<T>(o1: seq<T>, o2: seq<T>, k: nat)
    requires o1 != [] && k < |o2|
    ensures forall x :: x in o1[1..] ==> x in o1
    ensures forall x :: x in o2[..k] + o2[k + 1..] ==> x in o2
    ensures forall x :: x in o2[..k] ==> x in o2
    ensures forall x :: x in o2[k + 1..] ==> x in o2
  {
  }

  /** Moving one voter to the front keeps the multiset of ballots. */
  lemma Splice(votes: map<ClientId, Api.UserVote>, left: seq<ClientId>, c: ClientId, right: seq<ClientId>)
    requires forall x :: x in left ==> x in votes
    requires forall x :: x in right ==> x in votes
    requires c in votes
    ensures multiset(BallotsFrom(votes, left + ([c] + right)))
         == multiset(BallotsFrom(votes, [c])) + multiset(BallotsFrom(votes, left + right))
  {
    BallotsConcat(votes, [c], right);
    BallotsConcat(votes, left, [c] + right);
    BallotsConcat(votes, left, right);
  }

  lemma {:induction false} BallotsPermutation(votes: map<ClientId, Api.UserVote>, o1: seq<ClientId>, o2: seq<ClientId>)
    requires forall c :: c in o1 ==> c in votes
    requires multiset(o1) == multiset(o2)
    ensures forall c :: c in o2 ==> c in votes
    ensures multiset(BallotsFrom(votes, o1)) == multiset(BallotsFrom(votes, o2))
    decreases |o1|
  {
    MultisetMembers(o1, o2);
    if o1 != [] {
      var c := o1[0];
      var k := Seqs.MatchFirst(o1, o2);
      var r1 := o1[1..];
      var left, right := o2[..k], o2[k + 1..];
      SliceMembers(o1, o2, k);
      BallotsPermutation(votes, r1, left + right);
      Splice(votes, left, c, right);
      BallotsConcat(votes, [c], r1);
      var head, b1, b2 := BallotsFrom(votes, [c]), BallotsFrom(votes, r1), BallotsFrom(votes, left + right);
      assert multiset(BallotsFrom(votes, o1)) == multiset(head) + multiset(b1);
      assert multiset(BallotsFrom(votes, o2)) == multiset(head) + multiset(b2);
    }
  }

  /** The tally does not depend on the order in which the vote map is visited: any enumeration
      of the voters, each once, gives the same result. */
  lemma TallyIndependentOfOrder(choices: seq<string>, votes: map<ClientId, Api.UserVote>, order: seq<ClientId>)
    requires forall i, j :: 0 <= i < j < |order| ==> order[i] != order[j]
    requires forall c :: c in order <==> c in votes
    ensures forall r :: Condorcet.IsRankedPairs(|choices|, Ballots(votes), r) <==> Condorcet.IsRankedPairs(|choices|, BallotsFrom(votes, order), r)
  {
    var ks := KeysInOrder(votes);
    SameKeysPermutation(ks, order);
    BallotsPermutation(votes, ks, order);
    forall r ensures Condorcet.IsRankedPairs(|choices|, Ballots(votes), r) <==> Condorcet.IsRankedPairs(|choices|, BallotsFrom(votes, order), r) {
      if Condorcet.IsRankedPairs(|choices|, Ballots(votes), r) {
        Condorcet.TallyOrderIrrelevant(|choices|, Ballots(votes), BallotsFrom(votes, order), r);
      }
      if Condorcet.IsRankedPairs(|choices|, BallotsFrom(votes, order), r) {
        Condorcet.TallyOrderIrrelevant(|choices|, BallotsFrom(votes, order), Ballots(votes), r);
      }
    }
  }

  // ---- changes to a room's record ----

  /** votes.insert(client, vote): the client's ballot is added or replaced, nothing else changes. */
  function WithBallot(room: VoteDb.DbRoom, c: ClientId, v: Api.UserVote): (r: VoteDb.DbRoom)
    ensures r.choices == room.choices && r.tallied == room.tallied
    ensures r.votes.Keys == room.votes.Keys + {c} && r.votes[c] == v
    ensures forall d :: d in room.votes && d != c ==> r.votes[d] == room.votes[d]
    ensures |r.votes| == if c in room.votes then |room.votes| else |room.votes| + 1
  {
    room.(votes := room.votes[c := v])
  }

  /** tallied = true: the vote is closed; choices and ballots stay. */
  function MarkTallied(room: VoteDb.DbRoom): (r: VoteDb.DbRoom)
    ensures r.tallied && r.choices == room.choices && r.votes == room.votes
  {
    room.(tallied := true)
  }

  /** Tallying a tallied room changes nothing. */
  lemma TallyIdempotent(room: VoteDb.DbRoom)
    ensures MarkTallied(MarkTallied(room)) == MarkTallied(room)
    ensures room.tallied ==> MarkTallied(room) == room
  {
  }

  // ---- connections ----

  /** The channel through which a connection task gets the latest notification for its client;
      it holds None until the first broadcast. */
  type Tx = Watch.Sender<Option<Api.ClientNotification>>

  /** The sending end kept for one open connection. */
  datatype ConnectionHandle = ConnectionHandle(tx: Tx)

  /** The connections of each client of a room (one per browser tab). */
  type Clients = map<ClientId, seq<ConnectionHandle>>

  ghost function TxsOf(hs: seq<ConnectionHandle>): set<Tx> {
    set i | 0 <= i < |hs| :: hs[i].tx
  }

  ghost predicate TxsDistinct(hs: seq<ConnectionHandle>) {
    forall i, j :: 0 <= i < j < |hs| ==> hs[i].tx != hs[j].tx
  }

  ghost function SendersOf(clients: Clients): set<Tx> {
    set c, t | c in clients && t in TxsOf(clients[c]) :: t
  }

  /** No channel is held twice, by one client or by two: each channel belongs to one connection. */
  ghost predicate HandlesDistinct(clients: Clients) {
    (forall c :: c in clients ==> TxsDistinct(clients[c]))
    && (forall c, d :: c in clients && d in clients && c != d ==> TxsOf(clients[c]) !! TxsOf(clients[d]))
  }

  /** Every listed client has at least one connection. */
  ghost predicate NoEmptyEntry(clients: Clients) {
    forall c :: c in clients ==> clients[c] != []
  }

  /** entry(client).or_default().push(handle). */
  function Joined(clients: Clients, c: ClientId, h: ConnectionHandle): (r: Clients)
    ensures r.Keys == clients.Keys + {c}
    ensures r[c] == (if c in clients then clients[c] else []) + [h]
    ensures forall d :: d in clients && d != c ==> r[d] == clients[d]
  {
    clients[c := (if c in clients then clients[c] else []) + [h]]
  }

  lemma TxsSnoc(hs: seq<ConnectionHandle>, h: ConnectionHandle)
    requires TxsDistinct(hs) && h.tx !in TxsOf(hs)
    ensures TxsOf(hs + [h]) == TxsOf(hs) + {h.tx}
    ensures TxsDistinct(hs + [h])
  {
    var r := hs + [h];
    assert r[|hs|] == h;
    forall t | t in TxsOf(r) ensures t in TxsOf(hs) + {h.tx} {
      var i :| 0 <= i < |r| && r[i].tx == t;
      if i < |hs| {
        assert r[i] == hs[i];
      }
    }
    forall t | t in TxsOf(hs) ensures t in TxsOf(r) {
      var i :| 0 <= i < |hs| && hs[i].tx == t;
      assert r[i] == hs[i];
    }
    forall i, j | 0 <= i < j < |r| ensures r[i].tx != r[j].tx {
      assert r[i] == hs[i];
      if j < |hs| {
        assert r[j] == hs[j];
      } else {
        assert hs[i].tx in TxsOf(hs);
      }
    }
  }

  lemma ClientSenders(clients: Clients, d: ClientId)
    requires d in clients
    ensures TxsOf(clients[d]) <= SendersOf(clients)
  {
    forall t | t in TxsOf(clients[d]) ensures t in SendersOf(clients) {
    }
  }

  /** A new channel joins the room's channels. */
  lemma JoinedSendersSet(clients: Clients, c: ClientId, h: ConnectionHandle)
    requires HandlesDistinct(clients) && h.tx !in SendersOf(clients)
    ensures SendersOf(Joined(clients, c, h)) == SendersOf(clients) + {h.tx}
  {
    var r := Joined(clients, c, h);
    var hs := if c in clients then clients[c] else [];
    if c in clients {
      ClientSenders(clients, c);
    }
    TxsSnoc(hs, h);
    forall t | t in SendersOf(r) ensures t in SendersOf(clients) + {h.tx} {
      var d :| d in r && t in TxsOf(r[d]);
    }
    forall t | t in SendersOf(clients) ensures t in SendersOf(r) {
      var d :| d in clients && t in TxsOf(clients[d]);
      assert t in TxsOf(r[d]);
    }
  }

  /** A new channel keeps the room's channels distinct. */
  lemma JoinedDistinct(clients: Clients, c: ClientId, h: ConnectionHandle)
    requires HandlesDistinct(clients) && NoEmptyEntry(clients) && h.tx !in SendersOf(clients)
    ensures HandlesDistinct(Joined(clients, c, h)) && NoEmptyEntry(Joined(clients, c, h))
  {
    var r := Joined(clients, c, h);
    var hs := if c in clients then clients[c] else [];
    if c in clients {
      ClientSenders(clients, c);
    }
    TxsSnoc(hs, h);
    forall d, e | d in r && e in r && d != e ensures TxsOf(r[d]) !! TxsOf(r[e]) {
      if d == c {
        ClientSenders(clients, e);
      } else if e == c {
        ClientSenders(clients, d);
      }
    }
  }

  /** A new channel joins the room's channels and keeps them distinct. */
  lemma JoinedSenders(clients: Clients, c: ClientId, h: ConnectionHandle)
    requires HandlesDistinct(clients) && NoEmptyEntry(clients) && h.tx !in SendersOf(clients)
    ensures SendersOf(Joined(clients, c, h)) == SendersOf(clients) + {h.tx}
    ensures HandlesDistinct(Joined(clients, c, h)) && NoEmptyEntry(Joined(clients, c, h))
  {
    JoinedSendersSet(clients, c, h);
    JoinedDistinct(clients, c, h);
  }

  /** retain(|conn| !conn.tx.is_closed()): the connections still open, in order. */
  ghost function OpenOnes(hs: seq<ConnectionHandle>): (r: seq<ConnectionHandle>)
    reads TxsOf(hs)
    ensures |r| <= |hs|
    ensures forall i :: 0 <= i < |r| ==> r[i] in hs && !r[i].tx.closed
    ensures forall i :: 0 <= i < |hs| && !hs[i].tx.closed ==> hs[i] in r
  {
    if hs == [] then []
    else
      assert forall i :: 0 <= i < |hs| - 1 ==> hs[1..][i] == hs[i + 1];
      (if hs[0].tx.closed then [] else [hs[0]]) + OpenOnes(hs[1..])
  }

  lemma OpenOnesStep(hs: seq<ConnectionHandle>, i: nat)
    requires i < |hs|
    ensures hs[i].tx.closed ==> OpenOnes(hs[i..]) == OpenOnes(hs[i + 1..])
    ensures !hs[i].tx.closed ==> OpenOnes(hs[i..]) == [hs[i]] + OpenOnes(hs[i + 1..])
  {
    assert hs[i..][1..] == hs[i + 1..];
    assert [] + OpenOnes(hs[i + 1..]) == OpenOnes(hs[i + 1..]);
  }

  lemma AppendAssoc<T>(a: seq<T>, b: seq<T>, c: seq<T>)
    ensures a + (b + c) == (a + b) + c
  {
  }

  /** Keeping the open connections keeps the channels distinct and drops none of them that is open. */
  lemma {:induction false} OpenOnesTxs(hs: seq<ConnectionHandle>)
    requires TxsDistinct(hs)
    ensures TxsOf(OpenOnes(hs)) <= TxsOf(hs) && TxsDistinct(OpenOnes(hs))
  {
    if hs != [] {
      var rest := hs[1..];
      assert TxsDistinct(rest) by {
        forall i, j | 0 <= i < j < |rest| ensures rest[i].tx != rest[j].tx {
          assert rest[i] == hs[i + 1] && rest[j] == hs[j + 1];
        }
      }
      OpenOnesTxs(rest);
      assert TxsOf(rest) <= TxsOf(hs) by {
        forall t | t in TxsOf(rest) ensures t in TxsOf(hs) {
          var i :| 0 <= i < |rest| && rest[i].tx == t;
          assert rest[i] == hs[i + 1];
        }
      }
      assert hs[0].tx !in TxsOf(rest) by {
        forall i | 0 <= i < |rest| ensures rest[i].tx != hs[0].tx {
          assert rest[i] == hs[i + 1];
        }
      }
      if !hs[0].tx.closed {
        var k := OpenOnes(rest);
        assert OpenOnes(hs) == [hs[0]] + k;
        TxsCons(hs[0], k);
      }
    }
  }

  lemma TxsCons(h: ConnectionHandle, hs: seq<ConnectionHandle>)
    requires TxsDistinct(hs) && h.tx !in TxsOf(hs)
    ensures TxsOf([h] + hs) == {h.tx} + TxsOf(hs) && TxsDistinct([h] + hs)
  {
    var r := [h] + hs;
    forall t | t in TxsOf(r) ensures t in {h.tx} + TxsOf(hs) {
      var i :| 0 <= i < |r| && r[i].tx == t;
      if i > 0 {
        assert r[i] == hs[i - 1];
      }
    }
    forall t | t in TxsOf(hs) ensures t in TxsOf(r) {
      var i :| 0 <= i < |hs| && hs[i].tx == t;
      assert r[i + 1] == hs[i];
    }
    assert r[0] == h;
    forall i, j | 0 <= i < j < |r| ensures r[i].tx != r[j].tx {
      assert r[j] == hs[j - 1];
      if i > 0 {
        assert r[i] == hs[i - 1];
      } else {
        assert hs[j - 1].tx in TxsOf(hs);
      }
    }
  }

  /** Which connections are open depends on the closed flags alone. */
  twostate lemma {:induction false} OpenOnesFrame(hs: seq<ConnectionHandle>)
    requires forall i :: 0 <= i < |hs| ==> old(hs[i].tx.closed) == hs[i].tx.closed
    ensures old(OpenOnes(hs)) == OpenOnes(hs)
  {
    if hs != [] {
      assert forall i :: 0 <= i < |hs| - 1 ==> hs[1..][i] == hs[i + 1];
      OpenOnesFrame(hs[1..]);
    }
  }

  method RetainOpen(hs: seq<ConnectionHandle>) returns (kept: seq<ConnectionHandle>)
    ensures kept == OpenOnes(hs)
  {
    kept := [];
    var i := 0;
    while i < |hs|
      invariant 0 <= i <= |hs|
      invariant kept + OpenOnes(hs[i..]) == OpenOnes(hs)
    {
      OpenOnesStep(hs, i);
      if !hs[i].tx.closed {
        AppendAssoc(kept, [hs[i]], OpenOnes(hs[i + 1..]));
        kept := kept + [hs[i]];
      }
      i := i + 1;
    }
  }

  /** results_cache after update_results_cache: present exactly when the room is tallied; an
      existing tally is kept, a missing one is computed from the room's choices and ballots. */
  ghost predicate CacheFollows(before: Option<Api.CondorcetTally>, after: Option<Api.CondorcetTally>, dbRoom: VoteDb.DbRoom) {
    (after.Some? <==> dbRoom.tallied)
    && (dbRoom.tallied && before.Some? ==> after == before)
    && (dbRoom.tallied && before.None? ==> Condorcet.IsRankedPairs(|dbRoom.choices|, Ballots(dbRoom.votes), after.value))
  }

  /** Every ballot of the room, each client's once: a ballot appears as many times as there are
      clients who submitted it, and nothing else appears. */
  ghost predicate AllBallots(votes: map<ClientId, Api.UserVote>, vs: seq<Api.UserVote>) {
    |vs| == |votes|
    && (forall v :: multiset(vs)[v] == |VoteUtil.KeysWith(votes, v)|)
    && (forall c :: c in votes ==> votes[c] in vs)
    && (forall v :: v in vs ==> exists c :: c in votes && votes[c] == v)
  }

  /** After a broadcast: every connection of the room that is still open holds the notification
      for its own client. */
  ghost predicate Notified(room: ServerRoom, dbRoom: VoteDb.DbRoom)
    reads room, SendersOf(room.clients)
  {
    forall c, i :: c in room.clients && 0 <= i < |room.clients[c]| ==>
      var t := room.clients[c][i].tx;
      assert t in TxsOf(room.clients[c]);
      !t.closed ==> t.value == Some(room.GetClientNotification(c, dbRoom))
  }

  /** Sending opens or closes no channel, and a closed channel keeps the value it had. */
  twostate predicate ClosedKept(new room: ServerRoom)
    reads room, SendersOf(room.clients)
  {
    forall c, i :: c in room.clients && 0 <= i < |room.clients[c]| ==>
      var t := room.clients[c][i].tx;
      assert t in TxsOf(room.clients[c]);
      old(allocated(t)) && t.closed == old(t.closed) && (t.closed ==> t.value == old(t.value))
  }

  /** The in-memory part of one room; the room table is the source of truth for its state. */
  class ServerRoom {
    var clients: Clients
    var resultsCache: Option<Api.CondorcetTally>
    /** The channels of the room's connections. */
    ghost var Repr: set<Tx>
    /** The room's id, for the proofs only. */
    ghost const key: RoomId

    ghost predicate Valid()
      reads this
    {
      HandlesDistinct(clients) && NoEmptyEntry(clients) && SendersOf(clients) <= Repr
    }

    constructor (ghost key: RoomId)
      ensures clients == map[] && resultsCache == None && this.key == key
      ensures Valid() && Repr == {}
    {
      this.key := key;
      clients := map[];
      resultsCache := None;
      Repr := {};
    }

    /** What one client is shown (NotificationContents states it field by field). */
    function GetClientNotification(clientId: ClientId, dbRoom: VoteDb.DbRoom): Api.ClientNotification
      reads this
    {
      var results := match resultsCache
        case None => None
        case Some(tally) => Some(Api.VotingResults(tally, ValuesInOrder(dbRoom.votes)));
      Api.ClientNotification(Api.Connected, Some(Api.VoteView(
        dbRoom.choices,
        if clientId in dbRoom.votes then Some(dbRoom.votes[clientId]) else None,
        |dbRoom.votes|,
        |clients|,
        results)))
    }

    method UpdateResultsCache(dbRoom: VoteDb.DbRoom)
      modifies this`resultsCache
      ensures CacheFollows(old(resultsCache), resultsCache, dbRoom)
    {
      if dbRoom.tallied && resultsCache.None? {
        var tally := CalculateRoomTally(dbRoom.choices, dbRoom.votes);
        resultsCache := Some(tally);
      } else if !dbRoom.tallied && resultsCache.Some? {
        resultsCache := None;
      }
    }

    /** Refreshes the cache, then overwrites the slot of every connection with its client's view. */
    method BroadcastRoomState(dbRoom: VoteDb.DbRoom)
      requires Valid()
      modifies this`resultsCache, Repr`value
      ensures CacheFollows(old(resultsCache), resultsCache, dbRoom)
      ensures Notified(this, dbRoom) && ClosedKept(this)
    {
      UpdateResultsCache(dbRoom);
      SendToAll(dbRoom);
    }

    /** The loop of the broadcast: every client is sent its own view. */
    method SendToAll(dbRoom: VoteDb.DbRoom)
      requires Valid()
      modifies Repr`value
      ensures forall c, i :: c in clients && 0 <= i < |clients[c]| ==>
        clients[c][i].tx.value == if clients[c][i].tx.closed then old(clients[c][i].tx.value)
          else Some(GetClientNotification(c, dbRoom))
    {
      var todo := clients.Keys;
      while todo != {}
        invariant todo <= clients.Keys
        invariant forall c, i :: c in todo && 0 <= i < |clients[c]| ==>
          clients[c][i].tx.value == old(clients[c][i].tx.value)
        invariant forall c, i :: c in clients && c !in todo && 0 <= i < |clients[c]| ==>
          clients[c][i].tx.value == if clients[c][i].tx.closed then old(clients[c][i].tx.value)
            else Some(GetClientNotification(c, dbRoom))
        decreases todo
      {
        var c :| c in todo;
        SendToClient(c, GetClientNotification(c, dbRoom));
        todo := todo - {c};
      }
    }

    /** The inner loop of the broadcast: every connection of one client is sent msg. */
    method SendToClient(c: ClientId, msg: Api.ClientNotification)
      requires Valid() && c in clients
      modifies TxsOf(clients[c])`value
      ensures forall d, i :: d in clients && d != c && 0 <= i < |clients[d]| ==>
        clients[d][i].tx.value == old(clients[d][i].tx.value)
      ensures forall i :: 0 <= i < |clients[c]| ==>
        clients[c][i].tx.value == if clients[c][i].tx.closed then old(clients[c][i].tx.value)
          else Some(msg)
    {
      var hs := clients[c];
      var j := 0;
      while j < |hs|
        invariant 0 <= j <= |hs|
        invariant forall d, i :: d in clients && d != c && 0 <= i < |clients[d]| ==>
          clients[d][i].tx.value == old(clients[d][i].tx.value)
        invariant forall i :: j <= i < |hs| ==> hs[i].tx.value == old(hs[i].tx.value)
        invariant forall i :: 0 <= i < j ==>
          hs[i].tx.value == if hs[i].tx.closed then old(hs[i].tx.value) else Some(msg)
      {
        assert hs[j].tx in TxsOf(hs);
        var _ := hs[j].tx.Send(Some(msg));
        j := j + 1;
      }
    }

    /** Adds a connection under its client, then broadcasts. */
    method AddClient(clientId: ClientId, handle: ConnectionHandle, dbRoom: VoteDb.DbRoom)
      requires Valid() && handle.tx !in Repr
      modifies this, Repr`value, handle.tx`value
      ensures Valid()
      ensures clients == Joined(old(clients), clientId, handle)
      ensures Repr == old(Repr) + {handle.tx}
      ensures CacheFollows(old(resultsCache), resultsCache, dbRoom)
      ensures Notified(this, dbRoom) && ClosedKept(this)
    {
      Connect(clientId, handle);
      assert ClosedKept(this) by {
        forall c, i | c in clients && 0 <= i < |clients[c]|
          ensures var t := clients[c][i].tx; old(allocated(t)) && t.closed == old(t.closed) && t.value == old(t.value)
        {
          assert clients[c][i].tx in TxsOf(clients[c]);
        }
      }
      BroadcastRoomState(dbRoom);
    }

    /** The state change of add_client: the connection is filed under its client. */
    method Connect(clientId: ClientId, handle: ConnectionHandle)
      requires Valid() && handle.tx !in Repr
      modifies this`clients, this`Repr
      ensures Valid()
      ensures clients == Joined(old(clients), clientId, handle)
      ensures Repr == old(Repr) + {handle.tx}
    {
      JoinedSenders(clients, clientId, handle);
      clients := Joined(clients, clientId, handle);
      Repr := Repr + {handle.tx};
    }

    /** Records the client's ballot, replacing an earlier one, writes the room back and broadcasts. */
    method SubmitVote(roomId: RoomId, clientId: ClientId, vote: Api.UserVote, db: VoteDb.Db, now: int)
      requires Valid() && VoteDb.Stored(db.table, roomId).Some?
      modifies db, this`resultsCache, Repr`value
      ensures db.table == VoteDb.Written(old(db.table), roomId, WithBallot(old(VoteDb.Stored(db.table, roomId)).value, clientId, vote), now)
      ensures VoteDb.Stored(db.table, roomId) == Some(WithBallot(old(VoteDb.Stored(db.table, roomId)).value, clientId, vote))
      ensures CacheFollows(old(resultsCache), resultsCache, WithBallot(old(VoteDb.Stored(db.table, roomId)).value, clientId, vote))
      ensures Notified(this, WithBallot(old(VoteDb.Stored(db.table, roomId)).value, clientId, vote))
      ensures ClosedKept(this)
    {
      var stored := db.ReadRoomState(roomId);
      var dbRoom := WithBallot(stored.value, clientId, vote);
      var _ := db.WriteRoomState(roomId, dbRoom, now);
      BroadcastRoomState(dbRoom);
    }

    /** Marks the room tallied, writes it back and broadcasts the results. */
    method Tally(roomId: RoomId, db: VoteDb.Db, now: int)
      requires Valid() && VoteDb.Stored(db.table, roomId).Some?
      modifies db, this`resultsCache, Repr`value
      ensures db.table == VoteDb.Written(old(db.table), roomId, MarkTallied(old(VoteDb.Stored(db.table, roomId)).value), now)
      ensures VoteDb.Stored(db.table, roomId) == Some(MarkTallied(old(VoteDb.Stored(db.table, roomId)).value))
      ensures CacheFollows(old(resultsCache), resultsCache, MarkTallied(old(VoteDb.Stored(db.table, roomId)).value))
      ensures Notified(this, MarkTallied(old(VoteDb.Stored(db.table, roomId)).value))
      ensures ClosedKept(this)
    {
      var stored := db.ReadRoomState(roomId);
      var dbRoom := MarkTallied(stored.value);
      var _ := db.WriteRoomState(roomId, dbRoom, now);
      BroadcastRoomState(dbRoom);
    }

    /** prune_connection_handles on a room in memory: the client's closed connections are
        dropped, then the room's row is read and the room is told; emptied reports whether no
        client is left. */
    method Prune(roomId: RoomId, clientId: ClientId, db: VoteDb.Db) returns (emptied: bool)
      requires Valid() && VoteDb.Stored(db.table, roomId).Some?
      modifies this`clients, this`resultsCache, Repr`value
      ensures Valid()
      ensures clients == old(Pruned(clients, clientId)) && emptied == (clients == map[])
      ensures CacheFollows(old(resultsCache), resultsCache, VoteDb.Stored(db.table, roomId).value)
      ensures Notified(this, VoteDb.Stored(db.table, roomId).value) && ClosedKept(this)
    {
      PruneClient(clientId);
      assert ClosedKept(this) by {
        forall c, i | c in clients && 0 <= i < |clients[c]|
          ensures var t := clients[c][i].tx; old(allocated(t)) && t.closed == old(t.closed) && t.value == old(t.value)
        {
          assert clients[c][i].tx in TxsOf(clients[c]);
        }
      }
      emptied := clients == map[];
      var stored := db.ReadRoomState(roomId);
      BroadcastRoomState(stored.value);
    }

    /** The first half of prune_connection_handles: drops the client's closed connections, and
        the client too when none is left. */
    method PruneClient(clientId: ClientId)
      requires Valid()
      modifies this`clients
      ensures Valid()
      ensures clients == old(Pruned(clients, clientId))
    {
      PrunedValid(clients, clientId);
      ghost var pruned := Pruned(clients, clientId);
      if clientId in clients {
        label before:
        var kept := RetainOpen(clients[clientId]);
        OpenOnesFrame@before(clients[clientId]);
        if kept == [] {
          clients := clients - {clientId};
        } else {
          clients := clients[clientId := kept];
        }
      }
      assert clients == pruned;
    }
  }

  /** The client's connections after prune_connection_handles: the closed ones are dropped, and
      the client with them when none is left open; other clients keep theirs. */
  ghost function Pruned(clients: Clients, c: ClientId): (r: Clients)
    reads if c in clients then TxsOf(clients[c]) else {}
    ensures r.Keys <= clients.Keys
    ensures forall d :: d in clients && d != c ==> d in r && r[d] == clients[d]
    ensures c in r <==> c in clients && OpenOnes(clients[c]) != []
    ensures c in r ==> r[c] == OpenOnes(clients[c])
  {
    if c !in clients then clients
    else if OpenOnes(clients[c]) == [] then clients - {c}
    else clients[c := OpenOnes(clients[c])]
  }

  /** Pruning keeps the room's connections well formed and adds no channel. */
  lemma PrunedValid(clients: Clients, c: ClientId)
    requires HandlesDistinct(clients) && NoEmptyEntry(clients)
    ensures HandlesDistinct(Pruned(clients, c)) && NoEmptyEntry(Pruned(clients, c))
    ensures SendersOf(Pruned(clients, c)) <= SendersOf(clients)
  {
    var r := Pruned(clients, c);
    if c in clients {
      OpenOnesTxs(clients[c]);
    }
    forall t | t in SendersOf(r) ensures t in SendersOf(clients) {
      var d :| d in r && t in TxsOf(r[d]);
    }
  }

  /** What one client is shown: the choices, its own ballot, how many have voted and how many
      clients are connected, and, once the vote is tallied, the cached tally with every ballot. */
  lemma NotificationContents(room: ServerRoom, clientId: ClientId, dbRoom: VoteDb.DbRoom)
    ensures var n := room.GetClientNotification(clientId, dbRoom);
      n.status == Api.Connected && n.vote.Some?
      && n.vote.value.choices == dbRoom.choices
      && (n.vote.value.yourVote.Some? <==> clientId in dbRoom.votes)
      && (n.vote.value.yourVote.Some? ==> n.vote.value.yourVote.value == dbRoom.votes[clientId])
      && n.vote.value.numVotes == |dbRoom.votes| && n.vote.value.numPlayers == |room.clients.Keys|
      && (n.vote.value.results.Some? <==> room.resultsCache.Some?)
      && (n.vote.value.results.Some? ==>
            n.vote.value.results.value.tally == room.resultsCache.value
            && AllBallots(dbRoom.votes, n.vote.value.results.value.votes))
  {
  }

  /** A room in memory agrees with its row in the table. */
  ghost predicate RoomOk(room: ServerRoom, id: RoomId, stored: Option<VoteDb.DbRoom>)
    reads room
  {
    room.key == id && room.Valid() && stored.Some? && (room.resultsCache.Some? <==> stored.value.tallied)
  }

  /** All rooms held in memory, and the database behind them. */
  class VoteState {
    var rooms: map<RoomId, ServerRoom>
    const db: VoteDb.Db

    /** The room under roomId, when it is in memory: what an operation on that room may change,
        besides the values held by its channels. */
    ghost function RoomObject(roomId: RoomId): set<ServerRoom>
      reads this
    {
      if roomId in rooms then {rooms[roomId]} else {}
    }

    /** The channels of the room under roomId, when it is in memory. */
    ghost function RoomTxs(roomId: RoomId): set<Tx>
      reads this, rooms.Values
    {
      if roomId in rooms then rooms[roomId].Repr else {}
    }

    /** Every room in memory is well formed, is filed under its own id, has a readable row in
        the table, and has its results cached exactly when that row is tallied. */
    ghost predicate Valid()
      reads this, db, rooms.Values
    {
      forall r :: r in rooms ==> RoomOk(rooms[r], r, VoteDb.Stored(db.table, r))
    }

    constructor (db: VoteDb.Db)
      ensures this.db == db && rooms == map[]
      ensures Valid()
    {
      this.db := db;
      rooms := map[];
    }

    /** Stores a new room under id, which the caller draws at random. */
    method CreateRoom(choices: seq<string>, id: RoomId, now: int) returns (roomId: RoomId)
      requires Valid() && id !in db.table
      modifies db
      ensures Valid()
      ensures roomId == id && db.table == VoteDb.Created(old(db.table), id, choices, now)
    {
      roomId := db.CreateRoom(choices, id, now);
    }

    /** The start_vote form handler: one choice per non-blank line, trimmed, then a new room. */
    method StartVote(form: Api.NewVoteForm, id: RoomId, now: int) returns (roomId: RoomId)
      requires Valid() && id !in db.table
      modifies db
      ensures Valid()
      ensures roomId == id && db.table == VoteDb.Created(old(db.table), id, ParseChoices(form.choices), now)
    {
      var choices := ParseChoices(form.choices);
      roomId := CreateRoom(choices, id, now);
    }

    /** rooms.entry(roomId).or_insert_with(ServerRoom::new): the room in memory, or a new empty one. */
    method Entry(roomId: RoomId) returns (room: ServerRoom)
      requires Valid()
      modifies this
      ensures rooms == old(rooms)[roomId := room] && room.key == roomId
      ensures roomId in old(rooms) ==> room == old(rooms[roomId])
      ensures roomId !in old(rooms) ==> fresh(room) && room.clients == map[] && room.resultsCache == None && room.Repr == {} && room.Valid()
    {
      if roomId in rooms {
        room := rooms[roomId];
        assert rooms == rooms[roomId := room];
      } else {
        room := new ServerRoom(roomId);
        rooms := rooms[roomId := room];
      }
    }

    /** A new connection for clientId in roomId: refused when the room cannot be read; otherwise
        the room's activity time is refreshed, the room is brought into memory if it was not,
        and the connection is added and everyone in the room is told. */
    method RegisterClient(roomId: RoomId, clientId: ClientId, tx: Tx, now: int) returns (ok: bool)
      requires Valid() && forall r :: r in rooms ==> tx !in rooms[r].Repr
      modifies this, db, RoomObject(roomId), RoomTxs(roomId)`value, tx`value
      ensures Valid()
      ensures ok <==> old(VoteDb.Stored(db.table, roomId)).Some?
      ensures !ok ==> rooms == old(rooms) && db.table == old(db.table)
      ensures ok ==>
        db.table == VoteDb.Bumped(old(db.table), roomId, now)
        && roomId in rooms && rooms == old(rooms)[roomId := rooms[roomId]]
        && rooms[roomId].clients == Joined(if roomId in old(rooms) then old(rooms[roomId].clients) else map[], clientId, ConnectionHandle(tx))
        && CacheFollows(if roomId in old(rooms) then old(rooms[roomId].resultsCache) else None, rooms[roomId].resultsCache, old(VoteDb.Stored(db.table, roomId)).value)
        && Notified(rooms[roomId], old(VoteDb.Stored(db.table, roomId)).value)
    {
      var stored := db.ReadRoomState(roomId);
      if stored.None? {
        return false;
      }
      db.BumpRoomActivity(roomId, now);
      var room := Entry(roomId);
      ghost var t1 := db.table;
      forall r | r in rooms ensures VoteDb.Stored(t1, r) == old(VoteDb.Stored(db.table, r)) {
        VoteDb.BumpKeepsStates(old(db.table), roomId, now, r);
      }
      ghost var rs := rooms;
      assert (db as object) !in room.Repr && (this as object) !in room.Repr;
      label before:
      room.AddClient(clientId, ConnectionHandle(tx), stored.value);
      assert rooms == rs && db.table == t1;
      assert RoomOk(room, roomId, stored);
      forall r | r in rs ensures RoomOk(rs[r], r, VoteDb.Stored(t1, r)) {
        if r != roomId {
          assert (rs[r] as object) !in old@before(room.Repr) && (rs[r] as object) != tx;
          assert rs[r].key != roomId;
          assert unchanged@before(rs[r]);
        }
      }
      ok := true;
    }

    /** A ballot from a client: recorded by the room when the room is in memory, ignored otherwise. */
    method SubmitVote(roomId: RoomId, clientId: ClientId, vote: Api.UserVote, now: int)
      requires Valid()
      modifies db, RoomObject(roomId)`resultsCache, RoomTxs(roomId)`value
      ensures Valid()
      ensures roomId !in rooms ==> db.table == old(db.table)
      ensures roomId in rooms ==>
        var room := WithBallot(old(VoteDb.Stored(db.table, roomId)).value, clientId, vote);
        db.table == VoteDb.Written(old(db.table), roomId, room, now)
        && rooms[roomId].clients == old(rooms[roomId].clients)
        && CacheFollows(old(rooms[roomId].resultsCache), rooms[roomId].resultsCache, room)
        && Notified(rooms[roomId], room) && ClosedKept(rooms[roomId])
    {
      if roomId in rooms {
        var room := rooms[roomId];
        ghost var t0 := db.table;
        label before:
        room.SubmitVote(roomId, clientId, vote, db, now);
        forall r | r in rooms ensures RoomOk(rooms[r], r, VoteDb.Stored(db.table, r)) {
          if r != roomId {
            VoteDb.ReadYourWrite(t0, roomId, WithBallot(VoteDb.Stored(t0, roomId).value, clientId, vote), now, r);
            assert rooms[r].key != roomId;
            assert unchanged@before(rooms[r]);
          }
        }
      }
    }

    /** A tally request: carried out by the room when the room is in memory, ignored otherwise. */
    method Tally(roomId: RoomId, now: int)
      requires Valid()
      modifies db, RoomObject(roomId)`resultsCache, RoomTxs(roomId)`value
      ensures Valid()
      ensures roomId !in rooms ==> db.table == old(db.table)
      ensures roomId in rooms ==>
        var room := MarkTallied(old(VoteDb.Stored(db.table, roomId)).value);
        db.table == VoteDb.Written(old(db.table), roomId, room, now)
        && rooms[roomId].clients == old(rooms[roomId].clients)
        && CacheFollows(old(rooms[roomId].resultsCache), rooms[roomId].resultsCache, room)
        && Notified(rooms[roomId], room) && ClosedKept(rooms[roomId])
    {
      if roomId in rooms {
        var room := rooms[roomId];
        ghost var t0 := db.table;
        label before:
        room.Tally(roomId, db, now);
        forall r | r in rooms ensures RoomOk(rooms[r], r, VoteDb.Stored(db.table, r)) {
          if r != roomId {
            VoteDb.ReadYourWrite(t0, roomId, MarkTallied(VoteDb.Stored(t0, roomId).value), now, r);
            assert rooms[r].key != roomId;
            assert unchanged@before(rooms[r]);
          }
        }
      }
    }

    /** After a connection of clientId ends: its closed connections are dropped, the room is
        told, and a room left without clients is evicted from memory. */
    method PruneConnectionHandles(roomId: RoomId, clientId: ClientId)
      requires Valid()
      modifies this, RoomObject(roomId), RoomTxs(roomId)`value
      ensures Valid()
      ensures roomId !in old(rooms) ==> rooms == old(rooms)
      ensures roomId in old(rooms) ==>
        var pruned := old(Pruned(rooms[roomId].clients, clientId));
        (pruned == map[] ==> rooms == old(rooms) - {roomId})
        && (pruned != map[] ==>
              rooms == old(rooms) && rooms[roomId].clients == pruned
              && rooms[roomId].resultsCache == old(rooms[roomId].resultsCache)
              && Notified(rooms[roomId], old(VoteDb.Stored(db.table, roomId)).value)
              && ClosedKept(rooms[roomId]))
    {
      if roomId in rooms {
        var room := rooms[roomId];
        ghost var rs := rooms;
        var removeRoom := room.Prune(roomId, clientId, db);
        if removeRoom {
          rooms := rooms - {roomId};
        }
        forall r | r in rooms ensures RoomOk(rooms[r], r, VoteDb.Stored(db.table, r)) {
          if r != roomId {
            assert rs[r].key != roomId;
          }
        }
      }
    }

    /** The periodic cleanup: every room in memory is marked active, then the rows inactive for
        more than a day are deleted. */
    method CleanupRooms(now: int)
      requires Valid()
      modifies db
      ensures Valid()
      ensures db.table == VoteDb.Cleaned(VoteDb.BumpedAll(old(db.table), rooms.Keys, now), now)
    {
      var todo := rooms.Keys;
      while todo != {}
        invariant todo <= rooms.Keys
        invariant db.table == VoteDb.BumpedAll(old(db.table), rooms.Keys - todo, now)
        decreases todo
      {
        var r :| r in todo;
        VoteDb.BumpOneMore(old(db.table), rooms.Keys - todo, r, now);
        db.BumpRoomActivity(r, now);
        todo := todo - {r};
        assert rooms.Keys - todo == (rooms.Keys - (todo + {r})) + {r};
      }
      assert rooms.Keys - todo == rooms.Keys;
      db.CleanupRooms(now);
      VoteDb.CleanupKeepsBumped(old(db.table), rooms.Keys, now);
    }
  }
}
