/** The rock-paper-scissors server: rooms of connected clients, the first two of whom play, the
    history of rounds played, and the view of the room each client is sent. */
module Rps {
  import opened Wrappers
  import Seqs
  import Watch

  datatype Choice = Rock | Paper | Scissors

  datatype GameOutcome = Win | Loss | Draw

  /** The rule of the game: rock blunts scissors, scissors cut paper, paper covers rock. */
  predicate Beats(a: Choice, b: Choice) {
    (a == Rock && b == Scissors) || (a == Scissors && b == Paper) || (a == Paper && b == Rock)
  }

  /** Choice::get_outcome: the outcome of a round for the player who chose a against b. */
  function GetOutcome(a: Choice, b: Choice): (r: GameOutcome)
    ensures r == Draw <==> a == b
    ensures r == Win <==> Beats(a, b)
    ensures r == Loss <==> Beats(b, a)
  {
    match (a, b)
    case (Rock, Paper) => Loss
    case (Paper, Scissors) => Loss
    case (Scissors, Rock) => Loss
    case (Paper, Rock) => Win
    case (Scissors, Paper) => Win
    case (Rock, Scissors) => Win
    case _ => Draw
  }

  /** A round won by one player is lost by the other, and a draw is a draw for both. */
  lemma OutcomeAntisymmetric(a: Choice, b: Choice)
    ensures GetOutcome(a, b) == Win <==> GetOutcome(b, a) == Loss
    ensures GetOutcome(a, b) == Draw <==> GetOutcome(b, a) == Draw
  {
  }

  /** Client ids are the counter values handed out by the server. */
  type ClientId = nat
  type RoomId = string

  type Tx = Watch.Sender<Option<ClientNotification>>

  datatype PlayerState = PlayerState(choice: Option<Choice>)

  datatype ClientInfo = ClientInfo(tx: Tx)

  /** One round of the history: the choice of each of the two players. */
  type Round = map<ClientId, Choice>

  datatype Room = Room(clients: map<ClientId, ClientInfo>, players: map<ClientId, PlayerState>, history: seq<Round>)

  datatype ClientStatus = Connected

  datatype ClientNotification = ClientNotification(status: ClientStatus, roomState: Option<RoomView>)

  /** What a player is shown. */
  datatype PlayerView = PlayerView(
    choice: Option<Choice>,
    opponentChosen: bool,
    outcomeHistory: seq<GameOutcome>,
    wins: nat,
    draws: nat,
    losses: nat)

  /** What a spectator is shown. */
  datatype SpectatorView = SpectatorView(playerWins: seq<nat>, playerChosen: seq<bool>, draws: nat)

  datatype RoomView = RoomView(
    numPlayers: nat,
    numSpectators: nat,
    history: seq<seq<Choice>>,
    playerView: Option<PlayerView>,
    spectatorView: Option<SpectatorView>)

  // ---- the view of a room ----

  /** The sort key of get_game_view: the viewer first, everyone else by id. */
  function SortKey(id: ClientId, viewer: ClientId): nat {
    if id == viewer then 0 else id + 1
  }

  /** The ids of a round in the order the viewer sees them: sorted by SortKey. */
  function RoundOrder(round: Round, viewer: ClientId): (ids: seq<ClientId>)
    ensures |ids| == |round|
    ensures forall id :: id in ids <==> id in round
    ensures forall i, j :: 0 <= i < j < |ids| ==> SortKey(ids[i], viewer) < SortKey(ids[j], viewer)
    ensures viewer in round ==> ids[0] == viewer
  {
    var others := Seqs.Ascending(round.Keys - {viewer});
    OthersSorted(others, viewer);
    OthersCount(round, viewer);
    if viewer in round then
      ViewerFirst(others, viewer);
      [viewer] + others
    else
      others
  }

  lemma OthersCount(round: Round, viewer: ClientId)
    ensures |round.Keys - {viewer}| == if viewer in round then |round| - 1 else |round|
  {
    assert |round| == |round.Keys|;
    if viewer !in round {
      assert round.Keys - {viewer} == round.Keys;
    }
  }

  lemma OthersSorted(others: seq<ClientId>, viewer: ClientId)
    requires Seqs.StrictlyAscending(others) && viewer !in others
    ensures forall i, j :: 0 <= i < j < |others| ==> SortKey(others[i], viewer) < SortKey(others[j], viewer)
  {
    forall i, j | 0 <= i < j < |others| ensures SortKey(others[i], viewer) < SortKey(others[j], viewer) {
      assert others[i] != viewer && others[j] != viewer;
    }
  }

  lemma ViewerFirst(others: seq<ClientId>, viewer: ClientId)
    requires viewer !in others
    requires forall i, j :: 0 <= i < j < |others| ==> SortKey(others[i], viewer) < SortKey(others[j], viewer)
    ensures var ids := [viewer] + others;
      forall i, j :: 0 <= i < j < |ids| ==> SortKey(ids[i], viewer) < SortKey(ids[j], viewer)
  {
    var ids := [viewer] + others;
    forall i, j | 0 <= i < j < |ids| ensures SortKey(ids[i], viewer) < SortKey(ids[j], viewer) {
      assert ids[j] == others[j - 1];
      if i > 0 {
        assert ids[i] == others[i - 1];
      } else {
        assert others[j - 1] != viewer;
      }
    }
  }

  /** The choices of one round, in the viewer's order. */
  function RoundView(round: Round, viewer: ClientId): (r: seq<Choice>)
    ensures |r| == |round|
    ensures viewer in round ==> r[0] == round[viewer]
  {
    Pick(round, RoundOrder(round, viewer))
  }

  /** The choices under the given ids, in their order. */
  function Pick(round: Round, ids: seq<ClientId>): (r: seq<Choice>)
    requires forall i :: 0 <= i < |ids| ==> ids[i] in round
    ensures |r| == |ids| && forall i :: 0 <= i < |ids| ==> r[i] == round[ids[i]]
  {
    seq(|ids|, i requires 0 <= i < |ids| => round[ids[i]])
  }

  /** The outcome of a viewed round for the one listed first. */
  function Outcome(choices: seq<Choice>): GameOutcome
    requires |choices| >= 2
  {
    GetOutcome(choices[0], choices[1])
  }

  ghost predicate AllPairs(hv: seq<seq<Choice>>) {
    forall k :: 0 <= k < |hv| ==> |hv[k]| >= 2
  }

  /** The fold of get_game_view over the viewed history: (wins, losses, draws) of whoever is
      listed first. */
  function Tallies(hv: seq<seq<Choice>>): (r: (nat, nat, nat))
    requires AllPairs(hv)
    ensures r.0 + r.1 + r.2 == |hv|
  {
    if hv == [] then (0, 0, 0)
    else
      var last := |hv| - 1;
      var p := Tallies(hv[..last]);
      match Outcome(hv[last])
      case Win => (p.0 + 1, p.1, p.2)
      case Loss => (p.0, p.1 + 1, p.2)
      case Draw => (p.0, p.1, p.2 + 1)
  }

  /** How often o occurs in a list of outcomes. */
  function Occurrences(os: seq<GameOutcome>, o: GameOutcome): nat {
    if os == [] then 0
    else Occurrences(os[..|os| - 1], o) + (if os[|os| - 1] == o then 1 else 0)
  }

  /** The outcome of each viewed round. */
  function Outcomes(hv: seq<seq<Choice>>): (os: seq<GameOutcome>)
    requires AllPairs(hv)
    ensures |os| == |hv|
  {
    seq(|hv|, k requires 0 <= k < |hv| => Outcome(hv[k]))
  }

  /** The fold counts the outcome history: wins, losses and draws are how often each occurs. */
  lemma TalliesCount(hv: seq<seq<Choice>>)
    requires AllPairs(hv)
    ensures Tallies(hv) == (Occurrences(Outcomes(hv), Win), Occurrences(Outcomes(hv), Loss), Occurrences(Outcomes(hv), Draw))
  {
    TallyOccurrences(hv, Win);
    TallyOccurrences(hv, Loss);
    TallyOccurrences(hv, Draw);
  }

  /** The count of one outcome in a (wins, losses, draws) triple. */
  function Component(t: (nat, nat, nat), o: GameOutcome): nat {
    match o
    case Win => t.0
    case Loss => t.1
    case Draw => t.2
  }

  lemma {:induction false} TallyOccurrences(hv: seq<seq<Choice>>, o: GameOutcome)
    requires AllPairs(hv)
    ensures Component(Tallies(hv), o) == Occurrences(Outcomes(hv), o)
  {
    if hv != [] {
      var last := |hv| - 1;
      TallyOccurrences(hv[..last], o);
      OutcomesPrefix(hv);
    }
  }

  lemma OutcomesPrefix(hv: seq<seq<Choice>>)
    requires AllPairs(hv) && hv != []
    ensures var last := |hv| - 1;
      Outcomes(hv)[..last] == Outcomes(hv[..last]) && Outcomes(hv)[last] == Outcome(hv[last])
  {
  }

  /** The players who have made a choice in the current round. */
  ghost function ChosenIds(players: map<ClientId, PlayerState>): set<ClientId> {
    set id | id in players && players[id].choice.Some?
  }

  /** For each player, in increasing id order, whether they have chosen; so as many flags are set
      as players have chosen. */
  function ChosenFlags(players: map<ClientId, PlayerState>): (r: seq<bool>)
    ensures |r| == |players|
    ensures forall i :: 0 <= i < |r| ==> (r[i] <==> players[Seqs.Ascending(players.Keys)[i]].choice.Some?)
    ensures multiset(r)[true] == |ChosenIds(players)|
  {
    var ids := Seqs.Ascending(players.Keys);
    FlagsOfAll(players, ids);
    Flags(players, ids)
  }

  /** Flagging every player once sets one flag per player who has chosen. */
  lemma FlagsOfAll(players: map<ClientId, PlayerState>, ids: seq<ClientId>)
    requires Seqs.StrictlyAscending(ids) && forall id :: id in ids <==> id in players
    ensures multiset(Flags(players, ids))[true] == |ChosenIds(players)|
  {
    FlagsCount(players, ids);
    var s1 := ChosenAmong(players, ids);
    forall id ensures id in s1 <==> id in ChosenIds(players) { }
    assert s1 == ChosenIds(players);
  }

  /** The players listed in ids who have chosen. */
  ghost function ChosenAmong(players: map<ClientId, PlayerState>, ids: seq<ClientId>): set<ClientId>
    requires forall id :: id in ids ==> id in players
  {
    set id | id in ids && players[id].choice.Some?
  }

  function Flags(players: map<ClientId, PlayerState>, ids: seq<ClientId>): seq<bool>
    requires forall id :: id in ids ==> id in players
  {
    seq(|ids|, i requires 0 <= i < |ids| => players[ids[i]].choice.Some?)
  }

  /** Flagging distinct players sets one flag per player among them who has chosen. */
  lemma {:induction false} FlagsCount(players: map<ClientId, PlayerState>, ids: seq<ClientId>)
    requires forall id :: id in ids ==> id in players
    requires Seqs.StrictlyAscending(ids)
    ensures multiset(Flags(players, ids))[true] == |ChosenAmong(players, ids)|
  {
    if ids != [] {
      var rest := ids[1..];
      assert forall id :: id in rest ==> id in ids;
      assert Seqs.StrictlyAscending(rest) by {
        forall i, j | 0 <= i < j < |rest| ensures rest[i] < rest[j] { assert rest[i] == ids[i + 1] && rest[j] == ids[j + 1]; }
      }
      assert ids[0] !in rest by {
        forall k | 0 <= k < |rest| ensures rest[k] != ids[0] { assert rest[k] == ids[k + 1] && ids[0] < ids[k + 1]; }
      }
      FlagsCount(players, rest);
      FlagsCons(players, ids);
      ChosenCons(players, ids);
    }
  }

  lemma FlagsCons(players: map<ClientId, PlayerState>, ids: seq<ClientId>)
    requires ids != [] && forall id :: id in ids ==> id in players
    ensures forall id :: id in ids[1..] ==> id in players
    ensures Flags(players, ids) == [players[ids[0]].choice.Some?] + Flags(players, ids[1..])
  {
    assert forall id :: id in ids[1..] ==> id in ids;
    var l, r := Flags(players, ids), [players[ids[0]].choice.Some?] + Flags(players, ids[1..]);
    forall i | 0 <= i < |l| ensures l[i] == r[i] {
      if i > 0 { assert r[i] == Flags(players, ids[1..])[i - 1]; assert ids[1..][i - 1] == ids[i]; }
    }
  }

  lemma ChosenCons(players: map<ClientId, PlayerState>, ids: seq<ClientId>)
    requires ids != [] && forall id :: id in ids ==> id in players
    requires ids[0] !in ids[1..]
    ensures |ChosenAmong(players, ids)| ==
      |ChosenAmong(players, ids[1..])| + (if players[ids[0]].choice.Some? then 1 else 0)
  {
    assert forall id :: id in ids[1..] ==> id in ids;
    var all := ChosenAmong(players, ids);
    var later := ChosenAmong(players, ids[1..]);
    assert ids == [ids[0]] + ids[1..];
    assert forall id :: id in ids <==> id == ids[0] || id in ids[1..];
    if players[ids[0]].choice.Some? {
      assert all == later + {ids[0]};
      assert ids[0] !in later;
      assert |all| == |later| + 1;
    } else {
      forall id ensures id in all <==> id in later {
        if id in all && id != ids[0] { assert id in ids[1..]; }
      }
      assert all == later;
    }
  }

  /** What get_game_view demands of a room: each round has two choices to compare and the players
      are no more than the clients. */
  ghost predicate Viewable(room: Room) {
    && |room.players| <= |room.clients|
    && forall k :: 0 <= k < |room.history| ==> |room.history[k]| >= 2
  }

  /** The viewed history: every round in the viewer's order. */
  function HistoryView(history: seq<Round>, viewer: ClientId): (hv: seq<seq<Choice>>)
    ensures |hv| == |history|
    ensures forall k :: 0 <= k < |history| ==> hv[k] == RoundView(history[k], viewer)
    ensures forall k :: 0 <= k < |history| ==> |hv[k]| == |history[k]|
    ensures forall k :: 0 <= k < |history| && viewer in history[k] ==> hv[k][0] == history[k][viewer]
  {
    seq(|history|, k requires 0 <= k < |history| => RoundView(history[k], viewer))
  }

  /** Whether a player other than the viewer has made a choice. */
  predicate OpponentChosen(players: map<ClientId, PlayerState>, viewer: ClientId) {
    exists id :: id in players && id != viewer && players[id].choice.Some?
  }

  /** The player part of get_game_view. */
  function PlayerViewOf(state: PlayerState, opponentChosen: bool, hv: seq<seq<Choice>>): (p: PlayerView)
    requires AllPairs(hv)
    ensures p.choice == state.choice && p.opponentChosen == opponentChosen
    ensures p.wins + p.losses + p.draws == |hv| && |p.outcomeHistory| == |hv|
  {
    var counts := Tallies(hv);
    PlayerView(state.choice, opponentChosen, Outcomes(hv), counts.0, counts.2, counts.1)
  }

  /** The spectator part of get_game_view. */
  function SpectatorViewOf(players: map<ClientId, PlayerState>, hv: seq<seq<Choice>>): (s: SpectatorView)
    requires AllPairs(hv)
    ensures |s.playerWins| == 2 && s.playerWins[0] + s.playerWins[1] + s.draws == |hv|
    ensures |s.playerChosen| == |players| && multiset(s.playerChosen)[true] == |ChosenIds(players)|
  {
    var counts := Tallies(hv);
    SpectatorView([counts.0, counts.1], ChosenFlags(players), counts.2)
  }

  /** get_game_view: the view of the room for one of its clients. */
  function GameView(room: Room, viewer: ClientId): (v: RoomView)
    requires Viewable(room)
    ensures v.numPlayers == |room.players| && v.numPlayers + v.numSpectators == |room.clients|
    ensures |v.history| == |room.history|
    ensures forall k :: 0 <= k < |room.history| ==> |v.history[k]| == |room.history[k]|
    ensures forall k :: 0 <= k < |room.history| && viewer in room.history[k] ==>
      v.history[k][0] == room.history[k][viewer]
    ensures v.playerView.Some? <==> viewer in room.players
    ensures v.spectatorView.Some? <==> viewer !in room.players
    ensures v.playerView.Some? ==>
      var p := v.playerView.value;
      && p.choice == room.players[viewer].choice
      && p.wins + p.losses + p.draws == |room.history|
      && |p.outcomeHistory| == |room.history|
      && (p.opponentChosen <==> OpponentChosen(room.players, viewer))
    ensures v.spectatorView.Some? ==>
      var s := v.spectatorView.value;
      |s.playerWins| == 2 && s.playerWins[0] + s.playerWins[1] + s.draws == |room.history|
      && |s.playerChosen| == |room.players| && multiset(s.playerChosen)[true] == |ChosenIds(room.players)|
  {
    var hv := HistoryView(room.history, viewer);
    assert AllPairs(hv);
    var playerView :=
      if viewer in room.players then Some(PlayerViewOf(room.players[viewer], OpponentChosen(room.players, viewer), hv))
      else None;
    var spectatorView := if viewer in room.players then None else Some(SpectatorViewOf(room.players, hv));
    RoomView(|room.players|, |room.clients| - |room.players|, hv, playerView, spectatorView)
  }

  /** A player who took part in a round sees its outcome from their own side: against the choice
      of the other player in it. */
  lemma PlayerOutcome(room: Room, viewer: ClientId, k: nat)
    requires Viewable(room) && viewer in room.players
    requires k < |room.history| && viewer in room.history[k] && |room.history[k]| == 2
    ensures var round := room.history[k];
      exists other :: other in round && other != viewer
        && GameView(room, viewer).playerView.value.outcomeHistory[k] == GetOutcome(round[viewer], round[other])
  {
    var round := room.history[k];
    var ids := RoundOrder(round, viewer);
    var other := ids[1];
    assert other in round && other != viewer;
    assert RoundView(round, viewer)[1] == round[other];
  }

  /** A spectator sees each two-player round with the lower id first. */
  lemma SpectatorOrder(room: Room, viewer: ClientId, k: nat)
    requires Viewable(room) && k < |room.history| && viewer !in room.history[k] && |room.history[k]| == 2
    ensures var round := room.history[k];
      exists a, b :: a < b && round.Keys == {a, b} && GameView(room, viewer).history[k] == [round[a], round[b]]
  {
    SpectatorRound(room.history[k], viewer);
  }

  lemma SpectatorRound(round: Round, viewer: ClientId)
    requires viewer !in round && |round| == 2
    ensures exists a, b :: a < b && round.Keys == {a, b} && RoundView(round, viewer) == [round[a], round[b]]
  {
    var ids := RoundOrder(round, viewer);
    TwoIds(ids, round);
    var a, b := ids[0], ids[1];
    assert SortKey(a, viewer) < SortKey(b, viewer);
    assert RoundView(round, viewer) == [round[a], round[b]];
  }

  lemma TwoIds(ids: seq<ClientId>, round: Round)
    requires |ids| == 2 && forall id :: id in ids <==> id in round
    ensures round.Keys == {ids[0], ids[1]}
  {
    assert ids == [ids[0], ids[1]];
  }

  // ---- the room invariant ----

  /** Distinct clients of a room hold distinct channels. */
  ghost predicate TxsDistinct(clients: map<ClientId, ClientInfo>) {
    forall a, b :: a in clients && b in clients && a != b ==> clients[a].tx != clients[b].tx
  }

  function TxsOf(clients: map<ClientId, ClientInfo>): set<Tx> {
    set c | c in clients :: clients[c].tx
  }

  /** What every room of the server keeps: it has a client, its players are at most two of its
      clients, every round of its history holds exactly two choices and all current players, and
      its channels are distinct. */
  ghost predicate RoomOk(room: Room) {
    && room.clients != map[]
    && room.players.Keys <= room.clients.Keys
    && |room.players| <= 2
    && (forall k :: 0 <= k < |room.history| ==> |room.history[k]| == 2)
    && (forall k, p :: 0 <= k < |room.history| && p in room.players ==> p in room.history[k])
    && TxsDistinct(room.clients)
  }

  lemma SubsetCard<T, U, V>(a: map<T, U>, b: map<T, V>)
    requires a.Keys <= b.Keys
    ensures |a| <= |b|
  {
    assert |a.Keys| <= |b.Keys| by {
      SetSubsetCard(a.Keys, b.Keys);
    }
  }

  lemma {:induction false} SetSubsetCard<T>(a: set<T>, b: set<T>)
    requires a <= b
    ensures |a| <= |b|
    decreases |b|
  {
    if a != {} {
      var x :| x in a;
      SetSubsetCard(a - {x}, b - {x});
    }
  }

  /** A room that keeps the invariant can be viewed. */
  lemma RoomViewable(room: Room)
    requires RoomOk(room)
    ensures Viewable(room)
  {
    SubsetCard(room.players, room.clients);
  }

  /** The notification a broadcast leaves in a client's channel. */
  function Notification(room: Room, c: ClientId): ClientNotification
    requires Viewable(room)
  {
    ClientNotification(Connected, Some(GameView(room, c)))
  }

  /** After a broadcast: every open channel of the room holds its client's view. */
  ghost predicate Notified(room: Room)
    requires Viewable(room)
    reads TxsOf(room.clients)
  {
    forall c :: c in room.clients ==>
      var t := room.clients[c].tx;
      assert t in TxsOf(room.clients);
      !t.closed ==> t.value == Some(Notification(room, c))
  }

  /** Sending closes no channel, and a closed channel keeps the value it had; channels created
      since are not constrained. */
  twostate predicate ClosedKept(new room: Room)
    reads TxsOf(room.clients)
  {
    forall c :: c in room.clients ==>
      var t := room.clients[c].tx;
      assert t in TxsOf(room.clients);
      old(allocated(t)) ==> t.closed == old(t.closed) && (t.closed ==> t.value == old(t.value))
  }

  /** An empty room, as inserted by or_default. */
  const EmptyRoom := Room(map[], map[], [])

  /** The loop of broadcast_state: each client's channel is sent that client's message. */
  method SendAll(clients: map<ClientId, ClientInfo>, msgs: map<ClientId, ClientNotification>)
    requires TxsDistinct(clients) && clients.Keys <= msgs.Keys
    modifies TxsOf(clients)`value
    ensures forall c :: c in clients ==>
      var t := clients[c].tx;
      t.value == if t.closed then old(t.value) else Some(msgs[c])
    ensures forall c :: c in clients ==> clients[c].tx.closed == old(clients[c].tx.closed)
  {
    var todo := clients.Keys;
    while todo != {}
      invariant todo <= clients.Keys
      invariant forall c :: c in clients ==>
        var t := clients[c].tx;
        t.value == if c in todo || t.closed then old(t.value) else Some(msgs[c])
      decreases todo
    {
      var c :| c in todo;
      var t := clients[c].tx;
      assert t in TxsOf(clients);
      var _ := t.Send(Some(msgs[c]));
      todo := todo - {c};
    }
  }

  /** Sends every client of the room its own view. */
  method Broadcast(room: Room)
    requires RoomOk(room)
    modifies TxsOf(room.clients)`value
    ensures Viewable(room)
    ensures Notified(room)
    ensures ClosedKept(room)
  {
    RoomViewable(room);
    var msgs := map c | c in room.clients :: Notification(room, c);
    SendAll(room.clients, msgs);
  }

  /** The invariant of the server state: every room keeps RoomOk and uses ids below the counter,
      which starts at 1. */
  ghost predicate ServerOk(rooms: map<RoomId, Room>, next: nat) {
    && next >= 1
    && forall r :: r in rooms ==>
      RoomOk(rooms[r]) && forall c :: c in rooms[r].clients ==> 1 <= c < next
  }

  /** Storing a room that keeps the invariant, with ids below the new counter, keeps the server
      invariant when the counter only grows. */
  lemma ServerOkStore(rooms: map<RoomId, Room>, next: nat, next': nat, roomId: RoomId, room: Room)
    requires ServerOk(rooms, next) && next <= next'
    requires RoomOk(room) && forall c :: c in room.clients ==> 1 <= c < next'
    ensures ServerOk(rooms[roomId := room], next')
  {
  }

  /** The ids of a stored room, or of the empty room, are below the counter. */
  lemma RoomIdsBelow(rooms: map<RoomId, Room>, next: nat, roomId: RoomId)
    requires ServerOk(rooms, next)
    ensures var room := if roomId in rooms then rooms[roomId] else EmptyRoom;
      forall c :: c in room.clients ==> 1 <= c < next
  {
  }

  /** The server: the rooms and the counter for client ids. */
  class RpsState {
    var rooms: map<RoomId, Room>
    var nextClientId: nat

    /** Every room keeps its invariant and every client id in use was handed out already. */
    ghost predicate Valid()
      reads this
    {
      ServerOk(rooms, nextClientId)
    }

    /** RpsState::new. */
    constructor ()
      ensures rooms == map[] && nextClientId == 1
      ensures Valid()
    {
      rooms := map[];
      nextClientId := 1;
    }

    /** get_new_client_id: hands out the counter and advances it, so ids go 1, 2, 3, ... and never
        repeat. */
    method GetNewClientId() returns (id: ClientId)
      requires Valid()
      modifies this`nextClientId
      ensures id == old(nextClientId) && nextClientId == id + 1
      ensures Valid()
      ensures forall r, c :: r in rooms && c in rooms[r].clients ==> c < id
    {
      id := nextClientId;
      nextClientId := nextClientId + 1;
    }

    /** The channels of one room, if it exists. */
    ghost function RoomTxs(roomId: RoomId): set<Tx>
      reads this
    {
      if roomId in rooms then TxsOf(rooms[roomId].clients) else {}
    }

    /** broadcast_state: every client of the room is sent its own view. */
    method BroadcastState(roomId: RoomId)
      requires roomId in rooms && RoomOk(rooms[roomId])
      modifies RoomTxs(roomId)`value
      ensures Viewable(rooms[roomId])
      ensures Notified(rooms[roomId])
      ensures ClosedKept(rooms[roomId])
    {
      Broadcast(rooms[roomId]);
    }

    /** The room under roomId, or the empty room or_default would insert. */
    function RoomOrEmpty(roomId: RoomId): Room
      reads this
    {
      if roomId in rooms then rooms[roomId] else EmptyRoom
    }

    /** The join block of a connection: a fresh channel and id, the client added to the room
        (created on demand), then a broadcast to the room. */
    method Join(roomId: RoomId) returns (clientId: ClientId, tx: Tx)
      requires Valid()
      modifies this`rooms, this`nextClientId, RoomTxs(roomId)`value
      ensures Valid() && fresh(tx)
      ensures clientId == old(nextClientId) && nextClientId == clientId + 1
      ensures clientId !in old(RoomOrEmpty(roomId)).clients
      ensures rooms == old(rooms)[roomId := JoinRoom(old(RoomOrEmpty(roomId)), clientId, tx)]
      ensures Viewable(rooms[roomId]) && Notified(rooms[roomId])
      ensures !tx.closed && tx.value == Some(Notification(rooms[roomId], clientId))
    {
      clientId, tx := AddClient(roomId);
      BroadcastState(roomId);
    }

    /** The state change of the join block. */
    method AddClient(roomId: RoomId) returns (clientId: ClientId, tx: Tx)
      requires Valid()
      modifies this`rooms, this`nextClientId
      ensures Valid() && fresh(tx) && !tx.closed
      ensures clientId == old(nextClientId) && nextClientId == clientId + 1
      ensures clientId !in old(RoomOrEmpty(roomId)).clients
      ensures rooms == old(rooms)[roomId := JoinRoom(old(RoomOrEmpty(roomId)), clientId, tx)]
      ensures RoomTxs(roomId) == old(RoomTxs(roomId)) + {tx}
      ensures rooms[roomId].clients == old(RoomOrEmpty(roomId)).clients[clientId := ClientInfo(tx)]
    {
      tx := new Watch.Sender(None);
      var before := RoomOrEmpty(roomId);
      RoomIdsBelow(rooms, nextClientId, roomId);
      clientId := GetNewClientId();
      TxsFresh(before.clients, tx);
      JoinKeepsRoomOk(before, clientId, tx);
      var after := JoinRoom(before, clientId, tx);
      ServerOkStore(rooms, nextClientId, nextClientId, roomId, after);
      rooms := rooms[roomId := after];
    }

    /** The choice command of a connection: ignored unless the client is a player of the room;
        otherwise the choice is recorded (completing a round when both players have chosen) and
        the room is sent its new state. */
    method Choose(roomId: RoomId, clientId: ClientId, choice: Choice)
      requires Valid() && roomId in rooms
      modifies this`rooms, RoomTxs(roomId)`value
      ensures Valid()
      ensures clientId !in old(rooms[roomId].players) ==> rooms == old(rooms) && unchanged(old(RoomTxs(roomId)))
      ensures clientId in old(rooms[roomId].players) ==>
        && rooms == old(rooms)[roomId := ChooseRoom(old(rooms[roomId]), clientId, choice)]
        && Viewable(rooms[roomId]) && Notified(rooms[roomId]) && ClosedKept(rooms[roomId])
    {
      var isPlayer := ApplyChoice(roomId, clientId, choice);
      if isPlayer {
        BroadcastState(roomId);
      }
    }

    /** The state change of the choice command. */
    method ApplyChoice(roomId: RoomId, clientId: ClientId, choice: Choice) returns (isPlayer: bool)
      requires Valid() && roomId in rooms
      modifies this`rooms
      ensures Valid()
      ensures isPlayer == (clientId in old(rooms[roomId].players))
      ensures rooms == if isPlayer then old(rooms)[roomId := ChooseRoom(old(rooms[roomId]), clientId, choice)] else old(rooms)
      ensures RoomTxs(roomId) == old(RoomTxs(roomId))
    {
      var room := rooms[roomId];
      if clientId !in room.players {
        return false;
      }
      var after := ChooseInRoom(room, clientId, choice);
      ChooseKeepsRoomOk(room, clientId, choice);
      ServerOkStore(rooms, nextClientId, nextClientId, roomId, after);
      rooms := rooms[roomId := after];
      return true;
    }

    /** The cleanup block of a connection: the client leaves the players and the clients; an
        empty room is dropped, any other is sent its new state. */
    method Leave(roomId: RoomId, clientId: ClientId)
      requires Valid() && roomId in rooms
      modifies this`rooms, RoomTxs(roomId)`value
      ensures Valid()
      ensures var after := LeaveRoom(old(rooms[roomId]), clientId);
        && (after.clients == map[] ==> rooms == old(rooms) - {roomId})
        && (after.clients != map[] ==>
          rooms == old(rooms)[roomId := after] && Viewable(rooms[roomId]) && Notified(rooms[roomId])
          && ClosedKept(rooms[roomId]))
    {
      ghost var after := LeaveRoom(rooms[roomId], clientId);
      var gone := RemoveClient(roomId, clientId);
      if !gone {
        assert rooms[roomId] == after;
        BroadcastState(roomId);
      }
    }

    /** The state change of the cleanup block. */
    method RemoveClient(roomId: RoomId, clientId: ClientId) returns (gone: bool)
      requires Valid() && roomId in rooms
      modifies this`rooms
      ensures Valid()
      ensures var after := LeaveRoom(old(rooms[roomId]), clientId);
        && gone == (after.clients == map[])
        && rooms == if gone then old(rooms) - {roomId} else old(rooms)[roomId := after]
      ensures RoomTxs(roomId) <= old(RoomTxs(roomId))
    {
      var room := rooms[roomId];
      var after := LeaveRoom(room, clientId);
      gone := after.clients == map[];
      if gone {
        ServerOkRemove(rooms, nextClientId, roomId);
        rooms := rooms - {roomId};
      } else {
        LeaveKeepsRoomOk(room, clientId);
        ServerOkStore(rooms, nextClientId, nextClientId, roomId, after);
        rooms := rooms[roomId := after];
      }
    }
  }

  /** Both players of a room have made their choice. */
  predicate AllChosen(players: map<ClientId, PlayerState>) {
    forall id :: id in players ==> players[id].choice.Some?
  }

  /** The round recorded once everyone has chosen: each player's choice. */
  function RoundOf(players: map<ClientId, PlayerState>): (round: Round)
    requires AllChosen(players)
    ensures round.Keys == players.Keys
    ensures forall id :: id in players ==> Some(round[id]) == players[id].choice
  {
    map id | id in players :: players[id].choice.value
  }

  /** The body of the choice command for a player of the room. */
  method ChooseInRoom(room: Room, clientId: ClientId, choice: Choice) returns (after: Room)
    ensures after == ChooseRoom(room, clientId, choice)
  {
    var players := room.players[clientId := PlayerState(Some(choice))];
    if |players| == 2 && AllChosen(players) {
      assert PendingPair(players);
      var round := RoundOf(players);
      var cleared := ClearChoices(players);
      assert cleared == map id | id in players :: PlayerState(None);
      after := room.(players := cleared, history := room.history + [round]);
      assert after == RecordRound(room, players);
    } else {
      after := room.(players := players);
    }
  }

  /** The loop that clears the choices of the players. */
  method ClearChoices(players: map<ClientId, PlayerState>) returns (cleared: map<ClientId, PlayerState>)
    ensures cleared.Keys == players.Keys
    ensures forall id :: id in cleared ==> cleared[id].choice == None
  {
    cleared := players;
    var todo := players.Keys;
    while todo != {}
      invariant todo <= players.Keys && cleared.Keys == players.Keys
      invariant forall id :: id in cleared && id !in todo ==> cleared[id].choice == None
      decreases todo
    {
      var id :| id in todo;
      cleared := cleared[id := PlayerState(None)];
      todo := todo - {id};
    }
  }

  /** A complete pair of choices that has not been recorded yet. */
  predicate PendingPair(players: map<ClientId, PlayerState>) {
    |players| == 2 && AllChosen(players)
  }

  /** The room after a player chooses: a pair of choices completes a round, which is appended to
      the history while every choice is cleared. */
  function ChooseRoom(room: Room, clientId: ClientId, choice: Choice): Room {
    var players := room.players[clientId := PlayerState(Some(choice))];
    if PendingPair(players) then RecordRound(room, players)
    else
      room.(players := players)
  }

  /** A completed pair is appended to the history and every choice cleared. */
  function RecordRound(room: Room, players: map<ClientId, PlayerState>): Room
    requires AllChosen(players)
  {
    room.(players := map id | id in players :: PlayerState(None), history := room.history + [RoundOf(players)])
  }

  /** Choosing keeps the room invariant, the clients and the set of players, and never leaves a
      complete pair of choices behind. */
  lemma ChooseKeepsRoomOk(room: Room, clientId: ClientId, choice: Choice)
    requires RoomOk(room) && clientId in room.players
    ensures var r := ChooseRoom(room, clientId, choice);
      && RoomOk(r)
      && r.clients == room.clients
      && r.players.Keys == room.players.Keys
      && !PendingPair(r.players)
  {
    var players := room.players[clientId := PlayerState(Some(choice))];
    assert players.Keys == room.players.Keys;
    if PendingPair(players) {
      RecordKeepsRoomOk(room, players);
    } else {
      assert PendingPair(players) == PendingPair(ChooseRoom(room, clientId, choice).players);
    }
  }

  lemma RecordKeepsRoomOk(room: Room, players: map<ClientId, PlayerState>)
    requires RoomOk(room) && players.Keys == room.players.Keys && PendingPair(players)
    ensures var r := RecordRound(room, players);
      RoomOk(r) && !PendingPair(r.players)
  {
    var r := RecordRound(room, players);
    var round := RoundOf(players);
    assert |round| == |round.Keys| == |players.Keys| == 2;
    var last := |room.history|;
    assert r.history[last] == round;
    assert forall k :: 0 <= k < last ==> r.history[k] == room.history[k];
    var some :| some in r.players;
    assert r.players[some].choice == None;
  }

  /** A choice records a round exactly when it completes the pair; the history before stays. */
  lemma ChooseHistory(room: Room, clientId: ClientId, choice: Choice)
    requires RoomOk(room) && clientId in room.players
    ensures var r := ChooseRoom(room, clientId, choice);
      var n := |room.history|;
      && |r.history| == (if PendingPair(room.players[clientId := PlayerState(Some(choice))]) then n + 1 else n)
      && r.history[..n] == room.history
  {
    var players := room.players[clientId := PlayerState(Some(choice))];
    if PendingPair(players) {
      RecordedRound(room, players);
    }
  }

  /** A choice that completes the pair records a round of the new choice and the other player's
      earlier one, then clears every choice. */
  lemma ChooseCompletes(room: Room, clientId: ClientId, choice: Choice)
    requires RoomOk(room) && clientId in room.players
    requires PendingPair(room.players[clientId := PlayerState(Some(choice))])
    ensures var r := ChooseRoom(room, clientId, choice);
      var n := |room.history|;
      && n < |r.history|
      && r.history[n].Keys == room.players.Keys
      && r.history[n][clientId] == choice
      && (forall id :: id in room.players && id != clientId ==> Some(r.history[n][id]) == room.players[id].choice)
      && (forall id :: id in r.players ==> r.players[id].choice == None)
  {
    var players := room.players[clientId := PlayerState(Some(choice))];
    RecordedRound(room, players);
    assert players[clientId].choice == Some(choice);
  }

  /** Any other choice only replaces the chooser's choice. */
  lemma ChooseWaits(room: Room, clientId: ClientId, choice: Choice)
    requires RoomOk(room) && clientId in room.players
    requires !PendingPair(room.players[clientId := PlayerState(Some(choice))])
    ensures var r := ChooseRoom(room, clientId, choice);
      && r.history == room.history
      && r.players[clientId].choice == Some(choice)
      && (forall id :: id in room.players && id != clientId ==> r.players[id] == room.players[id])
  {
  }

  lemma RecordedRound(room: Room, players: map<ClientId, PlayerState>)
    requires AllChosen(players)
    ensures var r := RecordRound(room, players);
      var n := |room.history|;
      && |r.history| == n + 1 && r.history[..n] == room.history && r.history[n] == RoundOf(players)
      && (forall id :: id in r.players ==> r.players[id].choice == None)
  {
    var r := RecordRound(room, players);
    assert r.history[..|room.history|] == room.history;
  }

  /** The room after a client leaves it. */
  function LeaveRoom(room: Room, clientId: ClientId): Room {
    room.(players := room.players - {clientId}, clients := room.clients - {clientId})
  }

  /** Leaving keeps the room invariant of a room that still has a client, and removes only
      channels. */
  lemma LeaveKeepsRoomOk(room: Room, clientId: ClientId)
    requires RoomOk(room) && LeaveRoom(room, clientId).clients != map[]
    ensures RoomOk(LeaveRoom(room, clientId))
    ensures TxsOf(LeaveRoom(room, clientId).clients) <= TxsOf(room.clients)
  {
    var r := LeaveRoom(room, clientId);
    assert r.players.Keys <= room.players.Keys;
    SubsetCard(r.players, room.players);
    forall t | t in TxsOf(r.clients) ensures t in TxsOf(room.clients) {
      var d :| d in r.clients && r.clients[d].tx == t;
      assert room.clients[d].tx == t;
    }
  }

  /** Dropping a room keeps the server invariant. */
  lemma ServerOkRemove(rooms: map<RoomId, Room>, next: nat, roomId: RoomId)
    requires ServerOk(rooms, next)
    ensures ServerOk(rooms - {roomId}, next)
  {
  }

  /** The room after a client joins it. */
  function JoinRoom(room: Room, clientId: ClientId, tx: Tx): Room {
    var r := room.(clients := room.clients[clientId := ClientInfo(tx)]);
    if |room.players| < 2 then r.(players := room.players[clientId := PlayerState(None)], history := []) else r
  }

  /** Joining keeps the room invariant (an empty room included), adds exactly the new channel and
      makes the newcomer a player exactly when a seat is free. */
  lemma JoinKeepsRoomOk(room: Room, clientId: ClientId, tx: Tx)
    requires room == EmptyRoom || RoomOk(room)
    requires clientId !in room.clients && tx !in TxsOf(room.clients)
    ensures var r := JoinRoom(room, clientId, tx);
      && RoomOk(r)
      && r.clients == room.clients[clientId := ClientInfo(tx)]
      && TxsOf(r.clients) == TxsOf(room.clients) + {tx}
      && (|room.players| < 2 ==> r.players == room.players[clientId := PlayerState(None)] && r.history == [])
      && (|room.players| >= 2 ==> r.players == room.players && r.history == room.history)
  {
    var r := JoinRoom(room, clientId, tx);
    assert clientId !in room.players;
    TxsInsert(room.clients, clientId, ClientInfo(tx));
    assert TxsDistinct(r.clients) by {
      forall a, b | a in r.clients && b in r.clients && a != b ensures r.clients[a].tx != r.clients[b].tx {
        if a != clientId && b != clientId {
        } else if a == clientId {
          assert room.clients[b].tx in TxsOf(room.clients);
        } else {
          assert room.clients[a].tx in TxsOf(room.clients);
        }
      }
    }
    assert |r.players| <= 2;
    assert r.players.Keys <= r.clients.Keys;
  }

  /** A client added under a fresh id adds its channel to the room's channels. */
  lemma TxsInsert(clients: map<ClientId, ClientInfo>, c: ClientId, info: ClientInfo)
    requires c !in clients
    ensures TxsOf(clients[c := info]) == TxsOf(clients) + {info.tx}
  {
    var after := clients[c := info];
    forall t | t in TxsOf(after) ensures t in TxsOf(clients) + {info.tx} {
      var d :| d in after && after[d].tx == t;
      if d != c {
        assert t in TxsOf(clients);
      }
    }
    forall t | t in TxsOf(clients) ensures t in TxsOf(after) {
      var d :| d in clients && clients[d].tx == t;
      assert after[d].tx == t;
    }
    assert info.tx in TxsOf(after) by {
      assert after[c].tx == info.tx;
    }
  }

  /** Channels already in a room are not a fresh one. */
  twostate lemma TxsFresh(clients: map<ClientId, ClientInfo>, new tx: Tx)
    requires fresh(tx)
    ensures tx !in TxsOf(clients)
  {
  }
}
