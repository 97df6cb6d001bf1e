/** The messages exchanged between the vote server and the browser. The tally and ballot item are
    the ones the tally engine uses: the server copies them field by field. */
module Api {
  import opened Wrappers
  import Condorcet

  type VoteItem = Condorcet.VoteItem
  type CondorcetTally = Condorcet.CondorcetTally

  datatype ClientStatus = Connected | InvalidRoom | InvalidUuid

  /** A finished vote: the tally and every ballot cast. */
  datatype VotingResults = VotingResults(tally: CondorcetTally, votes: seq<UserVote>)

  /** What one client sees of a room. */
  datatype VoteView = VoteView(
    choices: seq<string>,
    yourVote: Option<UserVote>,
    numVotes: nat,
    numPlayers: nat,
    results: Option<VotingResults>)

  /** The form that starts a vote: one choice per line. */
  datatype NewVoteForm = NewVoteForm(choices: string)

  /** A named ballot. */
  datatype UserVote = UserVote(name: string, selections: seq<VoteItem>)

  /** A request from a connected client. */
  datatype Command = Vote(vote: UserVote) | Tally

  datatype ClientNotification = ClientNotification(status: ClientStatus, vote: Option<VoteView>)
}
