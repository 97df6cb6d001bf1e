/** The ballot widget of the vote page: the ranking a voter edits (an order of the candidates and a
    `>` or `=` between each pair of neighbours), its conversion to and from ballot items, and the
    one-line description of a cast ballot. Component state updates are applied at once. */
module Client {
  import opened Wrappers
  import Condorcet
  import Api

  type VoteItem = Condorcet.VoteItem

  // ---- JavaScript arrays ----

  /** The exception `Array(len)` raises for a length that is not an array length. */
  datatype JsError = RangeError

  datatype Result<T> = Ok(value: T) | Err(error: JsError)

  /** The largest length of a JavaScript array, 2^32 - 1. */
  const MaxArrayLength: int := 0xFFFF_FFFF

  /** `Array(len).fill(x)`: len copies of x, or a RangeError when len is not an array length. */
  function FilledArray<T>(len: int, x: T): (r: Result<seq<T>>)
    ensures r.Ok? <==> 0 <= len <= MaxArrayLength
    ensures r.Ok? ==> |r.value| == len && forall i :: 0 <= i < len ==> r.value[i] == x
  {
    if 0 <= len <= MaxArrayLength then Ok(seq(len, _ => x)) else Err(RangeError)
  }

  /** The initial `gt` as the constructor computes it: `Array(n - 1).fill(true)`. */
  function InitialGtAsWritten(n: nat): Result<seq<bool>> {
    FilledArray(n - 1, true)
  }

  /** A vote without choices makes the constructor throw. */
  lemma NoChoicesThrows()
    ensures InitialGtAsWritten(0) == Err(RangeError)
  {
  }

  /** The initial `gt`: a `>` between each pair of neighbours, and none when there is no choice. */
  function InitialGt(n: nat): (gt: seq<bool>)
    ensures |gt| == if n == 0 then 0 else n - 1
    ensures forall i :: 0 <= i < |gt| ==> gt[i]
  {
    seq(if n == 0 then 0 else n - 1, _ => true)
  }

  /** Wherever the constructor does not throw, the corrected initial `gt` is what it computes. */
  lemma InitialGtAgrees(n: nat)
    requires 1 <= n <= MaxArrayLength + 1
    ensures InitialGtAsWritten(n) == Ok(InitialGt(n))
  {
    var r := InitialGtAsWritten(n);
    assert r.Ok?;
    assert r.value == InitialGt(n);
  }

  /** The initial order: sorted position i shows choice i. */
  function Upto(n: nat): (order: seq<nat>)
    ensures |order| == n && forall i :: 0 <= i < n ==> order[i] == i
  {
    seq(n, i => i)
  }

  // ---- ranking and ballots ----

  /** swap: a copy of the order with positions i and j exchanged. */
  function Swapped(order: seq<nat>, i: nat, j: nat): (r: seq<nat>)
    requires i < |order| && j < |order|
    ensures |r| == |order| && r[i] == order[j] && r[j] == order[i]
    ensures forall k :: 0 <= k < |order| && k != i && k != j ==> r[k] == order[k]
    ensures multiset(r) == multiset(order)
  {
    var tmp := order[j];
    var r := order[j := order[i]][i := tmp];
    assert r == order[i := order[j]][j := order[i]] || i == j;
    r
  }

  /** The rank get_selections gives position i: how many `>` come before it (a `gt` entry past the
      end, which JavaScript reads as undefined, counts as `=`). */
  function RankAt(gt: seq<bool>, i: nat): nat {
    if i == 0 then 0 else RankAt(gt, i - 1) + (if i - 1 < |gt| && gt[i - 1] then 1 else 0)
  }

  lemma {:induction false} RankAtMonotone(gt: seq<bool>, i: nat, j: nat)
    requires i <= j
    ensures RankAt(gt, i) <= RankAt(gt, j)
    decreases j
  {
    if i < j {
      RankAtMonotone(gt, i, j - 1);
    }
  }

  /** The ballot of a ranking: one item per position, in order. */
  function Selections(order: seq<nat>, gt: seq<bool>): (items: seq<VoteItem>)
    ensures |items| == |order|
    ensures forall i :: 0 <= i < |order| ==> items[i] == Condorcet.VoteItem(order[i], RankAt(gt, i))
  {
    seq(|order|, i requires 0 <= i < |order| => Condorcet.VoteItem(order[i], RankAt(gt, i)))
  }

  lemma RankAtStep(gt: seq<bool>, i: nat)
    ensures RankAt(gt, i + 1) == RankAt(gt, i) + (if i < |gt| && gt[i] then 1 else 0)
  {
  }

  /** Ranks start at 0 and grow by exactly one after each `>`. */
  lemma SelectionsRanks(order: seq<nat>, gt: seq<bool>)
    ensures var items := Selections(order, gt);
      && (|items| > 0 ==> items[0].rank == 0)
      && (forall i :: 0 <= i < |items| - 1 ==>
            items[i + 1].rank == items[i].rank + (if i < |gt| && gt[i] then 1 else 0))
  {
    var items := Selections(order, gt);
    forall i | 0 <= i < |items| - 1
      ensures items[i + 1].rank == items[i].rank + (if i < |gt| && gt[i] then 1 else 0)
    {
      RankAtStep(gt, i);
    }
  }

  /** So the ballot of a ranking is sorted by rank. */
  lemma SelectionsSorted(order: seq<nat>, gt: seq<bool>)
    ensures Condorcet.SortedByRank(Selections(order, gt))
  {
    var items := Selections(order, gt);
    forall i, j | 0 <= i < j < |items| ensures items[i].rank <= items[j].rank {
      RankAtMonotone(gt, i, j);
    }
  }

  /** The candidates of a ballot, in order. */
  function Candidates(items: seq<VoteItem>): (cs: seq<nat>)
    ensures |cs| == |items| && forall i :: 0 <= i < |items| ==> cs[i] == items[i].candidate
  {
    seq(|items|, i requires 0 <= i < |items| => items[i].candidate)
  }

  /** Between each pair of neighbours of a sorted ballot: `>` when the rank grows. */
  function Steps(items: seq<VoteItem>): (gt: seq<bool>)
    ensures |gt| == if items == [] then 0 else |items| - 1
    ensures forall i :: 0 <= i < |gt| ==> gt[i] == (items[i + 1].rank > items[i].rank)
  {
    seq(if items == [] then 0 else |items| - 1, i requires 0 <= i < |items| - 1 => items[i + 1].rank > items[i].rank)
  }

  /** The widget state: the order of the choices, the `>`/`=` between neighbours and the position
      picked up by a click or a drag. */
  class Choices {
    var order: seq<nat>
    var gt: seq<bool>
    var selected: Option<nat>

    /** One `>`/`=` per pair of neighbours, and a selection inside the order. */
    ghost predicate Valid()
      reads this
    {
      && |gt| == (if order == [] then 0 else |order| - 1)
      && (selected.Some? ==> selected.value < |order|)
    }

    /** The constructor: every choice in its own order, all `>`, nothing selected, then the
        voter's earlier ballot if there is one. */
    constructor (numChoices: nat, initialRanks: seq<VoteItem>)
      ensures Valid() && selected == None
      ensures initialRanks == [] ==> order == Upto(numChoices) && gt == InitialGt(numChoices)
      ensures initialRanks != [] ==>
        var sorted := Condorcet.SortByRank(initialRanks);
        order == Candidates(sorted) && gt == Steps(sorted)
    {
      order := Upto(numChoices);
      gt := InitialGt(numChoices);
      selected := None;
      new;
      SetSelections(initialRanks);
    }

    /** onChoiceClick: the first click selects a position, the second swaps it with the clicked
        one and clears the selection. */
    method OnChoiceClick(i: nat)
      requires Valid() && i < |order|
      modifies this`order, this`selected
      ensures Valid()
      ensures old(selected) == None ==> selected == Some(i) && order == old(order)
      ensures old(selected).Some? ==> selected == None && order == Swapped(old(order), i, old(selected).value)
    {
      if selected == None {
        selected := Some(i);
      } else {
        order := Swapped(order, i, selected.value);
        selected := None;
      }
    }

    /** onRankClick: flips the `>`/`=` after position i and nothing else. */
    method OnRankClick(i: nat)
      requires Valid() && i < |gt|
      modifies this`gt
      ensures Valid()
      ensures |gt| == |old(gt)| && gt[i] == !old(gt[i])
      ensures forall k :: 0 <= k < |gt| && k != i ==> gt[k] == old(gt[k])
    {
      gt := gt[i := !gt[i]];
    }

    /** onDragStart: the dragged position becomes the selection. */
    method OnDragStart(i: nat)
      requires Valid() && i < |order|
      modifies this`selected
      ensures Valid() && selected == Some(i)
    {
      selected := Some(i);
    }

    /** onDragEnter: the dragged choice is swapped into the entered position, which it now holds. */
    method OnDragEnter(i: nat)
      requires Valid() && i < |order| && selected.Some?
      modifies this`order, this`selected
      ensures Valid()
      ensures order == Swapped(old(order), i, old(selected).value) && selected == Some(i)
    {
      order := Swapped(order, i, selected.value);
      selected := Some(i);
    }

    /** get_selections: the ballot of the current ranking. */
    method GetSelections() returns (items: seq<VoteItem>)
      ensures items == Selections(order, gt)
    {
      items := [];
      var rank := 0;
      var i := 0;
      while i < |order|
        invariant 0 <= i <= |order|
        invariant rank == RankAt(gt, i)
        invariant |items| == i
        invariant forall k {:trigger items[k]} :: 0 <= k < i ==> items[k] == Condorcet.VoteItem(order[k], RankAt(gt, k))
      {
        ghost var prev := items;
        items := items + [Condorcet.VoteItem(order[i], rank)];
        assert forall k :: 0 <= k < i ==> items[k] == prev[k];
        RankAtStep(gt, i);
        if i < |gt| && gt[i] {
          rank := rank + 1;
        }
        i := i + 1;
      }
    }

    /** set_selections: an empty ballot changes nothing; any other is sorted by rank (stably) and
        becomes the order, with `>` wherever the rank grows. */
    method SetSelections(items: seq<VoteItem>)
      modifies this`order, this`gt
      ensures items == [] ==> order == old(order) && gt == old(gt)
      ensures items != [] ==>
        var sorted := Condorcet.SortByRank(items);
        order == Candidates(sorted) && gt == Steps(sorted)
    {
      if |items| == 0 {
        return;
      }
      var sorted := Condorcet.SortByRank(items);
      var steps := [];
      var i := 1;
      while i < |sorted|
        invariant 1 <= i <= |sorted|
        invariant |steps| == i - 1
        invariant forall k :: 0 <= k < i - 1 ==> steps[k] == (sorted[k + 1].rank > sorted[k].rank)
      {
        steps := steps + [sorted[i].rank > sorted[i - 1].rank];
        i := i + 1;
      }
      order := Candidates(sorted);
      gt := steps;
    }
  }

  /** Loading a ballot and reading it back gives its candidates in rank order, the same `>`/`=`
      pattern between neighbours, and ranks renumbered densely from 0. */
  lemma GetAfterSet(items: seq<VoteItem>)
    requires items != []
    ensures var sorted := Condorcet.SortByRank(items);
      var got := Selections(Candidates(sorted), Steps(sorted));
      && Candidates(got) == Candidates(sorted)
      && got[0].rank == 0
      && forall i :: 0 <= i < |got| - 1 ==>
        && (got[i + 1].rank > got[i].rank <==> sorted[i + 1].rank > sorted[i].rank)
        && got[i + 1].rank <= got[i].rank + 1
  {
    var sorted := Condorcet.SortByRank(items);
    assert |sorted| == |items| by {
      assert |multiset(sorted)| == |multiset(items)|;
    }
    SelectionsRanks(Candidates(sorted), Steps(sorted));
  }

  /** A ballot that is already sorted by rank (as every ballot the widget builds is) keeps its
      order when loaded. */
  lemma SetKeepsSortedOrder(items: seq<VoteItem>)
    requires Condorcet.SortedByRank(items)
    ensures Candidates(Condorcet.SortByRank(items)) == Candidates(items)
  {
    Condorcet.SortByRankOfSorted(items);
  }

  /** Reading the ballot of a ranking and loading it back restores the ranking. */
  lemma SetAfterGet(order: seq<nat>, gt: seq<bool>)
    requires order != [] && |gt| == |order| - 1
    ensures var sorted := Condorcet.SortByRank(Selections(order, gt));
      Candidates(sorted) == order && Steps(sorted) == gt
  {
    var items := Selections(order, gt);
    SelectionsSorted(order, gt);
    Condorcet.SortByRankOfSorted(items);
    assert Candidates(items) == order;
    forall i | 0 <= i < |gt| ensures Steps(items)[i] == gt[i] {
      RankAtStep(gt, i);
    }
    assert Steps(items) == gt;
  }

  // ---- describing a ballot ----

  /** The label of a candidate; an index outside the choices prints as JavaScript's undefined. */
  function Label(choices: seq<string>, c: nat): string {
    if c < |choices| then choices[c] else "undefined"
  }

  /** What describe_vote puts between two neighbours of a ballot. */
  function Separator(prev: VoteItem, next: VoteItem): string {
    if next.rank != prev.rank then " > " else " = "
  }

  /** The labels of a ballot, joined by the separators. */
  function Phrase(choices: seq<string>, sel: seq<VoteItem>): string
    decreases |sel|
  {
    if |sel| == 0 then ""
    else if |sel| == 1 then Label(choices, sel[0].candidate)
    else Label(choices, sel[0].candidate) + Separator(sel[0], sel[1]) + Phrase(choices, sel[1..])
  }

  lemma {:induction false} PhraseSnoc(choices: seq<string>, sel: seq<VoteItem>, x: VoteItem)
    requires sel != []
    ensures Phrase(choices, sel + [x]) == Phrase(choices, sel) + Separator(sel[|sel| - 1], x) + Label(choices, x.candidate)
    decreases |sel|
  {
    if |sel| == 1 {
      assert sel + [x] == [sel[0], x];
      assert (sel + [x])[1..] == [x];
    } else {
      assert (sel + [x])[1..] == sel[1..] + [x];
      PhraseSnoc(choices, sel[1..], x);
    }
  }

  /** describe_vote: the voter's name, then the labels of the ballot in order with `>` between
      neighbours of different rank and `=` between neighbours of equal rank. */
  method DescribeVote(choices: seq<string>, vote: Api.UserVote) returns (s: string)
    ensures s == vote.name + ": " + Phrase(choices, vote.selections)
  {
    var sel := vote.selections;
    s := vote.name + ": ";
    var j := 0;
    while j < |sel|
      invariant 0 <= j <= |sel|
      invariant s == vote.name + ": " + Phrase(choices, sel[..j])
    {
      assert sel[..j + 1] == sel[..j] + [sel[j]];
      if j != 0 {
        PhraseSnoc(choices, sel[..j], sel[j]);
        s := s + Separator(sel[j - 1], sel[j]);
      }
      s := s + Label(choices, sel[j].candidate);
      j := j + 1;
    }
    assert sel[..|sel|] == sel;
  }

  /** In the description of a ballot the widget built, each separator is the widget's own `>`/`=`
      button between those two positions. */
  lemma DescribedAsRanked(order: seq<nat>, gt: seq<bool>, i: nat)
    requires i + 1 < |order| && |gt| == |order| - 1
    ensures var items := Selections(order, gt);
      Separator(items[i], items[i + 1]) == if gt[i] then " > " else " = "
  {
    SelectionsRanks(order, gt);
  }
}
