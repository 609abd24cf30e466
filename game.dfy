// The round of src/SumoryGame.tsx, lifted out of the React component. The
// props `values` and `turns` are constants; the state `selectedCards`, the
// ref `revealedCounter`, the state `revealedCount`, the state `gameOver` and
// whether the reveal interval is running are fields. `Click` is
// `handleCardClicked` followed by the effect that React runs when the
// selection changes; `Tick` is one run of the interval body.
module Game {
  import opened Common
  import opened SeqMath

  // ---------------------------------------------------------------------
  // Pure helpers of the component

  /** `turnsLeft(selection)`: none is left exactly when as many cards were
      picked as there are turns. */
  function TurnsLeft(turns: int, selection: seq<int>): (r: int)
    ensures r == 0 <==> |selection| == turns
    ensures |selection| <= turns ==> 0 <= r <= turns
  {
    turns - |selection|
  }

  predicate IsCardIndex(values: seq<int>, selection: seq<int>)
  {
    forall k :: 0 <= k < |selection| ==> 0 <= selection[k] < |values|
  }

  /** The values of the selected cards, in the order they were picked. */
  function Picked(values: seq<int>, selection: seq<int>): (vs: seq<int>)
    requires IsCardIndex(values, selection)
    ensures |vs| == |selection|
  {
    seq(|selection|, k requires 0 <= k < |selection| => values[selection[k]])
  }

  /** `sum(selection)`: `reduce` over the selected card ids, looking each
      value up; it is the sum of the picked values, a card picked twice
      counting twice. */
  function SelectionSum(values: seq<int>, selection: seq<int>): (r: int)
    requires IsCardIndex(values, selection)
    ensures r == Sum(Picked(values, selection))
  {
    if selection == [] then 0
    else
      var n := |selection| - 1;
      assert Picked(values, selection)[..n] == Picked(values, selection[..n]);
      SelectionSum(values, selection[..n]) + values[selection[n]]
  }

  /** `timesSelected` of card i: the multiplicity of i in the selection. */
  function TimesSelected(selection: seq<int>, i: int): (r: nat)
    ensures r == multiset(selection)[i]
    ensures r <= |selection|
  {
    if selection == [] then 0
    else
      var n := |selection| - 1;
      assert selection == selection[..n] + [selection[n]];
      TimesSelected(selection[..n], i) + if selection[n] == i then 1 else 0
  }

  /** Card i is face up when it was selected or revealed and the board is
      not resetting. */
  predicate Turned(selection: seq<int>, revealedCount: int, resetting: bool, i: int)
    ensures Turned(selection, revealedCount, resetting, i) <==>
      !resetting && (i in selection || i < revealedCount)
  {
    (TimesSelected(selection, i) > 0 || revealedCount > i) && !resetting
  }

  /** `values.findIndex((_, i) => i >= counter && !selection.includes(i))`,
      scanning from position `from`. */
  function FindUnturnedFrom(n: nat, selection: seq<int>, counter: int, from: nat): (r: int)
    requires from <= n
    ensures r == -1 || (from <= r < n && r >= counter && r !in selection)
    ensures r == -1 ==> forall j :: from <= j < n && j >= counter ==> j in selection
    ensures r != -1 ==> forall j :: from <= j < r && j >= counter ==> j in selection
    decreases n - from
  {
    if from == n then -1
    else if from >= counter && from !in selection then from
    else FindUnturnedFrom(n, selection, counter, from + 1)
  }

  /** The lowest card at or above `counter` that is not selected, or -1 when
      there is none. */
  function FindUnturned(n: nat, selection: seq<int>, counter: int): (r: int)
    ensures r == -1 || (0 <= r < n && r >= counter && r !in selection)
    ensures r == -1 <==> forall j :: 0 <= j < n && j >= counter ==> j in selection
    ensures r != -1 ==> forall j :: 0 <= j < r && j >= counter ==> j in selection
  {
    FindUnturnedFrom(n, selection, counter, 0)
  }

  /** The number of cards at or above c that are not selected: what the
      interval still has to reveal. */
  function UnturnedFrom(n: nat, selection: seq<int>, c: nat): nat
    decreases n - c
  {
    if c >= n then 0
    else (if c in selection then 0 else 1) + UnturnedFrom(n, selection, c + 1)
  }

  datatype Update = Update(sum: int, turnsLeft: int)

  datatype TickEvent = Revealed(index: int) | GameOver

  // ---------------------------------------------------------------------
  // The round

  class SumoryGame {
    const values: seq<int>
    const turns: int
    var selectedCards: seq<int>
    var revealedCounter: int
    var revealedCount: int
    var gameOver: bool
    var intervalActive: bool

    predicate Valid()
      reads this
    {
      IsCardIndex(values, selectedCards)
      && (turns >= 0 ==> |selectedCards| <= turns)
      && 0 <= revealedCounter <= |values|
      && revealedCount == revealedCounter
      && (TurnsLeft(turns, selectedCards) != 0 ==> revealedCounter == 0 && !intervalActive && !gameOver)
      && (TurnsLeft(turns, selectedCards) == 0 ==> intervalActive != gameOver)
      && (gameOver ==> FindUnturned(|values|, selectedCards, revealedCounter) == -1)
    }

    /** Mounting the component: empty state, then the effect, which starts
        the reveal interval at once when there are no turns. */
    constructor(values: seq<int>, turns: int)
      ensures Valid()
      ensures this.values == values && this.turns == turns
      ensures selectedCards == [] && revealedCounter == 0 && revealedCount == 0
      ensures !gameOver && intervalActive == (turns == 0)
    {
      this.values := values;
      this.turns := turns;
      selectedCards := [];
      revealedCounter := 0;
      revealedCount := 0;
      gameOver := false;
      intervalActive := turns == 0;
    }

    /** The effect of SumoryGame.tsx:24-43 after a change of the selection:
        the old interval is cleared; a new one starts when no turn is left,
        otherwise the reveal counter goes back to 0. */
    method SelectionChanged()
      requires !gameOver
      modifies this
      ensures selectedCards == old(selectedCards) && revealedCount == old(revealedCount)
      ensures !gameOver
      ensures intervalActive == (TurnsLeft(turns, selectedCards) == 0)
      ensures revealedCounter == if TurnsLeft(turns, selectedCards) == 0 then old(revealedCounter) else 0
    {
      if TurnsLeft(turns, selectedCards) == 0 {
        intervalActive := true;
      } else {
        intervalActive := false;
        revealedCounter := 0;
      }
    }

    /** `handleCardClicked(i)` (SumoryGame.tsx:53-61): while turns remain the
        card is appended, even if already selected, and the new sum and
        turns left are reported; otherwise nothing happens. */
    method Click(i: int) returns (update: Option<Update>)
      requires Valid() && 0 <= i < |values|
      modifies this
      ensures Valid()
      ensures old(TurnsLeft(turns, selectedCards)) == 0 ==> update == None && unchanged(this)
      ensures old(TurnsLeft(turns, selectedCards)) != 0 ==>
        && selectedCards == old(selectedCards) + [i]
        && update == Some(Update(SelectionSum(values, selectedCards), TurnsLeft(turns, selectedCards)))
        && SelectionSum(values, selectedCards) == old(SelectionSum(values, selectedCards)) + values[i]
        && TurnsLeft(turns, selectedCards) == old(TurnsLeft(turns, selectedCards)) - 1
        && revealedCounter == 0 && revealedCount == 0 && !gameOver
        && intervalActive == (TurnsLeft(turns, selectedCards) == 0)
    {
      if TurnsLeft(turns, selectedCards) != 0 {
        var newSelection := selectedCards + [i];
        assert newSelection[..|newSelection| - 1] == selectedCards;
        selectedCards := newSelection;
        update := Some(Update(SelectionSum(values, newSelection), TurnsLeft(turns, newSelection)));
        SelectionChanged();
      } else {
        update := None;
      }
    }

    /** One run of the interval body (SumoryGame.tsx:27-38): reveal the
        lowest unselected card at or above the counter, or, when there is
        none, stop the interval and end the game. */
    method Tick() returns (event: TickEvent)
      requires Valid() && intervalActive
      modifies this
      ensures Valid()
      ensures selectedCards == old(selectedCards)
      ensures event == if FindUnturned(|values|, selectedCards, old(revealedCounter)) == -1 then GameOver
                       else Revealed(FindUnturned(|values|, selectedCards, old(revealedCounter)))
      ensures event.Revealed? ==>
        && old(revealedCounter) <= event.index < |values|
        && event.index !in selectedCards
        && revealedCounter == event.index + 1 && revealedCount == revealedCounter
        && intervalActive && !gameOver
        && UnturnedFrom(|values|, selectedCards, revealedCounter)
           == old(UnturnedFrom(|values|, selectedCards, revealedCounter)) - 1
      ensures event.GameOver? ==>
        && gameOver && !intervalActive
        && revealedCounter == old(revealedCounter) && revealedCount == old(revealedCount)
        && forall c :: 0 <= c < |values| ==> Turned(selectedCards, revealedCount, false, c)
    {
      var lowestCardUnturned := FindUnturned(|values|, selectedCards, revealedCounter);
      if lowestCardUnturned != -1 {
        RevealStep(|values|, selectedCards, revealedCounter);
        revealedCounter := lowestCardUnturned + 1;
        revealedCount := revealedCounter;
        event := Revealed(lowestCardUnturned);
      } else {
        AllTurnedWhenNoneLeft(|values|, selectedCards, revealedCounter);
        intervalActive := false;
        gameOver := true;
        event := GameOver;
      }
    }

    /** The interval firing until it clears itself (the delay between firings
        is not modelled). Every reveal removes one card from those still to
        reveal, so the game is over after at most N + 1 ticks, with every
        card face up. */
    method RunInterval() returns (ticks: nat)
      requires Valid() && intervalActive
      modifies this
      ensures Valid() && gameOver && !intervalActive
      ensures selectedCards == old(selectedCards)
      ensures ticks <= |values| - old(revealedCounter) + 1
      ensures forall c :: 0 <= c < |values| ==> Turned(selectedCards, revealedCount, false, c)
    {
      ticks := 0;
      UnturnedBound(|values|, selectedCards, revealedCounter);
      while intervalActive
        invariant Valid() && selectedCards == old(selectedCards)
        invariant intervalActive != gameOver
        invariant intervalActive ==>
          ticks + UnturnedFrom(|values|, selectedCards, revealedCounter) <= |values| - old(revealedCounter)
        invariant gameOver ==> ticks <= |values| - old(revealedCounter) + 1
        invariant gameOver ==> forall c :: 0 <= c < |values| ==> Turned(selectedCards, revealedCount, false, c)
        decreases UnturnedFrom(|values|, selectedCards, revealedCounter), intervalActive
      {
        var event := Tick();
        ticks := ticks + 1;
      }
    }
  }

  // ---------------------------------------------------------------------
  // Properties of the helpers

  /** A card counts as selected exactly when it occurs in the selection. */
  lemma {:induction false} TimesSelectedPositive(selection: seq<int>, i: int)
    ensures TimesSelected(selection, i) > 0 <==> i in selection
  {
    if selection != [] {
      var n := |selection| - 1;
      TimesSelectedPositive(selection[..n], i);
      assert selection == selection[..n] + [selection[n]];
    }
  }

  /** Card i, weighted by how often it was picked: the sum of
      TimesSelected(selection, c) * values[c] over the cards c < n. */
  function CountWeightedSum(values: seq<int>, selection: seq<int>, n: nat): int
    requires n <= |values|
  {
    if n == 0 then 0
    else CountWeightedSum(values, selection, n - 1) + TimesSelected(selection, n - 1) * values[n - 1]
  }

  lemma {:induction false} CountWeightedAppend(values: seq<int>, selection: seq<int>, c: int, n: nat)
    requires n <= |values|
    ensures CountWeightedSum(values, selection + [c], n)
      == CountWeightedSum(values, selection, n) + if 0 <= c < n then values[c] else 0
  {
    if n > 0 {
      CountWeightedAppend(values, selection, c, n - 1);
      var s := selection + [c];
      assert s[..|s| - 1] == selection;
      var t := TimesSelected(selection, n - 1);
      SplitFactor(t, 1, values[n - 1]);
    }
  }

  /** The score is the sum over the cards of value times picks: a card
      picked k times contributes k times its value. */
  lemma {:induction false} SelectionSumByCounts(values: seq<int>, selection: seq<int>)
    requires IsCardIndex(values, selection)
    ensures SelectionSum(values, selection) == CountWeightedSum(values, selection, |values|)
  {
    if selection != [] {
      var n := |selection| - 1;
      var p := selection[..n];
      SelectionSumByCounts(values, p);
      assert selection == p + [selection[n]];
      CountWeightedAppend(values, p, selection[n], |values|);
    } else {
      CountWeightedEmpty(values, |values|);
    }
  }

  lemma {:induction false} CountWeightedEmpty(values: seq<int>, n: nat)
    requires n <= |values|
    ensures CountWeightedSum(values, [], n) == 0
  {
    if n > 0 {
      CountWeightedEmpty(values, n - 1);
    }
  }

  /** The cards the interval still has to reveal are at most those at or
      above c. */
  lemma {:induction false} UnturnedBound(n: nat, selection: seq<int>, c: nat)
    ensures UnturnedFrom(n, selection, c) <= if c <= n then n - c else 0
    decreases n - c
  {
    if c < n {
      UnturnedBound(n, selection, c + 1);
    }
  }

  /** Skipping selected cards leaves the count unchanged. */
  lemma {:induction false} UnturnedSkip(n: nat, selection: seq<int>, a: nat, b: nat)
    requires a <= b <= n
    requires forall j :: a <= j < b ==> j in selection
    ensures UnturnedFrom(n, selection, a) == UnturnedFrom(n, selection, b)
    decreases b - a
  {
    if a < b {
      UnturnedSkip(n, selection, a + 1, b);
    }
  }

  /** A reveal removes exactly one card from those still to reveal. */
  lemma RevealStep(n: nat, selection: seq<int>, counter: nat)
    requires counter <= n && FindUnturned(n, selection, counter) != -1
    ensures UnturnedFrom(n, selection, FindUnturned(n, selection, counter) + 1)
      == UnturnedFrom(n, selection, counter) - 1
  {
    var r := FindUnturned(n, selection, counter);
    UnturnedSkip(n, selection, counter, r);
  }

  /** The interval ends exactly when no card is left to reveal. */
  lemma NoneLeftIff(n: nat, selection: seq<int>, counter: nat)
    requires counter <= n
    ensures FindUnturned(n, selection, counter) == -1 <==> UnturnedFrom(n, selection, counter) == 0
  {
    var r := FindUnturned(n, selection, counter);
    if r == -1 {
      UnturnedSkip(n, selection, counter, n);
    } else {
      UnturnedSkip(n, selection, counter, r);
    }
  }

  /** When the interval finds no card, every card is face up (the board not
      resetting): those below the counter were revealed, the others
      selected. */
  lemma AllTurnedWhenNoneLeft(n: nat, selection: seq<int>, counter: int)
    requires FindUnturned(n, selection, counter) == -1
    ensures forall c :: 0 <= c < n ==> Turned(selection, counter, false, c)
  {
    forall c | 0 <= c < n ensures Turned(selection, counter, false, c) {
      TimesSelectedPositive(selection, c);
    }
  }
}
