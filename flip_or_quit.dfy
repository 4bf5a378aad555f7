/**
 * The memory-card game `FlipOrQuit`: a deck of `n` cards, each with a type
 * (the picture on its face), a countdown, and the flip/match protocol.
 *
 * Cards are the indices `0..n-1`. The per-card CSS classes `visible` and
 * `matched` are two boolean arrays, the CSS `order` property an integer array.
 * Every timer callback of the browser is an explicit method that the event
 * loop calls later; the fields `pendingStarts`, `pendingUnhides`,
 * `liveIntervals` and `countDownLive` record which callbacks are queued.
 */
module Game {
  import opened Pairs

  datatype Option<T> = None | Some(value: T)

  /** What a click on a card did. */
  datatype FlipOutcome =
    | Threw                  // clicked before the first start: the guard reads the undefined matched list and throws
    | Rejected               // the guard refused the click
    | FirstCard              // the card became the pending first card of a pair
    | Matched(victory: bool) // second card of a pair, same type; `victory` when the whole deck is matched
    | Mismatched             // second card of a pair, other type

  class FlipOrQuit {
    const totalTime: int
    const n: nat
    /** The type of each card, the image source that `getCardType` reads. */
    const types: seq<string>
    /** The CSS classes of each card. */
    const visible: array<bool>
    const matched: array<bool>
    /** The CSS `order` property of each card. */
    const order: array<int>

    /** Whether `startGame` has run at least once (before that the session fields are undefined). */
    var started: bool
    var remainingTime: int
    var cardToCheck: Option<nat>
    var matchedCards: seq<nat>
    var busy: bool
    var flipsCounter: int

    /** Number of `setInterval` countdowns still running, whether or not `countDown` names them. */
    var liveIntervals: nat
    /** Whether the interval that `countDown` names is still running. */
    var countDownLive: bool
    /** Number of queued continuations of `startGame`. */
    var pendingStarts: nat
    /** Queued continuations of `cardsMisMatch`, oldest first, with the two cards each hides. */
    var pendingUnhides: seq<(nat, nat)>

    /** Everything but the relation between the pending card and the matched cards. */
    ghost predicate Consistent()
      reads this, visible, matched, order
    {
      && |types| == n && visible.Length == n && matched.Length == n && order.Length == n
      && visible != matched
      && PairsInvariant(matchedCards, n)
      && (forall k :: 0 <= k < n ==> (matched[k] <==> k in matchedCards))
      && OrdersInRange(order[..], n)
      && (cardToCheck.Some? ==> cardToCheck.value < n)
      && (countDownLive ==> liveIntervals > 0)
      && (forall k :: 0 <= k < |pendingUnhides| ==> pendingUnhides[k].0 < n && pendingUnhides[k].1 < n)
    }

    /** The object invariant: also, the pending card is never a matched one. */
    ghost predicate Valid()
      reads this, visible, matched, order
    {
      Consistent() && (cardToCheck.Some? ==> cardToCheck.value !in matchedCards)
    }

    constructor (totalTime: int, types: seq<string>)
      ensures Valid() && fresh(visible) && fresh(matched) && fresh(order)
      ensures this.totalTime == totalTime && this.types == types && n == |types|
      ensures !started && remainingTime == totalTime
      ensures liveIntervals == 0 && !countDownLive && pendingStarts == 0 && pendingUnhides == []
      ensures forall k :: 0 <= k < n ==> !visible[k] && !matched[k] && order[k] == 0
    {
      this.totalTime := totalTime;
      this.remainingTime := totalTime;
      this.n := |types|;
      this.types := types;
      visible := new bool[|types|](_ => false);
      matched := new bool[|types|](_ => false);
      order := new int[|types|](_ => 0);
      // placeholders: these fields stay undefined until startGame, and nothing reads them before
      started, cardToCheck, matchedCards, busy, flipsCounter := false, None, [], false, 0;
      liveIntervals, countDownLive, pendingStarts, pendingUnhides := 0, false, 0, [];
    }

    /** Resets the session, hides every card and queues the delayed start. */
    method StartGame()
      requires Valid()
      modifies this`started, this`remainingTime, this`cardToCheck, this`matchedCards, this`busy,
               this`flipsCounter, this`pendingStarts, visible, matched
      ensures Valid()
      ensures started && remainingTime == totalTime && cardToCheck == None && matchedCards == []
      ensures busy && flipsCounter == 0
      ensures pendingStarts == old(pendingStarts) + 1
      ensures forall k :: 0 <= k < n ==> !visible[k] && !matched[k]
    {
      started := true;
      remainingTime := totalTime;
      cardToCheck := None;
      matchedCards := [];
      busy := true;
      flipsCounter := 0;
      HideCards();
      pendingStarts := pendingStarts + 1;
    }

    /** The continuation `startGame` queues: shuffle, unlock the board, start the countdown. */
    method FinishStart(picks: seq<nat>)
      requires Valid() && pendingStarts > 0 && ValidPicks(picks, n)
      modifies this`busy, this`pendingStarts, this`liveIntervals, this`countDownLive, order
      ensures Valid()
      ensures order[..] == Shuffled(old(order[..]), picks, n - 1)
      ensures !busy && pendingStarts == old(pendingStarts) - 1
      ensures countDownLive && liveIntervals == old(liveIntervals) + 1
    {
      pendingStarts := pendingStarts - 1;
      ShuffleCards(picks);
      ShuffledInRange(old(order[..]), picks, n - 1);
      busy := false;
      StartTimer();
    }

    /** `countDown = startTimer()`: a new interval runs and `countDown` names it. */
    method StartTimer()
      modifies this`liveIntervals, this`countDownLive
      ensures countDownLive && liveIntervals == old(liveIntervals) + 1
    {
      liveIntervals := liveIntervals + 1;
      countDownLive := true;
    }

    /** One run of the interval callback: count down and end the game at zero. */
    method Tick() returns (gameOver: bool)
      requires Valid() && liveIntervals > 0
      modifies this`remainingTime, this`liveIntervals, this`countDownLive
      ensures Valid()
      ensures remainingTime == old(remainingTime) - 1
      ensures gameOver <==> remainingTime == 0
      ensures gameOver ==> !countDownLive && liveIntervals == old(liveIntervals) - (if old(countDownLive) then 1 else 0)
      ensures !gameOver ==> countDownLive == old(countDownLive) && liveIntervals == old(liveIntervals)
    {
      remainingTime := remainingTime - 1;
      gameOver := remainingTime == 0;
      if gameOver {
        GameOver();
      }
    }

    /** Removes both CSS classes from every card. */
    method HideCards()
      requires visible.Length == n && matched.Length == n
      modifies visible, matched
      ensures forall k :: 0 <= k < n ==> !visible[k] && !matched[k]
    {
      for k := 0 to n
        invariant forall j :: 0 <= j < k ==> !visible[j] && !matched[j]
      {
        matched[k] := false;
        visible[k] := false;
      }
    }

    /**
     * The shuffle loop, for `i` from `n - 1` down to 1 with `picks[i]` drawn
     * in `[0, i]`: card `i` gets order `picks[i]`, then card `picks[i]` gets order `i`.
     */
    method ShuffleCards(picks: seq<nat>)
      requires order.Length == n && ValidPicks(picks, n)
      modifies order
      ensures order[..] == Shuffled(old(order[..]), picks, n - 1)
    {
      var i: int := n - 1;
      while i > 0
        invariant -1 <= i < n
        invariant Shuffled(order[..], picks, i) == Shuffled(old(order[..]), picks, n - 1)
      {
        var randIdx := picks[i];
        ghost var before := order[..];
        order[i] := randIdx;
        order[randIdx] := i;
        assert order[..] == before[i := randIdx][randIdx := i];
        i := i - 1;
      }
    }

    /**
     * The guard of a click: not locked, not matched, not the pending card.
     * Under the invariant, "not matched" is the same as the card lacking the
     * `matched` class.
     */
    predicate CanFlipCard(c: nat): (r: bool)
      reads this, visible, matched, order
      ensures Valid() && c < n ==> (r <==> !busy && !matched[c] && cardToCheck != Some(c))
    {
      !busy && c !in matchedCards && cardToCheck != Some(c)
    }

    /** The click handler. */
    method FlipCard(c: nat) returns (outcome: FlipOutcome)
      requires Valid() && c < n
      modifies this`flipsCounter, this`cardToCheck, this`matchedCards, this`busy,
               this`liveIntervals, this`countDownLive, this`pendingUnhides, visible, matched
      ensures Valid()
      ensures outcome.Threw? <==> !old(started)
      ensures outcome.Rejected? <==> old(started) && !old(CanFlipCard(c))
      ensures outcome.FirstCard? <==> old(started) && old(CanFlipCard(c)) && old(cardToCheck).None?
      ensures outcome.Threw? || outcome.Rejected? ==> unchanged(this, visible, matched)
      // an accepted flip
      ensures !(outcome.Threw? || outcome.Rejected?) ==>
        && flipsCounter == old(flipsCounter) + 1
        && visible[..] == old(visible[..])[c := true]
      ensures outcome.FirstCard? ==>
        && cardToCheck == Some(c)
        && matchedCards == old(matchedCards) && matched[..] == old(matched[..])
        && busy == old(busy) && pendingUnhides == old(pendingUnhides)
        && liveIntervals == old(liveIntervals) && countDownLive == old(countDownLive)
      // the second card of a pair
      ensures outcome.Matched? || outcome.Mismatched? ==>
        && old(cardToCheck).Some? && cardToCheck == None
        && (outcome.Matched? <==> types[c] == types[old(cardToCheck).value])
      ensures outcome.Matched? ==>
        && matchedCards == old(matchedCards) + [c, old(cardToCheck).value]
        && matched[..] == old(matched[..])[c := true][old(cardToCheck).value := true]
        && busy == old(busy) && pendingUnhides == old(pendingUnhides)
        && (outcome.victory <==> |matchedCards| == n)
        && (outcome.victory ==> !countDownLive && liveIntervals == old(liveIntervals) - (if old(countDownLive) then 1 else 0))
        && (!outcome.victory ==> countDownLive == old(countDownLive) && liveIntervals == old(liveIntervals))
      ensures outcome.Mismatched? ==>
        && busy && pendingUnhides == old(pendingUnhides) + [(c, old(cardToCheck).value)]
        && matchedCards == old(matchedCards) && matched[..] == old(matched[..])
        && liveIntervals == old(liveIntervals) && countDownLive == old(countDownLive)
    {
      if !started {
        return Threw;
      }
      if !CanFlipCard(c) {
        return Rejected;
      }
      flipsCounter := flipsCounter + 1;
      visible[c] := true;
      if cardToCheck.None? {
        cardToCheck := Some(c);
        outcome := FirstCard;
      } else {
        outcome := CheckIfMatching(c);
      }
    }

    /** Compares the second card with the pending one, resolves the pair and clears the pending card. */
    method CheckIfMatching(c: nat) returns (outcome: FlipOutcome)
      requires Valid() && c < n && cardToCheck.Some? && cardToCheck.value != c && c !in matchedCards
      modifies this`cardToCheck, this`matchedCards, this`busy, this`liveIntervals, this`countDownLive,
               this`pendingUnhides, matched
      ensures Valid()
      ensures cardToCheck == None && (outcome.Matched? || outcome.Mismatched?)
      ensures outcome.Matched? <==> types[c] == types[old(cardToCheck).value]
      ensures outcome.Matched? ==>
        && matchedCards == old(matchedCards) + [c, old(cardToCheck).value]
        && matched[..] == old(matched[..])[c := true][old(cardToCheck).value := true]
        && busy == old(busy) && pendingUnhides == old(pendingUnhides)
        && (outcome.victory <==> |matchedCards| == n)
        && (outcome.victory ==> !countDownLive && liveIntervals == old(liveIntervals) - (if old(countDownLive) then 1 else 0))
        && (!outcome.victory ==> countDownLive == old(countDownLive) && liveIntervals == old(liveIntervals))
      ensures outcome.Mismatched? ==>
        && busy && pendingUnhides == old(pendingUnhides) + [(c, old(cardToCheck).value)]
        && matchedCards == old(matchedCards) && matched[..] == old(matched[..])
        && liveIntervals == old(liveIntervals) && countDownLive == old(countDownLive)
    {
      var other := cardToCheck.value;
      if types[c] == types[other] {
        var won := CardsMatch(c, other);
        outcome := Matched(won);
      } else {
        CardsMisMatch(c, other);
        outcome := Mismatched;
      }
      cardToCheck := None;
    }

    /** Pushes both cards on the matched list, marks them, and ends the game when the deck is done. */
    method CardsMatch(card1: nat, card2: nat) returns (won: bool)
      requires Valid() && card1 < n && card2 < n && card1 != card2
      requires card1 !in matchedCards && card2 !in matchedCards
      modifies this`matchedCards, this`liveIntervals, this`countDownLive, matched
      ensures Consistent()
      ensures matchedCards == old(matchedCards) + [card1, card2]
      ensures matched[..] == old(matched[..])[card1 := true][card2 := true]
      ensures won <==> |matchedCards| == n
      ensures won ==> !countDownLive && liveIntervals == old(liveIntervals) - (if old(countDownLive) then 1 else 0)
      ensures !won ==> countDownLive == old(countDownLive) && liveIntervals == old(liveIntervals)
    {
      MatchKeepsInvariant(matchedCards, n, card1, card2);
      matchedCards := matchedCards + [card1, card2];
      matched[card1] := true;
      matched[card2] := true;
      won := |matchedCards| == n;
      if won {
        Victory();
      }
    }

    /** Locks the board and queues the callback that hides both cards again. */
    method CardsMisMatch(card1: nat, card2: nat)
      requires Valid() && card1 < n && card2 < n
      modifies this`busy, this`pendingUnhides
      ensures Valid()
      ensures busy && pendingUnhides == old(pendingUnhides) + [(card1, card2)]
    {
      busy := true;
      pendingUnhides := pendingUnhides + [(card1, card2)];
    }

    /**
     * The oldest queued mismatch callback: hides its two cards and unlocks the
     * board. It is not cancelled by a restart, so it may run in a later session.
     */
    method UnhideCards()
      requires Valid() && pendingUnhides != []
      modifies this`busy, this`pendingUnhides, visible
      ensures Valid()
      ensures visible[..] == old(visible[..])[old(pendingUnhides[0]).0 := false][old(pendingUnhides[0]).1 := false]
      ensures !busy && pendingUnhides == old(pendingUnhides[1..])
    {
      var (card1, card2) := pendingUnhides[0];
      visible[card1] := false;
      visible[card2] := false;
      busy := false;
      pendingUnhides := pendingUnhides[1..];
    }

    /** `clearInterval(countDown)`: stops the interval `countDown` names, if it still runs. */
    method StopCountDown()
      requires countDownLive ==> liveIntervals > 0
      modifies this`liveIntervals, this`countDownLive
      ensures !countDownLive
      ensures liveIntervals == old(liveIntervals) - (if old(countDownLive) then 1 else 0)
    {
      if countDownLive {
        liveIntervals := liveIntervals - 1;
        countDownLive := false;
      }
    }

    /** The timer-stopping part of `victory`. */
    method Victory()
      requires countDownLive ==> liveIntervals > 0
      modifies this`liveIntervals, this`countDownLive
      ensures !countDownLive
      ensures liveIntervals == old(liveIntervals) - (if old(countDownLive) then 1 else 0)
    {
      StopCountDown();
    }

    /** The timer-stopping part of `gameover`. */
    method GameOver()
      requires countDownLive ==> liveIntervals > 0
      modifies this`liveIntervals, this`countDownLive
      ensures !countDownLive
      ensures liveIntervals == old(liveIntervals) - (if old(countDownLive) then 1 else 0)
    {
      StopCountDown();
    }
  }

  /** The matched flags and the matched list agree on when the whole deck is done. */
  lemma VictoryIffAllFlagged(g: FlipOrQuit)
    requires g.Valid()
    ensures |g.matchedCards| == g.n <==> forall c :: 0 <= c < g.n ==> g.matched[c]
  {
    FullIffEveryCard(g.matchedCards, g.n);
  }

  /** Once the deck is fully matched, the guard refuses every card. */
  lemma NoFlipAfterVictory(g: FlipOrQuit)
    requires g.Valid() && |g.matchedCards| == g.n
    ensures forall c :: 0 <= c < g.n ==> !g.CanFlipCard(c)
  {
    FullIffEveryCard(g.matchedCards, g.n);
  }

  /**
   * The start of a game on the deck A, A, B, B: a mismatch and its delayed
   * hiding, then the pair of As and the pair of Bs.
   */
  method PlayFourCards(picks: seq<nat>)
    requires ValidPicks(picks, 4)
  {
    var g := new FlipOrQuit(60, ["A", "A", "B", "B"]);
    g.StartGame();
    assert g.flipsCounter == 0 && g.remainingTime == 60 && g.busy;
    g.FinishStart(picks);
    MismatchThenHide(g);
    MatchFirstPair(g);
    FinishFourCards(g);
  }

  /** The mismatch of that game: A then B, a locked board, and the delayed hiding of both. */
  method MismatchThenHide(g: FlipOrQuit)
    requires g.Valid() && g.started && !g.busy && g.cardToCheck == None && g.flipsCounter == 0
    requires g.types == ["A", "A", "B", "B"] && g.matchedCards == [] && g.pendingUnhides == []
    requires g.countDownLive && g.liveIntervals == 1
    modifies g, g.visible, g.matched
    ensures g.Valid() && g.started && !g.busy && g.cardToCheck == None
    ensures g.types == ["A", "A", "B", "B"] && g.matchedCards == []
    ensures g.countDownLive && g.liveIntervals == 1
  {
    var o := g.FlipCard(0);
    assert o == FirstCard && g.flipsCounter == 1 && g.visible[0] && g.cardToCheck == Some(0);
    o := g.FlipCard(2);
    assert o == Mismatched && g.busy && g.cardToCheck == None && g.flipsCounter == 2;
    o := g.FlipCard(1);
    assert o == Rejected;
    g.UnhideCards();
    assert !g.visible[0] && !g.visible[2] && !g.busy;
  }

  /** The pair of As of that game: a match that does not win yet. */
  method MatchFirstPair(g: FlipOrQuit)
    requires g.Valid() && g.started && !g.busy && g.cardToCheck == None
    requires g.types == ["A", "A", "B", "B"] && g.matchedCards == []
    requires g.countDownLive && g.liveIntervals == 1
    modifies g, g.visible, g.matched
    ensures g.Valid() && g.started && !g.busy && g.cardToCheck == None
    ensures g.types == ["A", "A", "B", "B"] && g.matchedCards == [1, 0]
    ensures g.countDownLive && g.liveIntervals == 1
  {
    var o := g.FlipCard(0);
    assert o == FirstCard;
    o := g.FlipCard(1);
    assert o == Matched(false);
  }

  /** The end of that game: the pair of Bs wins, stops the countdown, and locks every card. */
  method FinishFourCards(g: FlipOrQuit)
    requires g.Valid() && g.started && !g.busy && g.cardToCheck == None
    requires g.types == ["A", "A", "B", "B"] && g.matchedCards == [1, 0]
    requires g.countDownLive && g.liveIntervals == 1
    modifies g, g.visible, g.matched
  {
    var o := g.FlipCard(2);
    assert o == FirstCard;
    o := g.FlipCard(3);
    assert o == Matched(true) && !g.countDownLive && g.liveIntervals == 0;
    NoFlipAfterVictory(g);
    var before := g.flipsCounter;
    o := g.FlipCard(2);
    assert o == Rejected && g.flipsCounter == before;
  }

  /** A one-second game: the first tick reaches zero, ends the game and stops the only countdown. */
  method PlayOutOfTime(picks: seq<nat>)
    requires ValidPicks(picks, 2)
  {
    var g := new FlipOrQuit(1, ["A", "A"]);
    g.StartGame();
    g.FinishStart(picks);
    var over := g.Tick();
    assert over && g.remainingTime == 0 && g.liveIntervals == 0;
  }

  /**
   * A restart does not cancel a queued mismatch callback: it later hides a
   * card of the new session and unlocks the board.
   */
  method PlayStaleUnhide(picks: seq<nat>)
    requires ValidPicks(picks, 4)
  {
    var g := new FlipOrQuit(60, ["A", "A", "B", "B"]);
    g.StartGame();
    g.FinishStart(picks);
    var o := g.FlipCard(0);
    o := g.FlipCard(2);
    assert o == Mismatched && g.pendingUnhides == [(2, 0)];
    RestartWithStaleUnhide(g, picks);
  }

  /** The new session of that game, with the old mismatch callback still queued. */
  method RestartWithStaleUnhide(g: FlipOrQuit, picks: seq<nat>)
    requires g.Valid() && g.n == 4 && ValidPicks(picks, 4) && g.pendingUnhides == [(2, 0)]
    modifies g, g.visible, g.matched, g.order
  {
    g.StartGame();
    g.FinishStart(picks);
    var o := g.FlipCard(0);
    assert o == FirstCard && g.visible[0];
    g.UnhideCards();
    assert !g.visible[0] && !g.busy && g.cardToCheck == Some(0);
  }
}
