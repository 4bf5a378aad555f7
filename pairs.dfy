/**
 * Facts about the card bookkeeping of the memory game, stated on plain values:
 * the list of matched cards (card indices of an n-card deck) and the CSS
 * `order` values that the shuffle writes.
 */
module Pairs {

  /** No card occurs twice in `s`. */
  predicate Distinct(s: seq<nat>) {
    forall i, j :: 0 <= i < j < |s| ==> s[i] != s[j]
  }

  /** Every element of `s` is a card of an `n`-card deck. */
  predicate InDeck(s: seq<nat>, n: nat) {
    forall i :: 0 <= i < |s| ==> s[i] < n
  }

  /**
   * What `matchedCards` always satisfies: distinct cards of the deck, pushed
   * two at a time, never more of them than the deck has.
   */
  predicate PairsInvariant(m: seq<nat>, n: nat) {
    Distinct(m) && InDeck(m, n) && |m| % 2 == 0 && |m| <= n
  }

  /** The set of cards listed in `s`. */
  function Elems(s: seq<nat>): (r: set<nat>)
  {
    set x | x in s
  }

  lemma {:induction false} DistinctElems(s: seq<nat>)
    requires Distinct(s)
    ensures |Elems(s)| == |s|
  {
    if s != [] {
      var t, last := s[..|s| - 1], s[|s| - 1];
      assert s == t + [last];
      forall i | 0 <= i < |t| ensures t[i] != last {
        assert s[i] == t[i];
      }
      assert Elems(s) == Elems(t) + {last};
      DistinctElems(t);
    }
  }

  /** A set of cards of an `n`-card deck has at most `n` elements. */
  lemma {:induction false} CardBelow(S: set<nat>, n: nat)
    requires forall x :: x in S ==> x < n
    ensures |S| <= n
  {
    if n == 0 {
      assert S == {};
    } else {
      var rest := S - {n - 1};
      CardBelow(rest, n - 1);
      if n - 1 in S {
        assert S == rest + {n - 1};
      } else {
        assert S == rest;
      }
    }
  }

  /** A set of cards of an `n`-card deck that misses card `c` has fewer than `n` elements. */
  lemma {:induction false} CardBelowMissing(S: set<nat>, n: nat, c: nat)
    requires c < n
    requires forall x :: x in S ==> x < n && x != c
    ensures |S| < n
  {
    var rest := S - {n - 1};
    if c == n - 1 {
      CardBelow(S, n - 1);
    } else {
      CardBelowMissing(rest, n - 1, c);
      if n - 1 in S {
        assert S == rest + {n - 1};
      } else {
        assert S == rest;
      }
    }
  }

  /** A set holding every card of an `n`-card deck has at least `n` elements. */
  lemma {:induction false} CardAtLeast(S: set<nat>, n: nat)
    requires forall x: nat :: x < n ==> x in S
    ensures |S| >= n
  {
    if n > 0 {
      var rest := S - {n - 1};
      CardAtLeast(rest, n - 1);
      assert S == rest + {n - 1};
    }
  }

  /** Distinct cards of an `n`-card deck number at most `n`. */
  lemma DistinctInDeckBound(s: seq<nat>, n: nat)
    requires Distinct(s) && InDeck(s, n)
    ensures |s| <= n
  {
    DistinctElems(s);
    CardBelow(Elems(s), n);
  }

  /**
   * The victory test `|matchedCards| == n` holds exactly when every card of
   * the deck has been matched.
   */
  lemma FullIffEveryCard(m: seq<nat>, n: nat)
    requires Distinct(m) && InDeck(m, n)
    ensures |m| == n <==> forall c: nat :: c < n ==> c in m
  {
    DistinctElems(m);
    if |m| == n {
      forall c: nat | c < n ensures c in m {
        if c !in m {
          CardBelowMissing(Elems(m), n, c);
          assert false;
        }
      }
    }
    if forall c: nat :: c < n ==> c in m {
      CardAtLeast(Elems(m), n);
      DistinctInDeckBound(m, n);
    }
  }

  /**
   * Pushing the two cards of a match, each of the deck, distinct, and neither
   * matched before, keeps the invariant (in particular the bound by `n`).
   */
  lemma MatchKeepsInvariant(m: seq<nat>, n: nat, c1: nat, c2: nat)
    requires PairsInvariant(m, n)
    requires c1 < n && c2 < n && c1 != c2 && c1 !in m && c2 !in m
    ensures PairsInvariant(m + [c1, c2], n)
  {
    var m' := m + [c1, c2];
    forall i, j | 0 <= i < j < |m'| ensures m'[i] != m'[j] {
      if j < |m| {
        assert m'[i] == m[i] && m'[j] == m[j];
      } else if i < |m| {
        assert m'[i] == m[i];
      }
    }
    DistinctInDeckBound(m', n);
  }

  // ---------------------------------------------------------------------
  // The shuffle loop

  /** Random picks for the shuffle: `picks[i]` is the index drawn in `[0, i]` at step `i`. */
  predicate ValidPicks(picks: seq<nat>, n: nat) {
    |picks| == n && forall i :: 0 <= i < n ==> picks[i] <= i
  }

  /** Every order value is a position of an `n`-card deck. */
  predicate OrdersInRange(s: seq<int>, n: nat) {
    forall k :: 0 <= k < |s| ==> 0 <= s[k] < n
  }

  /**
   * The orders after the shuffle loop has run its steps `i`, `i - 1`, ..., 1
   * on `s`. Step `i` with pick `j` writes order `j` on card `i` and then order
   * `i` on card `j`; it does not exchange the two old values.
   */
  function Shuffled(s: seq<int>, picks: seq<nat>, i: int): (r: seq<int>)
    requires -1 <= i < |s| && ValidPicks(picks, |s|)
    ensures |r| == |s|
    decreases i
  {
    if i <= 0 then s
    else Shuffled(s[i := picks[i]][picks[i] := i], picks, i - 1)
  }

  /** Every order value the shuffle leaves is a position of the deck. */
  lemma {:induction false} ShuffledInRange(s: seq<int>, picks: seq<nat>, i: int)
    requires -1 <= i < |s| && ValidPicks(picks, |s|)
    requires OrdersInRange(s, |s|)
    ensures OrdersInRange(Shuffled(s, picks, i), |s|)
    decreases i
  {
    if i > 0 {
      var s' := s[i := picks[i]][picks[i] := i];
      assert OrdersInRange(s', |s|);
      ShuffledInRange(s', picks, i - 1);
    }
  }

  /**
   * Steps `i` down to 1 never write a card above `i`, since every pick of
   * step `i` is at most `i`: such a card keeps its order.
   */
  lemma {:induction false} ShuffledLeavesUntouched(s: seq<int>, picks: seq<nat>, i: int, k: nat)
    requires -1 <= i < |s| && ValidPicks(picks, |s|)
    requires i < k < |s|
    ensures Shuffled(s, picks, i)[k] == s[k]
    decreases i
  {
    if i > 0 {
      assert picks[i] <= i < k;
      ShuffledLeavesUntouched(s[i := picks[i]][picks[i] := i], picks, i - 1, k);
    }
  }

  /**
   * The order card 0 is left with: the smallest step among `i..1` whose pick
   * is 0 writes it last; if no pick is 0, card 0 keeps `d`.
   */
  function ZeroOrder(picks: seq<nat>, i: int, d: int): (r: int)
    requires i < |picks|
    decreases i
  {
    if i <= 0 then d else ZeroOrder(picks, i - 1, if picks[i] == 0 then i else d)
  }

  /**
   * What the shuffle leaves, card by card, whatever the orders it starts
   * from: every card `k` in `1..i` ends with exactly its own pick
   * `picks[k]`, and card 0 ends with `ZeroOrder`.
   */
  lemma {:induction false} ShuffledAt(s: seq<int>, picks: seq<nat>, i: int, k: nat)
    requires -1 <= i < |s| && ValidPicks(picks, |s|)
    requires k <= i || k == 0
    ensures k >= 1 ==> Shuffled(s, picks, i)[k] == picks[k]
    ensures k == 0 && |s| > 0 ==> Shuffled(s, picks, i)[0] == ZeroOrder(picks, i, s[0])
    decreases i
  {
    if i > 0 {
      var s' := s[i := picks[i]][picks[i] := i];
      if k == i {
        ShuffledLeavesUntouched(s', picks, i - 1, k);
      } else {
        ShuffledAt(s', picks, i - 1, k);
      }
    }
  }

  /**
   * Every order value the shuffle writes lies in `[0, n)`, whatever the
   * starting orders: a card `k` in `1..n-1` ends in range, and card 0 ends
   * in range or with the order it started with.
   */
  lemma WrittenOrderInRange(s: seq<int>, picks: seq<nat>, k: nat)
    requires ValidPicks(picks, |s|) && k < |s|
    ensures var r := Shuffled(s, picks, |s| - 1); 0 <= r[k] < |s| || (k == 0 && r[0] == s[0])
  {
    ShuffledAt(s, picks, |s| - 1, k);
    if k == 0 {
      ZeroOrderWritten(picks, |s| - 1, s[0]);
    } else {
      assert picks[k] <= k;
    }
  }

  /** Card 0 ends with one of the steps `i..1`, or keeps `d` when no step picks 0. */
  lemma {:induction false} ZeroOrderWritten(picks: seq<nat>, i: int, d: int)
    requires i < |picks|
    ensures ZeroOrder(picks, i, d) == d || 1 <= ZeroOrder(picks, i, d) <= i
    decreases i
  {
    if i > 0 {
      ZeroOrderWritten(picks, i - 1, if picks[i] == 0 then i else d);
    }
  }

  /**
   * The shuffle is not a permutation of the positions: on three cards, the
   * picks 1 (at step 2) and 0 (at step 1) leave order 1 on two cards and no
   * card with order 2.
   */
  lemma ShuffleMayRepeatOrders()
    ensures ValidPicks([0, 0, 1], 3)
    ensures Shuffled([0, 0, 0], [0, 0, 1], 2) == [1, 0, 1]
    ensures multiset(Shuffled([0, 0, 0], [0, 0, 1], 2)) != multiset{0, 1, 2}
  {
  }
}
