/** The session logic of MemoryEasy as values: a snapshot of the component's state
    fields and one transition function per event that changes them (newGame, a card
    click, the delayed pair resolution, the completion effect, the one-second tick
    and the two start-of-round timeouts). The invariant `Valid` is what every event
    keeps; the lemmas state what each event does and what holds once a round is over. */
module Session {
  import opened Deck

  datatype Option<T> = None | Some(value: T)

  /** The component's state fields. `flippedCards` holds deck positions,
      `matchedCards` holds card ids. */
  datatype State = State(
    cards: seq<Card>,
    flippedCards: seq<nat>,
    matchedCards: seq<int>,
    failedAttempts: nat,
    timer: nat,
    timerActive: bool,
    initialReveal: bool,
    mouseDisabled: bool)

  /** The record handed to saveGameData when a round is finished (the date is not modelled). */
  datatype Summary = Summary(userID: string, failed: nat, difficulty: string, completed: nat, timeTaken: nat)

  const DefaultDifficulty: string := "Easy"

  /** The state when the component mounts, before any round has started: it keeps
      the session invariant, and with no cards the round is not complete. */
  function Mounted(): (r: State)
    ensures Valid(r) && !CompletionDue(r)
    ensures r.cards == [] && !r.timerActive && !r.mouseDisabled
  {
    State([], [], [], 0, 0, false, true, false)
  }

  /** newGame with the freshly shuffled `deck`: a deck with distinct ids gives a valid
      state, and the completion effect that the reset of matchedCards triggers finds a
      non-empty deck unfinished and changes nothing. */
  function NewRound(deck: seq<Card>): (r: State)
    ensures r.cards == deck && r.timerActive && r.mouseDisabled && r.initialReveal
    ensures DistinctIds(deck) ==> Valid(r)
    ensures |deck| > 0 ==> !CompletionDue(r) && Complete(r) == r
  {
    State(deck, [], [], 0, 0, true, true, true)
  }

  /** The click handler can run its guard without reading past the deck: the guard
      looks at cards[i] only once input is enabled and i is not already flipped. */
  predicate CanEvaluateFlip(s: State, i: nat)
  {
    s.mouseDisabled || i in s.flippedCards || i < |s.cards|
  }

  /** handleFlip's guard, in the source's order: an accepted click is on a card of
      the deck while input is enabled. */
  predicate FlipAccepted(s: State, i: nat): (b: bool)
    requires CanEvaluateFlip(s, i)
    ensures b ==> i < |s.cards| && !s.mouseDisabled && |s.flippedCards| != 2
  {
    !s.mouseDisabled
    && i !in s.flippedCards
    && s.cards[i].id !in s.matchedCards
    && |s.flippedCards| != 2
  }

  /** handleFlip(i): the click either changes nothing or turns up exactly card i,
      and only flippedCards can change. */
  function Flip(s: State, i: nat): (r: State)
    requires CanEvaluateFlip(s, i)
    ensures r.(flippedCards := s.flippedCards) == s
    ensures r.flippedCards == s.flippedCards || r.flippedCards == s.flippedCards + [i]
    ensures r != s <==> FlipAccepted(s, i)
  {
    if FlipAccepted(s, i) then s.(flippedCards := s.flippedCards + [i]) else s
  }

  /** Two cards are face up and both positions are in the deck: the resolution
      timeout is pending. */
  predicate PairFlipped(s: State)
  {
    |s.flippedCards| == 2 && s.flippedCards[0] < |s.cards| && s.flippedCards[1] < |s.cards|
  }

  predicate IsMatch(s: State)
    requires PairFlipped(s)
  {
    s.cards[s.flippedCards[0]].image == s.cards[s.flippedCards[1]].image
  }

  /** The body of the resolution timeout: both cards turn back, and the pair is
      counted either as two matched ids or as one failed attempt. */
  function ResolvePair(s: State): (r: State)
    requires PairFlipped(s)
    ensures r.(matchedCards := s.matchedCards, failedAttempts := s.failedAttempts, flippedCards := s.flippedCards) == s
    ensures r.flippedCards == []
    ensures |r.matchedCards| + 2 * r.failedAttempts == |s.matchedCards| + 2 * s.failedAttempts + 2
    ensures s.matchedCards <= r.matchedCards && s.failedAttempts <= r.failedAttempts
  {
    var f, g := s.flippedCards[0], s.flippedCards[1];
    if IsMatch(s) then
      s.(matchedCards := s.matchedCards + [s.cards[f].id, s.cards[g].id], flippedCards := [])
    else
      s.(failedAttempts := s.failedAttempts + 1, flippedCards := [])
  }

  /** The completion effect's condition. */
  predicate CompletionDue(s: State)
  {
    |s.matchedCards| == |s.cards| && |s.cards| != 0
  }

  /** The completion effect: it stops the timer once every card is matched, and
      touches nothing else. */
  function Complete(s: State): (r: State)
    ensures r.(timerActive := s.timerActive) == s
    ensures CompletionDue(r) == CompletionDue(s)
    ensures CompletionDue(s) ==> !r.timerActive
    ensures !CompletionDue(s) ==> r == s
  {
    if CompletionDue(s) then s.(timerActive := false) else s
  }

  /** What the completion effect hands to saveGameData: a summary exactly when the
      round is complete, carrying the failures and the elapsed time. */
  function Report(s: State, userID: string): (r: Option<Summary>)
    ensures r.Some? <==> CompletionDue(s)
    ensures r.Some? ==> r.value.userID == userID && r.value.failed == s.failedAttempts
                        && r.value.timeTaken == s.timer && r.value.completed == 1
                        && r.value.difficulty == DefaultDifficulty
  {
    if CompletionDue(s) then Some(Summary(userID, s.failedAttempts, DefaultDifficulty, 1, s.timer)) else None
  }

  /** The resolution timeout followed by the completion effect, which runs only
      when matchedCards has changed, that is after a match. The deck, the timer value,
      the reveal flag and input gating are kept; both cards turn back. */
  function AfterResolve(s: State): (r: State)
    requires PairFlipped(s)
    ensures r.cards == s.cards && r.timer == s.timer
    ensures r.initialReveal == s.initialReveal && r.mouseDisabled == s.mouseDisabled
    ensures r.flippedCards == []
    ensures |r.matchedCards| + 2 * r.failedAttempts == |s.matchedCards| + 2 * s.failedAttempts + 2
  {
    if IsMatch(s) then Complete(ResolvePair(s)) else ResolvePair(s)
  }

  /** One firing of the one-second interval; the interval exists only while the
      timer is active, so the timer advances by one second exactly then, and no
      other field changes. */
  function Tick(s: State): (r: State)
    ensures r.timer == if s.timerActive then s.timer + 1 else s.timer
    ensures r.(timer := s.timer) == s
  {
    if s.timerActive then s.(timer := s.timer + 1) else s
  }

  /** The 2-second timeout of newGame: input is enabled and nothing else changes. */
  function EnableInput(s: State): (r: State)
    ensures !r.mouseDisabled && r.(mouseDisabled := s.mouseDisabled) == s
  {
    s.(mouseDisabled := false)
  }

  /** The 1.5-second timeout of newGame: the reveal ends and nothing else changes. */
  function EndReveal(s: State): (r: State)
    ensures !r.initialReveal && r.(initialReveal := s.initialReveal) == s
  {
    s.(initialReveal := false)
  }

  // ---------------------------------------------------------------------------
  // The session invariant

  predicate NoDup<T(==)>(xs: seq<T>)
  {
    forall p, q :: 0 <= p < q < |xs| ==> xs[p] != xs[q]
  }

  /** Ids a and b are on two different cards of the deck that show the same image. */
  predicate IsPair(cards: seq<Card>, a: int, b: int)
  {
    exists p, q :: 0 <= p < |cards| && 0 <= q < |cards| && p != q
      && cards[p].id == a && cards[q].id == b && cards[p].image == cards[q].image
  }

  /** matchedCards is a sequence of matched pairs, appended two ids at a time. */
  predicate MatchedInPairs(cards: seq<Card>, matched: seq<int>)
    decreases |matched|
  {
    matched == []
    || (|matched| >= 2
        && MatchedInPairs(cards, matched[..|matched| - 2])
        && IsPair(cards, matched[|matched| - 2], matched[|matched| - 1]))
  }

  /** The deck, the face-up positions and the matched ids fit together: at most two
      distinct positions of the deck are face up and none of their cards is matched;
      matchedCards lists distinct ids of the deck, a pair at a time. */
  predicate Consistent(s: State)
  {
    DistinctIds(s.cards)
    && |s.flippedCards| <= 2
    && NoDup(s.flippedCards)
    && (forall k :: 0 <= k < |s.flippedCards| ==>
          s.flippedCards[k] < |s.cards| && s.cards[s.flippedCards[k]].id !in s.matchedCards)
    && NoDup(s.matchedCards)
    && (forall x :: x in s.matchedCards ==> x in Ids(s.cards))
    && MatchedInPairs(s.cards, s.matchedCards)
  }

  /** The session invariant: a consistent state whose timer is stopped once the
      round is complete. */
  predicate Valid(s: State)
  {
    Consistent(s) && (CompletionDue(s) ==> !s.timerActive)
  }

  // ---------------------------------------------------------------------------
  // Starting a round

  // ---------------------------------------------------------------------------
  // Flipping

  /** A click changes nothing when input is disabled, the position is already face
      up, its card is already matched, or two cards are already face up. */
  lemma FlipIgnored(s: State, i: nat)
    requires CanEvaluateFlip(s, i)
    requires s.mouseDisabled
          || i in s.flippedCards
          || (i < |s.cards| && s.cards[i].id in s.matchedCards)
          || |s.flippedCards| == 2
    ensures Flip(s, i) == s
  {
  }

  /** A click that passes the guard appends exactly i to flippedCards and changes no other field. */
  lemma FlipAppends(s: State, i: nat)
    requires CanEvaluateFlip(s, i) && FlipAccepted(s, i)
    ensures Flip(s, i).flippedCards == s.flippedCards + [i]
    ensures Flip(s, i).(flippedCards := s.flippedCards) == s
  {
  }

  /** Clicking the same card twice before resolution is the same as clicking it once. */
  lemma FlipTwice(s: State, i: nat)
    requires CanEvaluateFlip(s, i)
    ensures CanEvaluateFlip(Flip(s, i), i)
    ensures Flip(Flip(s, i), i) == Flip(s, i)
  {
  }

  lemma FlipKeepsValid(s: State, i: nat)
    requires Valid(s) && CanEvaluateFlip(s, i)
    ensures Valid(Flip(s, i))
    ensures |Flip(s, i).flippedCards| <= 2 && NoDup(Flip(s, i).flippedCards)
  {
  }

  // ---------------------------------------------------------------------------
  // Resolving a pair

  /** Equal images: both card ids are appended to matchedCards, failedAttempts is
      unchanged and flippedCards is emptied. */
  lemma ResolveMatch(s: State)
    requires PairFlipped(s) && IsMatch(s)
    ensures AfterResolve(s).matchedCards
         == s.matchedCards + [s.cards[s.flippedCards[0]].id, s.cards[s.flippedCards[1]].id]
    ensures AfterResolve(s).failedAttempts == s.failedAttempts
    ensures AfterResolve(s).flippedCards == []
    ensures AfterResolve(s).cards == s.cards && AfterResolve(s).timer == s.timer
    ensures AfterResolve(s).timerActive == (s.timerActive && !CompletionDue(AfterResolve(s)))
    ensures AfterResolve(s).(matchedCards := s.matchedCards, flippedCards := s.flippedCards,
                             timerActive := s.timerActive) == s
  {
  }

  /** Different images: failedAttempts grows by exactly one, matchedCards is unchanged
      and flippedCards is emptied; the timer keeps running. */
  lemma ResolveMismatch(s: State)
    requires PairFlipped(s) && !IsMatch(s)
    ensures AfterResolve(s).failedAttempts == s.failedAttempts + 1
    ensures AfterResolve(s).matchedCards == s.matchedCards
    ensures AfterResolve(s).flippedCards == []
    ensures AfterResolve(s).cards == s.cards
    ensures AfterResolve(s).timer == s.timer && AfterResolve(s).timerActive == s.timerActive
    ensures AfterResolve(s).(failedAttempts := s.failedAttempts, flippedCards := s.flippedCards) == s
  {
  }

  /** The resolution timeout keeps the deck, face-up and matched cards consistent. */
  lemma ResolvePairConsistent(s: State)
    requires Consistent(s) && PairFlipped(s)
    ensures Consistent(ResolvePair(s))
  {
  }

  lemma ResolveKeepsValid(s: State)
    requires Valid(s) && PairFlipped(s)
    ensures Valid(AfterResolve(s))
  {
    ResolvePairConsistent(s);
  }

  // ---------------------------------------------------------------------------
  // The remaining events

  lemma TickKeepsValid(s: State)
    requires Valid(s)
    ensures Valid(Tick(s))
  {
  }

  lemma CompleteKeepsValid(s: State)
    requires Valid(s)
    ensures Valid(Complete(s))
  {
  }

  /** The two timeouts newGame schedules keep the invariant. */
  lemma StartTimeoutsKeepValid(s: State)
    requires Valid(s)
    ensures Valid(EnableInput(s)) && Valid(EndReveal(s))
  {
  }

  // ---------------------------------------------------------------------------
  // Matched pairs and completion

  /** matchedCards grows by whole pairs, so it always has an even length. */
  lemma {:induction false} MatchedEven(cards: seq<Card>, matched: seq<int>)
    requires MatchedInPairs(cards, matched)
    ensures |matched| % 2 == 0
    decreases |matched|
  {
    if matched != [] {
      MatchedEven(cards, matched[..|matched| - 2]);
    }
  }

  lemma {:induction false} NoDupCardinality<T>(xs: seq<T>)
    requires NoDup(xs)
    ensures |set x | x in xs| == |xs|
  {
    if xs != [] {
      var rest := xs[1..];
      assert NoDup(rest) by {
        forall p, q | 0 <= p < q < |rest| ensures rest[p] != rest[q] {
          assert rest[p] == xs[p + 1] && rest[q] == xs[q + 1];
        }
      }
      NoDupCardinality(rest);
      assert (set x | x in xs) == {xs[0]} + (set x | x in rest) by {
        assert xs == [xs[0]] + rest;
      }
      assert xs[0] !in rest by {
        forall q | 0 <= q < |rest| ensures rest[q] != xs[0] {
          assert rest[q] == xs[q + 1];
        }
      }
    }
  }

  lemma SubsetSameSize<T>(a: set<T>, b: set<T>)
    requires a <= b && |a| == |b|
    ensures a == b
  {
    assert b == a + (b - a);
    assert a * (b - a) == {};
    assert |b - a| == 0;
  }

  /** When matchedCards is as long as the deck, every card of the deck is matched:
      the matched ids are distinct ids of the deck, which has no more ids than cards. */
  lemma AllMatchedWhenDue(s: State)
    requires Valid(s) && |s.matchedCards| == |s.cards|
    ensures forall k :: 0 <= k < |s.cards| ==> s.cards[k].id in s.matchedCards
  {
    var matchedSet := set x | x in s.matchedCards;
    forall x | x in matchedSet ensures x in Ids(s.cards) {
      assert x in s.matchedCards;
    }
    NoDupCardinality(s.matchedCards);
    IdsCardinality(s.cards);
    SubsetSameSize(matchedSet, Ids(s.cards));
    forall k | 0 <= k < |s.cards| ensures s.cards[k].id in s.matchedCards {
      assert s.cards[k] in s.cards;
      assert s.cards[k].id in Ids(s.cards);
    }
  }

  /** The first face-up card is a card of the deck that is not matched. */
  lemma FirstFaceUpUnmatched(s: State)
    requires Consistent(s) && |s.flippedCards| > 0
    ensures s.flippedCards[0] < |s.cards| && s.cards[s.flippedCards[0]].id !in s.matchedCards
  {
  }

  /** Once the completion condition holds, the round is over: no card is face up,
      the timer is stopped and frozen, and every click is ignored, so no pair can be
      resolved again and the completion effect cannot fire a second time. */
  lemma CompletedIsTerminal(s: State)
    requires Valid(s) && CompletionDue(s)
    ensures s.flippedCards == [] && !PairFlipped(s)
    ensures !s.timerActive && Tick(s) == s
    ensures forall i: nat :: CanEvaluateFlip(s, i) ==> Flip(s, i) == s
  {
    AllMatchedWhenDue(s);
    if |s.flippedCards| > 0 {
      FirstFaceUpUnmatched(s);
    }
  }

  /** While a pair waits to be resolved the round is not complete, so the summary
      of a round is reported by the resolution that completes it. */
  lemma PendingPairNotComplete(s: State)
    requires Valid(s) && PairFlipped(s)
    ensures !CompletionDue(s)
  {
    if CompletionDue(s) {
      CompletedIsTerminal(s);
    }
  }

  // ---------------------------------------------------------------------------
  // A round on the unshuffled deck

  /** Matching both meteors and then both comets finishes the round with no failed
      attempt; the summary carries completed = 1 and the elapsed time. */
  lemma ScenarioTwoMatches(userID: string)
    ensures var s0 := EnableInput(EndReveal(NewRound(CardImages)));
            var s1 := Flip(Flip(s0, 0), 1);
            PairFlipped(s1) && IsMatch(s1)
            && var s2 := AfterResolve(s1);
            s2.matchedCards == [1, 2] && s2.failedAttempts == 0 && !CompletionDue(s2) && s2.timerActive
            && var s3 := Flip(Flip(s2, 2), 3);
            PairFlipped(s3) && IsMatch(s3)
            && var s4 := AfterResolve(s3);
            s4.matchedCards == [1, 2, 3, 4] && CompletionDue(s4) && !s4.timerActive
            && Report(s4, userID) == Some(Summary(userID, 0, "Easy", 1, 0))
  {
  }

  /** Turning a meteor and a comet counts one failed attempt and turns both back. */
  lemma ScenarioMismatch()
    ensures var s0 := EnableInput(NewRound(CardImages));
            var s1 := Flip(Flip(s0, 0), 2);
            PairFlipped(s1) && !IsMatch(s1)
            && var s2 := AfterResolve(s1);
            s2.failedAttempts == 1 && s2.flippedCards == [] && s2.matchedCards == []
  {
  }
}
