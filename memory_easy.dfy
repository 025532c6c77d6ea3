/** The MemoryEasy component's game session as an object: its state fields, updated
    in place by one method per event. Each method's effect is the matching transition
    of the Session module, and each keeps the session invariant. Completion summaries
    that would be posted to the server are returned and logged in `saved`. */
module MemoryEasy {
  import opened Shuffle
  import opened Deck
  import opened Session

  /** shuffleArray(cardImages): the deck a new round is dealt. */
  method ShuffleCardImages(picks: seq<nat>) returns (deck: seq<Card>)
    requires ValidPicks(picks, |CardImages|)
    ensures deck == Shuffled(CardImages, picks)
  {
    var source := new Card[|CardImages|](k requires 0 <= k < |CardImages| => CardImages[k]);
    assert source[..] == CardImages;
    var shuffled := ShuffleArray(source, picks);
    deck := shuffled[..];
  }

  class GameSession {
    /** The player's identity, read once from local storage when the component renders. */
    const userID: string

    var cards: seq<Card>
    var flippedCards: seq<nat>
    var matchedCards: seq<int>
    var failedAttempts: nat
    var timer: nat
    var timerActive: bool
    var initialReveal: bool
    var mouseDisabled: bool

    /** Every summary handed to saveGameData so far, oldest first. */
    ghost var saved: seq<Summary>

    /** The current values of the state fields. */
    function Snapshot(): State
      reads this
    {
      State(cards, flippedCards, matchedCards, failedAttempts, timer, timerActive, initialReveal, mouseDisabled)
    }

    /** The component mounts with an empty deck, the reveal flag set and input enabled. */
    constructor (userID: string)
      ensures this.userID == userID
      ensures Snapshot() == Mounted() && Valid(Snapshot())
      ensures saved == []
    {
      this.userID := userID;
      cards, flippedCards, matchedCards := [], [], [];
      failedAttempts, timer := 0, 0;
      timerActive, initialReveal, mouseDisabled := false, true, false;
      saved := [];
    }

    /** The completion effect, run whenever matchedCards has just changed: once the
        whole deck is matched it stops the timer and posts the summary. */
    method CheckCompletion() returns (report: Option<Summary>)
      modifies this
      ensures Snapshot() == Complete(old(Snapshot()))
      ensures report == Report(old(Snapshot()), userID)
      ensures report.Some? <==> CompletionDue(old(Snapshot()))
      ensures saved == old(saved) + (if report.Some? then [report.value] else [])
      ensures Valid(old(Snapshot())) ==> Valid(Snapshot())
    {
      if |matchedCards| == |cards| && |cards| != 0 {
        timerActive := false;
        report := Some(Summary(userID, failedAttempts, DefaultDifficulty, 1, timer));
        saved := saved + [report.value];
      } else {
        report := None;
      }
      if Valid(old(Snapshot())) {
        CompleteKeepsValid(old(Snapshot()));
      }
    }

    /** newGame: deals cardImages shuffled with `picks`, resets flips, matches, the
        failure count and the timer, starts the timer and disables input while the
        deck is revealed. The completion effect then runs on the reset matchedCards
        and finds nothing to do. */
    method NewGame(picks: seq<nat>)
      requires ValidPicks(picks, |CardImages|)
      modifies this
      ensures Snapshot() == NewRound(Shuffled(CardImages, picks))
      ensures |cards| == |CardImages| && EveryImageTwice(cards)
      ensures Valid(Snapshot())
      ensures saved == old(saved)
    {
      var deck := ShuffleCardImages(picks);
      ShuffledCardImages(picks);
      cards, flippedCards, matchedCards := deck, [], [];
      failedAttempts, timer := 0, 0;
      timerActive, initialReveal, mouseDisabled := true, true, true;
      var report := CheckCompletion();
    }

    /** handleFlip(i): turns card i face up unless input is disabled, it is already
        face up, its card is matched, or two cards are already face up. */
    method HandleFlip(i: nat)
      requires mouseDisabled || i in flippedCards || i < |cards|
      modifies this
      ensures Snapshot() == Flip(old(Snapshot()), i)
      ensures flippedCards == old(flippedCards) || flippedCards == old(flippedCards) + [i]
      ensures saved == old(saved)
      ensures Valid(old(Snapshot())) ==> Valid(Snapshot()) && |flippedCards| <= 2
    {
      if mouseDisabled || i in flippedCards || cards[i].id in matchedCards || |flippedCards| == 2 {
        return;
      }
      flippedCards := flippedCards + [i];
      if Valid(old(Snapshot())) {
        FlipKeepsValid(old(Snapshot()), i);
      }
    }

    /** The resolution timeout scheduled when the second card was turned: a matching
        pair joins matchedCards (and the completion effect runs), a mismatch counts as
        a failed attempt; either way both cards turn back. */
    method Resolve() returns (report: Option<Summary>)
      requires |flippedCards| == 2 && flippedCards[0] < |cards| && flippedCards[1] < |cards|
      modifies this
      ensures Snapshot() == AfterResolve(old(Snapshot()))
      ensures report == (if IsMatch(old(Snapshot())) then Report(ResolvePair(old(Snapshot())), userID) else None)
      ensures saved == old(saved) + (if report.Some? then [report.value] else [])
      ensures Valid(old(Snapshot())) ==> Valid(Snapshot())
      ensures Valid(old(Snapshot())) && report.Some? ==> !CompletionDue(old(Snapshot()))
    {
      ghost var before := Snapshot();
      var f, s := flippedCards[0], flippedCards[1];
      if cards[f].image == cards[s].image {
        matchedCards := matchedCards + [cards[f].id, cards[s].id];
        flippedCards := [];
        report := CheckCompletion();
      } else {
        failedAttempts := failedAttempts + 1;
        flippedCards := [];
        report := None;
      }
      if Valid(before) {
        ResolveKeepsValid(before);
        PendingPairNotComplete(before);
      }
    }

    /** One tick of the one-second interval, which runs only while the timer is active. */
    method Tick()
      modifies this
      ensures Snapshot() == Session.Tick(old(Snapshot()))
      ensures timer == if old(timerActive) then old(timer) + 1 else old(timer)
      ensures saved == old(saved)
      ensures Valid(old(Snapshot())) ==> Valid(Snapshot())
    {
      if timerActive {
        timer := timer + 1;
      }
      if Valid(old(Snapshot())) {
        TickKeepsValid(old(Snapshot()));
      }
    }

    /** The 2-second timeout of newGame: input is enabled again. */
    method EnableInput()
      modifies this
      ensures Snapshot() == Session.EnableInput(old(Snapshot()))
      ensures saved == old(saved)
      ensures Valid(old(Snapshot())) ==> Valid(Snapshot())
    {
      mouseDisabled := false;
      if Valid(old(Snapshot())) {
        StartTimeoutsKeepValid(old(Snapshot()));
      }
    }

    /** The 1.5-second timeout of newGame: the cards are no longer all shown. */
    method EndReveal()
      modifies this
      ensures Snapshot() == Session.EndReveal(old(Snapshot()))
      ensures saved == old(saved)
      ensures Valid(old(Snapshot())) ==> Valid(Snapshot())
    {
      initialReveal := false;
      if Valid(old(Snapshot())) {
        StartTimeoutsKeepValid(old(Snapshot()));
      }
    }
  }
}
