/** The cards of the Easy memory game: the card definitions, the fixed four-card
    deck `cardImages`, and what a shuffle keeps of it (every image twice, distinct ids). */
module Deck {
  import opened Shuffle

  /** A card definition: its identity and the image shown on its face. Two cards
      of a pair share the image and differ in id. */
  datatype Card = Card(id: int, image: string)

  /** cardImages: two meteors and two comets. */
  const CardImages: seq<Card> := [
    Card(1, "/images/meteor.png"),
    Card(2, "/images/meteor.png"),
    Card(3, "/images/comet.png"),
    Card(4, "/images/comet.png")
  ]

  /** No two positions of the deck hold cards with the same id. */
  predicate DistinctIds(cards: seq<Card>)
  {
    forall p, q :: 0 <= p < q < |cards| ==> cards[p].id != cards[q].id
  }

  /** The ids present in the deck. */
  function Ids(cards: seq<Card>): set<int>
  {
    set c | c in cards :: c.id
  }

  /** How many positions of the deck show `image`. */
  function CountImage(cards: seq<Card>, image: string): nat
  {
    if cards == [] then 0
    else (if cards[0].image == image then 1 else 0) + CountImage(cards[1..], image)
  }

  /** Every image of the deck is on exactly two of its cards. */
  predicate EveryImageTwice(cards: seq<Card>)
  {
    forall k :: 0 <= k < |cards| ==> CountImage(cards, cards[k].image) == 2
  }

  lemma {:induction false} CountImageConcat(a: seq<Card>, b: seq<Card>, image: string)
    ensures CountImage(a + b, image) == CountImage(a, image) + CountImage(b, image)
  {
    if a == [] {
      assert a + b == b;
    } else {
      assert (a + b)[1..] == a[1..] + b;
      CountImageConcat(a[1..], b, image);
    }
  }

  /** Taking the element at position k out of a sequence removes it once from the
      sequence's multiset. */
  lemma MultisetRemoveAt<T>(b: seq<T>, k: nat)
    requires k < |b|
    ensures multiset(b[..k] + b[k + 1..]) == multiset(b) - multiset{b[k]}
  {
    assert b == b[..k] + ([b[k]] + b[k + 1..]);
  }

  /** Taking the card at position k out of a deck removes its image once from the
      counts. */
  lemma RemoveAt(b: seq<Card>, k: nat, image: string)
    requires k < |b|
    ensures CountImage(b, image)
         == CountImage(b[..k] + b[k + 1..], image) + (if b[k].image == image then 1 else 0)
  {
    assert b == b[..k] + ([b[k]] + b[k + 1..]);
    CountImageConcat(b[..k], [b[k]] + b[k + 1..], image);
    CountImageConcat([b[k]], b[k + 1..], image);
    CountImageConcat(b[..k], b[k + 1..], image);
  }

  /** Two rearrangements of one non-empty deck: the first card of `a` sits at some
      position k of `b`, and what remains of each is again a rearrangement. */
  lemma MatchFirst<T>(a: seq<T>, b: seq<T>) returns (k: nat)
    requires a != [] && multiset(a) == multiset(b)
    ensures k < |b| && b[k] == a[0]
    ensures multiset(a[1..]) == multiset(b[..k] + b[k + 1..])
  {
    assert a[0] in multiset(b);
    k :| 0 <= k < |b| && b[k] == a[0];
    MultisetRemoveAt(b, k);
    MultisetRemoveAt(a, 0);
    assert a[..0] + a[1..] == a[1..];
  }

  /** Rearranging a deck keeps the number of cards showing each image. */
  lemma {:induction false} CountImagePermutation(a: seq<Card>, b: seq<Card>, image: string)
    requires multiset(a) == multiset(b)
    ensures CountImage(a, image) == CountImage(b, image)
  {
    if a == [] {
      assert |b| == |multiset(b)| == 0;
    } else {
      var k := MatchFirst(a, b);
      RemoveAt(b, k, image);
      CountImagePermutation(a[1..], b[..k] + b[k + 1..], image);
    }
  }

  /** The cardImages deck: four cards, distinct ids, every image twice. */
  lemma CardImagesWellFormed()
    ensures |CardImages| == 4
    ensures DistinctIds(CardImages)
    ensures EveryImageTwice(CardImages)
  {
  }

  lemma SwapKeepsDistinctIds(cards: seq<Card>, i: nat, j: nat)
    requires i < |cards| && j < |cards| && DistinctIds(cards)
    ensures DistinctIds(Swap(cards, i, j))
  {
  }

  lemma {:induction false} ShuffleFromKeepsDistinctIds(cards: seq<Card>, picks: seq<nat>, i: int)
    requires ValidPicks(picks, |cards|) && i < |cards| && DistinctIds(cards)
    ensures DistinctIds(ShuffleFrom(cards, picks, i))
    decreases i
  {
    if i > 0 {
      SwapKeepsDistinctIds(cards, i, picks[i]);
      ShuffleFromKeepsDistinctIds(Swap(cards, i, picks[i]), picks, i - 1);
    }
  }

  /** A shuffle of a deck with distinct ids whose images each appear twice is
      again such a deck, with the same cards. */
  lemma ShuffledKeepsPairs(cards: seq<Card>, picks: seq<nat>)
    requires ValidPicks(picks, |cards|)
    requires DistinctIds(cards) && EveryImageTwice(cards)
    ensures DistinctIds(Shuffled(cards, picks))
    ensures EveryImageTwice(Shuffled(cards, picks))
  {
    var r := Shuffled(cards, picks);
    ShuffledPermutes(cards, picks);
    ShuffleFromKeepsDistinctIds(cards, picks, |cards| - 1);
    forall k | 0 <= k < |r| ensures CountImage(r, r[k].image) == 2 {
      assert r[k] in multiset(cards);
      var m :| 0 <= m < |cards| && cards[m] == r[k];
      CountImagePermutation(cards, r, r[k].image);
    }
  }

  /** Every deck newGame can deal: a rearrangement of cardImages with four cards,
      distinct ids, and each image twice. */
  lemma ShuffledCardImages(picks: seq<nat>)
    requires ValidPicks(picks, |CardImages|)
    ensures |Shuffled(CardImages, picks)| == 4
    ensures DistinctIds(Shuffled(CardImages, picks))
    ensures EveryImageTwice(Shuffled(CardImages, picks))
  {
    CardImagesWellFormed();
    ShuffledKeepsPairs(CardImages, picks);
  }

  /** The ids of a non-empty deck: its first card's id and the ids of the rest. */
  lemma IdsUncons(cards: seq<Card>)
    requires cards != []
    ensures Ids(cards) == {cards[0].id} + Ids(cards[1..])
  {
    forall x | x in Ids(cards) ensures x in {cards[0].id} + Ids(cards[1..]) {
      var c :| c in cards && c.id == x;
      var q :| 0 <= q < |cards| && cards[q] == c;
      if q > 0 {
        assert cards[1..][q - 1] == c;
      }
    }
  }

  /** Dropping the first card of a deck with distinct ids leaves distinct ids, none
      of them the first card's. */
  lemma TailDistinctIds(cards: seq<Card>)
    requires cards != [] && DistinctIds(cards)
    ensures DistinctIds(cards[1..])
    ensures cards[0].id !in Ids(cards[1..])
  {
    var rest := cards[1..];
    forall p, q | 0 <= p < q < |rest| ensures rest[p].id != rest[q].id {
      assert rest[p] == cards[p + 1] && rest[q] == cards[q + 1];
    }
    forall c | c in rest ensures c.id != cards[0].id {
      var q :| 0 <= q < |rest| && rest[q] == c;
      assert cards[q + 1] == c;
    }
  }

  /** A deck with distinct ids has as many ids as cards. */
  lemma {:induction false} IdsCardinality(cards: seq<Card>)
    requires DistinctIds(cards)
    ensures |Ids(cards)| == |cards|
  {
    if cards != [] {
      TailDistinctIds(cards);
      IdsCardinality(cards[1..]);
      IdsUncons(cards);
    }
  }
}
