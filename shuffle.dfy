/** The deck shuffle of the memory game: a Fisher-Yates (Durstenfeld) shuffle that
    copies its input and swaps, for i from the last index down to 1, element i with
    an element j in 0..i. The random choice of j is supplied by the caller as
    `picks[i]`, so the whole shuffle is a deterministic function of the input and
    the picks. */
module Shuffle {

  /** `picks` chooses one swap partner per step: for every index i in 1..n-1 the
      partner j = picks[i] satisfies 0 <= j <= i (what Math.floor(Math.random() * (i + 1))
      guarantees). picks[0] is never used. */
  predicate ValidPicks(picks: seq<nat>, n: nat)
  {
    |picks| == n && forall i :: 0 < i < n ==> picks[i] <= i
  }

  /** The destructuring swap `[a[i], a[j]] = [a[j], a[i]]` on a sequence: the two
      positions exchange their elements and every other position keeps its own. */
  function Swap<T>(s: seq<T>, i: nat, j: nat): (r: seq<T>)
    requires i < |s| && j < |s|
    ensures |r| == |s|
    ensures r[i] == s[j] && r[j] == s[i]
    ensures forall k :: 0 <= k < |s| && k != i && k != j ==> r[k] == s[k]
  {
    s[i := s[j]][j := s[i]]
  }

  /** A swap only exchanges two elements: the multiset of elements is unchanged. */
  lemma SwapPermutes<T>(s: seq<T>, i: nat, j: nat)
    requires i < |s| && j < |s|
    ensures multiset(Swap(s, i, j)) == multiset(s)
  {
  }

  /** What the shuffle loop still does when its counter is i: steps i, i-1, ..., 1.
      Each step only swaps within 0..i, so the positions above i are already final. */
  function ShuffleFrom<T>(s: seq<T>, picks: seq<nat>, i: int): (r: seq<T>)
    requires ValidPicks(picks, |s|) && i < |s|
    ensures |r| == |s|
    ensures forall k :: 0 <= k < |s| && i < k ==> r[k] == s[k]
    decreases i
  {
    if i <= 0 then s else ShuffleFrom(Swap(s, i, picks[i]), picks, i - 1)
  }

  /** The whole shuffle: the loop starts at the last index (-1 for an empty deck). */
  function Shuffled<T>(s: seq<T>, picks: seq<nat>): (r: seq<T>)
    requires ValidPicks(picks, |s|)
    ensures |r| == |s|
  {
    ShuffleFrom(s, picks, |s| - 1)
  }

  /** The remaining steps of the loop only rearrange the elements. */
  lemma {:induction false} ShuffleFromPermutes<T>(s: seq<T>, picks: seq<nat>, i: int)
    requires ValidPicks(picks, |s|) && i < |s|
    ensures multiset(ShuffleFrom(s, picks, i)) == multiset(s)
    decreases i
  {
    if i > 0 {
      SwapPermutes(s, i, picks[i]);
      ShuffleFromPermutes(Swap(s, i, picks[i]), picks, i - 1);
    }
  }

  /** shuffleArray returns a permutation of its input: the same elements, each as
      often as in the input. */
  lemma ShuffledPermutes<T>(s: seq<T>, picks: seq<nat>)
    requires ValidPicks(picks, |s|)
    ensures |Shuffled(s, picks)| == |s|
    ensures multiset(Shuffled(s, picks)) == multiset(s)
  {
    ShuffleFromPermutes(s, picks, |s| - 1);
  }

  /** Picks that swap every element with itself leave the sequence in order. */
  lemma {:induction false} StayingPicks<T>(s: seq<T>, picks: seq<nat>, i: int)
    requires ValidPicks(picks, |s|) && i < |s|
    requires forall k :: 0 <= k < |picks| ==> picks[k] == k
    ensures ShuffleFrom(s, picks, i) == s
    decreases i
  {
    if i > 0 {
      assert Swap(s, i, picks[i]) == s;
      StayingPicks(s, picks, i - 1);
    }
  }

  /** An element is in the shuffled deck exactly when it is in the input deck. */
  lemma ShuffledSameElements<T>(s: seq<T>, picks: seq<nat>, x: T)
    requires ValidPicks(picks, |s|)
    ensures x in Shuffled(s, picks) <==> x in s
  {
    var r := Shuffled(s, picks);
    ShuffledPermutes(s, picks);
    assert x in r <==> x in multiset(r);
    assert x in s <==> x in multiset(s);
  }

  /** shuffleArray: copies `deck` into a fresh array and shuffles the copy in place;
      the array it is given is left as it was. */
  method ShuffleArray<T>(deck: array<T>, picks: seq<nat>) returns (shuffled: array<T>)
    requires ValidPicks(picks, deck.Length)
    ensures fresh(shuffled)
    ensures shuffled[..] == Shuffled(deck[..], picks)
    ensures multiset(shuffled[..]) == multiset(deck[..])
    ensures deck[..] == old(deck[..])
  {
    shuffled := new T[deck.Length](k requires 0 <= k < deck.Length reads deck => deck[k]);
    assert shuffled[..] == deck[..];
    var i := shuffled.Length - 1;
    while i > 0
      invariant -1 <= i < shuffled.Length
      invariant ValidPicks(picks, shuffled.Length)
      invariant ShuffleFrom(shuffled[..], picks, i) == Shuffled(deck[..], picks)
    {
      var j := picks[i];
      ghost var before := shuffled[..];
      shuffled[i], shuffled[j] := shuffled[j], shuffled[i];
      assert shuffled[..] == Swap(before, i, j);
      i := i - 1;
    }
    ShuffledPermutes(deck[..], picks);
  }
}
