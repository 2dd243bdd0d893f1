/**
 * The deck builder (`generate_cards`): half the cards are truths and half
 * are dares, each half sampled without replacement from its question list
 * repeated enough times, and the whole deck shuffled.
 *
 * Randomness is an input: `random.sample(pool, k)` is the choice of k
 * distinct pool positions (in the order drawn) and `random.shuffle` the
 * choice of a permutation. Every property below holds for every such choice.
 */
module Deck {
  import opened Wrappers

  datatype Category = Truth | Dare

  /** A card: the tuple (category, question) of the source, "TRUTH" or "DARE" as an enumeration. */
  datatype Card = Card(category: Category, question: string)

  /** Why `generate_cards` raises instead of returning a deck. */
  datatype DeckError =
    | OddTotal        // the ValueError raised for an odd total
    | DivisionByZero  // `num_each // len(...)` on an empty question list
    | NegativeSample  // `random.sample` asked for a negative number of items

  /** Python's `xs * n`: `n` copies of `xs` back to back, none when `n <= 0`. */
  function Repeat<T>(xs: seq<T>, n: int): (r: seq<T>)
    ensures |r| == if n <= 0 then 0 else |xs| * n
    decreases n
  {
    if n <= 0 then [] else Repeat(xs, n - 1) + xs
  }

  /** How many copies of a list of length `len` the pool holds, for `numEach` picks. */
  function Copies(numEach: int, len: nat): int
    requires len > 0
  {
    numEach / len + 1
  }

  /** The pool `xs * (numEach // len(xs) + 1)`. */
  function Pool(xs: seq<string>, numEach: int): seq<string>
    requires |xs| > 0
  {
    Repeat(xs, Copies(numEach, |xs|))
  }

  predicate InRange(idx: seq<nat>, n: nat)
  {
    forall i :: 0 <= i < |idx| ==> idx[i] < n
  }

  predicate Distinct(idx: seq<nat>)
  {
    forall i, j :: 0 <= i < j < |idx| ==> idx[i] != idx[j]
  }

  /** A possible outcome of `random.sample` of `k` items from a population of `n`. */
  predicate IsSample(idx: seq<nat>, n: nat, k: nat)
  {
    |idx| == k && InRange(idx, n) && Distinct(idx)
  }

  /** A possible outcome of `random.shuffle` on `n` items: item `perm[i]` moves to position `i`. */
  predicate IsPermutation(perm: seq<nat>, n: nat)
  {
    IsSample(perm, n, n)
  }

  /** The items of `s` at the positions `idx`, in that order. */
  function Select<T>(s: seq<T>, idx: seq<nat>): (r: seq<T>)
    requires InRange(idx, |s|)
    ensures |r| == |idx|
  {
    seq(|idx|, i requires 0 <= i < |idx| => s[idx[i]])
  }

  /** `[(category, q) for q in qs]`. */
  function Tagged(category: Category, qs: seq<string>): (r: seq<Card>)
    ensures |r| == |qs|
  {
    seq(|qs|, i requires 0 <= i < |qs| => Card(category, qs[i]))
  }

  /** The random choices one call of `generate_cards` makes. */
  datatype Draw = Draw(truthPicks: seq<nat>, darePicks: seq<nat>, order: seq<nat>)

  /** `draw` is something the two samples and the shuffle of a run can produce. */
  predicate DrawFits(draw: Draw, total: int, truths: seq<string>, dares: seq<string>)
    requires total >= 0 && |truths| > 0 && |dares| > 0
  {
    IsSample(draw.truthPicks, |Pool(truths, total / 2)|, total / 2)
    && IsSample(draw.darePicks, |Pool(dares, total / 2)|, total / 2)
    && IsPermutation(draw.order, 2 * (total / 2))
  }

  /** The cards before the shuffle: the sampled truths, then the sampled dares. */
  function Unshuffled(total: int, truths: seq<string>, dares: seq<string>, draw: Draw): seq<Card>
    requires total >= 0 && |truths| > 0 && |dares| > 0
    requires DrawFits(draw, total, truths, dares)
  {
    Tagged(Truth, Select(Pool(truths, total / 2), draw.truthPicks))
    + Tagged(Dare, Select(Pool(dares, total / 2), draw.darePicks))
  }

  /** The precondition of `GenerateCards`: the choices fit whenever the source gets as far as sampling. */
  predicate Drawable(total: int, truths: seq<string>, dares: seq<string>, draw: Draw)
  {
    total % 2 == 0 && total >= 0 && |truths| > 0 && |dares| > 0 ==> DrawFits(draw, total, truths, dares)
  }

  /** `generate_cards(total, truths, dares)` for the random choices `draw`. */
  function GenerateCards(total: int, truths: seq<string>, dares: seq<string>, draw: Draw): (r: Result<seq<Card>, DeckError>)
    requires Drawable(total, truths, dares, draw)
    ensures total % 2 != 0 <==> r == Failure(OddTotal)
    ensures r == Failure(DivisionByZero) <==> total % 2 == 0 && (|truths| == 0 || |dares| == 0)
    ensures r == Failure(NegativeSample) <==> total % 2 == 0 && |truths| > 0 && |dares| > 0 && total < 0
    ensures r.Success? ==> |r.value| == total
  {
    if total % 2 != 0 then Failure(OddTotal)
    else
      var numEach := total / 2;
      if |truths| == 0 || |dares| == 0 then Failure(DivisionByZero)
      else if numEach < 0 then Failure(NegativeSample)
      else Success(Select(Unshuffled(total, truths, dares, draw), draw.order))
  }

  /** Number of cards of `category` in `deck`. */
  function Count(deck: seq<Card>, category: Category): (n: nat)
    ensures n <= |deck|
  {
    if deck == [] then 0
    else (if deck[0].category == category then 1 else 0) + Count(deck[1..], category)
  }

  // ---------------------------------------------------------------- lemmas

  /** The pool has strictly more items than are drawn from it, so `random.sample` never fails. */
  lemma {:induction false} PoolLargerThanSample(xs: seq<string>, numEach: int)
    requires |xs| > 0 && numEach >= 0
    ensures |Pool(xs, numEach)| > numEach
  {
    var len, q := |xs|, numEach / |xs|;
    assert numEach == q * len + numEach % len;
    assert |Pool(xs, numEach)| == len * (q + 1) == q * len + len;
  }

  function Identity(n: nat): (r: seq<nat>)
    ensures IsSample(r, n, n)
  {
    seq(n, i requires 0 <= i < n => i)
  }

  /** For an even, non-negative total and non-empty lists some choice always fits: sampling cannot fail. */
  lemma SamplingNeverFails(total: int, truths: seq<string>, dares: seq<string>)
    requires total % 2 == 0 && total >= 0 && |truths| > 0 && |dares| > 0
    ensures var k := total / 2;
            DrawFits(Draw(Identity(k), Identity(k), Identity(total)), total, truths, dares)
  {
    var k := total / 2;
    PoolLargerThanSample(truths, k);
    PoolLargerThanSample(dares, k);
    assert forall i :: 0 <= i < k ==> Identity(k)[i] < |Pool(truths, k)| && Identity(k)[i] < |Pool(dares, k)|;
  }

  lemma {:induction false} CountAppend(a: seq<Card>, b: seq<Card>, category: Category)
    ensures Count(a + b, category) == Count(a, category) + Count(b, category)
  {
    if a == [] {
      assert a + b == b;
    } else {
      assert (a + b)[0] == a[0] && (a + b)[1..] == a[1..] + b;
      CountAppend(a[1..], b, category);
    }
  }

  /** The category counts are a function of the multiset of cards. */
  lemma {:induction false} CountOfPermutation(a: seq<Card>, b: seq<Card>, category: Category)
    requires multiset(a) == multiset(b)
    ensures Count(a, category) == Count(b, category)
  {
    if a == [] {
      assert |multiset(b)| == 0;
    } else {
      var x := a[0];
      assert x in multiset(b);
      var j :| 0 <= j < |b| && b[j] == x;
      var rest := b[..j] + b[j + 1..];
      RemoveAt(b, j, category);
      assert a == [x] + a[1..];
      assert multiset(a[1..]) == multiset(a) - multiset{x};
      CountOfPermutation(a[1..], rest, category);
    }
  }

  /** Taking the card at position `j` out of `b`. */
  lemma RemoveAt(b: seq<Card>, j: nat, category: Category)
    requires j < |b|
    ensures multiset(b[..j] + b[j + 1..]) == multiset(b) - multiset{b[j]}
    ensures Count(b, category) == Count(b[..j] + b[j + 1..], category) + (if b[j].category == category then 1 else 0)
  {
    assert b == b[..j] + ([b[j]] + b[j + 1..]);
    CountAppend(b[..j], [b[j]] + b[j + 1..], category);
    CountAppend([b[j]], b[j + 1..], category);
    CountAppend(b[..j], b[j + 1..], category);
  }

  lemma {:induction false} CountTagged(category: Category, qs: seq<string>, other: Category)
    ensures Count(Tagged(category, qs), other) == if category == other then |qs| else 0
  {
    if qs != [] {
      assert Tagged(category, qs)[1..] == Tagged(category, qs[1..]);
      CountTagged(category, qs[1..], other);
    }
  }

  lemma SelectAppend<T>(s: seq<T>, a: seq<nat>, b: seq<nat>)
    requires InRange(a, |s|) && InRange(b, |s|)
    ensures InRange(a + b, |s|) && Select(s, a + b) == Select(s, a) + Select(s, b)
  {
  }

  lemma SelectPrefix<T>(s: seq<T>, n: nat, idx: seq<nat>)
    requires n <= |s| && InRange(idx, n)
    ensures Select(s, idx) == Select(s[..n], idx)
  {
  }

  /** Items picked at distinct positions form a sub-multiset of the sequence. */
  lemma {:induction false} SelectSubMultiset<T>(s: seq<T>, idx: seq<nat>)
    requires InRange(idx, |s|) && Distinct(idx)
    ensures multiset(Select(s, idx)) <= multiset(s)
    decreases |s|
  {
    if idx == [] {
      assert Select(s, idx) == [];
    } else if |s| - 1 in idx {
      var k :| 0 <= k < |idx| && idx[k] == |s| - 1;
      SelectSubMultisetLast(s, idx, k);
    } else {
      assert idx[0] < |s|;
      var n := |s| - 1;
      assert forall i :: 0 <= i < |idx| ==> idx[i] in idx;
      assert InRange(idx, n);
      SelectSubMultiset(s[..n], idx);
      SelectPrefix(s, n, idx);
      assert s == s[..n] + [s[n]];
    }
  }

  /** The step of `SelectSubMultiset` where the last position of `s` is picked, as `idx[k]`. */
  lemma {:induction false} SelectSubMultisetLast<T>(s: seq<T>, idx: seq<nat>, k: nat)
    requires InRange(idx, |s|) && Distinct(idx)
    requires k < |idx| && idx[k] == |s| - 1
    ensures multiset(Select(s, idx)) <= multiset(s)
    decreases |s|, 0
  {
    var n := |s| - 1;
    var t := s[..n];
    var left, right := idx[..k], idx[k + 1..];
    RemoveLast(idx, k, n);
    SelectSubMultiset(t, left + right);
    SelectAppend(t, left, right);
    SelectAround(s, left, right);
    assert s == t + [s[n]];
  }

  /** Taking out the pick of the last position leaves distinct picks of the others. */
  lemma RemoveLast(idx: seq<nat>, k: nat, n: nat)
    requires InRange(idx, n + 1) && Distinct(idx) && k < |idx| && idx[k] == n
    ensures idx == idx[..k] + [n] + idx[k + 1..]
    ensures InRange(idx[..k], n) && InRange(idx[k + 1..], n)
    ensures InRange(idx[..k] + idx[k + 1..], n) && Distinct(idx[..k] + idx[k + 1..])
  {
    var rest := idx[..k] + idx[k + 1..];
    assert forall i :: 0 <= i < |idx| && i != k ==> idx[i] < n by {
      forall i | 0 <= i < |idx| && i != k
        ensures idx[i] < n
      {
        assert idx[i] != idx[k];
      }
    }
    // position `i` of `rest` is position `Skip(i, k)` of `idx`
    assert forall i :: 0 <= i < |rest| ==> rest[i] == idx[Skip(i, k)];
    forall i, j | 0 <= i < j < |rest|
      ensures rest[i] != rest[j]
    {
      assert Skip(i, k) < Skip(j, k);
    }
  }

  function Skip(i: nat, k: nat): nat
  {
    if i < k then i else i + 1
  }

  /** Picking the last item between two picks from the rest. */
  lemma SelectAround<T>(s: seq<T>, left: seq<nat>, right: seq<nat>)
    requires |s| >= 1 && InRange(left, |s| - 1) && InRange(right, |s| - 1)
    ensures var n := |s| - 1;
            InRange(left + [n] + right, |s|)
            && Select(s, left + [n] + right) == Select(s[..n], left) + [s[n]] + Select(s[..n], right)
  {
    var n := |s| - 1;
    SelectAppend(s, left + [n], right);
    SelectAppend(s, left, [n]);
    SelectPrefix(s, n, left);
    SelectPrefix(s, n, right);
    assert Select(s, [n]) == [s[n]];
  }

  lemma EqualSizeSubMultiset<T>(a: multiset<T>, b: multiset<T>)
    requires a <= b && |a| == |b|
    ensures a == b
  {
    assert b == a + (b - a);
    assert |b - a| == 0;
  }

  /** A shuffle rearranges the cards and loses or adds none. */
  lemma PermutationPreservesMultiset<T>(s: seq<T>, perm: seq<nat>)
    requires IsPermutation(perm, |s|)
    ensures multiset(Select(s, perm)) == multiset(s)
  {
    SelectSubMultiset(s, perm);
    EqualSizeSubMultiset(multiset(Select(s, perm)), multiset(s));
  }

  /** The deck is a permutation of the sampled truths followed by the sampled dares. */
  lemma GenerateCardsIsPermutation(total: int, truths: seq<string>, dares: seq<string>, draw: Draw)
    requires total % 2 == 0 && total >= 0 && |truths| > 0 && |dares| > 0
    requires DrawFits(draw, total, truths, dares)
    ensures GenerateCards(total, truths, dares, draw).Success?
    ensures multiset(GenerateCards(total, truths, dares, draw).value) == multiset(Unshuffled(total, truths, dares, draw))
  {
    PermutationPreservesMultiset(Unshuffled(total, truths, dares, draw), draw.order);
  }

  /** A successful deck has exactly `total / 2` truths and `total / 2` dares. */
  lemma GenerateCardsCounts(total: int, truths: seq<string>, dares: seq<string>, draw: Draw)
    requires Drawable(total, truths, dares, draw)
    requires GenerateCards(total, truths, dares, draw).Success?
    ensures var deck := GenerateCards(total, truths, dares, draw).value;
            Count(deck, Truth) == total / 2 && Count(deck, Dare) == total / 2
  {
    var k := total / 2;
    var deck := GenerateCards(total, truths, dares, draw).value;
    var selT := Select(Pool(truths, k), draw.truthPicks);
    var selD := Select(Pool(dares, k), draw.darePicks);
    GenerateCardsIsPermutation(total, truths, dares, draw);
    forall c: Category ensures Count(deck, c) == Count(Unshuffled(total, truths, dares, draw), c) == k {
      CountOfPermutation(deck, Unshuffled(total, truths, dares, draw), c);
      CountAppend(Tagged(Truth, selT), Tagged(Dare, selD), c);
      CountTagged(Truth, selT, c);
      CountTagged(Dare, selD, c);
    }
  }

  lemma {:induction false} RepeatMultiset(xs: seq<string>, n: nat, q: string)
    ensures multiset(Repeat(xs, n))[q] == n * multiset(xs)[q]
  {
    if n > 0 {
      RepeatMultiset(xs, n - 1, q);
      var m := multiset(xs)[q];
      assert multiset(Repeat(xs, n)) == multiset(Repeat(xs, n - 1)) + multiset(xs);
      assert multiset(Repeat(xs, n))[q] == (n - 1) * m + m;
    }
  }

  /** The pool holds `copies` occurrences of the question for each occurrence in its list. */
  lemma PoolMultiset(list: seq<string>, k: int, q: string)
    requires |list| > 0 && k >= 0
    ensures multiset(Pool(list, k))[q] == Copies(k, |list|) * multiset(list)[q]
  {
    RepeatMultiset(list, Copies(k, |list|), q);
  }

  lemma {:induction false} TaggedMultiset(category: Category, qs: seq<string>, c: Category, q: string)
    ensures multiset(Tagged(category, qs))[Card(c, q)] == if c == category then multiset(qs)[q] else 0
  {
    if qs != [] {
      assert Tagged(category, qs) == [Card(category, qs[0])] + Tagged(category, qs[1..]);
      assert qs == [qs[0]] + qs[1..];
      TaggedMultiset(category, qs[1..], c, q);
    }
  }

  /** Occurrences of a card in the deck are occurrences of its question in the pool it was sampled from. */
  lemma DeckMultiplicity(total: int, truths: seq<string>, dares: seq<string>, draw: Draw, q: string)
    requires total % 2 == 0 && total >= 0 && |truths| > 0 && |dares| > 0
    requires DrawFits(draw, total, truths, dares)
    ensures var deck := GenerateCards(total, truths, dares, draw).value;
            var k := total / 2;
            && multiset(deck)[Card(Truth, q)] <= multiset(Pool(truths, k))[q]
            && multiset(deck)[Card(Dare, q)] <= multiset(Pool(dares, k))[q]
  {
    var k := total / 2;
    var selT := Select(Pool(truths, k), draw.truthPicks);
    var selD := Select(Pool(dares, k), draw.darePicks);
    GenerateCardsIsPermutation(total, truths, dares, draw);
    SelectSubMultiset(Pool(truths, k), draw.truthPicks);
    SelectSubMultiset(Pool(dares, k), draw.darePicks);
    forall c: Category ensures multiset(Unshuffled(total, truths, dares, draw))[Card(c, q)]
                             == multiset(if c == Truth then selT else selD)[q] {
      TaggedMultiset(Truth, selT, c, q);
      TaggedMultiset(Dare, selD, c, q);
    }
  }

  /** The question list a category's cards are drawn from. */
  function Source(category: Category, truths: seq<string>, dares: seq<string>): seq<string>
  {
    if category == Truth then truths else dares
  }

  /**
   * No fabricated text: a card of a category holds an entry of that
   * category's list, and an entry occurring m times in its list appears at
   * most m * (total / 2 // len + 1) times in its category (at most the number
   * of copies when the list has no duplicates).
   */
  lemma GenerateCardsOrigin(total: int, truths: seq<string>, dares: seq<string>, draw: Draw, c: Category, q: string)
    requires total % 2 == 0 && total >= 0 && |truths| > 0 && |dares| > 0
    requires DrawFits(draw, total, truths, dares)
    ensures var deck := GenerateCards(total, truths, dares, draw).value;
            var list := Source(c, truths, dares);
            && multiset(deck)[Card(c, q)] <= Copies(total / 2, |list|) * multiset(list)[q]
            && (Card(c, q) in deck ==> q in list)
  {
    DeckMultiplicity(total, truths, dares, draw, q);
    PoolMultiset(Source(c, truths, dares), total / 2, q);
  }

  /** Every card of the deck is a truth from `truths` or a dare from `dares`. */
  lemma GenerateCardsSources(total: int, truths: seq<string>, dares: seq<string>, draw: Draw)
    requires total % 2 == 0 && total >= 0 && |truths| > 0 && |dares| > 0
    requires DrawFits(draw, total, truths, dares)
    ensures var deck := GenerateCards(total, truths, dares, draw).value;
            forall i :: 0 <= i < |deck| ==>
              (deck[i].category == Truth ==> deck[i].question in truths)
              && (deck[i].category == Dare ==> deck[i].question in dares)
  {
    var deck := GenerateCards(total, truths, dares, draw).value;
    forall i | 0 <= i < |deck|
      ensures deck[i].category == Truth ==> deck[i].question in truths
      ensures deck[i].category == Dare ==> deck[i].question in dares
    {
      assert deck[i] in deck;
      GenerateCardsOrigin(total, truths, dares, draw, deck[i].category, deck[i].question);
    }
  }
}
