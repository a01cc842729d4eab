/** The 7-bag randomiser: a bag is a shuffled copy of the seven kinds, drawn
    from its end and refilled when empty. */
module Bag {
  import opened Shapes

  /** A freshly refilled bag: every kind exactly once, in some order. */
  predicate IsFullBag(b: seq<Kind>) {
    multiset(b) == multiset(Kinds)
  }

  /** What is left of a bag after some draws: each kind at most once. */
  predicate IsPartialBag(b: seq<Kind>) {
    multiset(b) <= multiset(Kinds)
  }

  lemma KindsOnceEach(k: Kind)
    ensures multiset(Kinds)[k] == 1
  {
    match k
    case I =>
    case O =>
    case T =>
    case S =>
    case Z =>
    case J =>
    case L =>
  }

  /** Exchanging two elements permutes a sequence. */
  lemma SwapKeepsMultiset(s: seq<Kind>, i: nat, j: nat)
    requires i < |s| && j < |s|
    ensures multiset(s[i := s[j]][j := s[i]]) == multiset(s)
  {
  }

  /** The refill: copy the kinds and apply Fisher-Yates swaps from the last
      index down to 1, swapping index i with a freely chosen j in 0..i (the
      source draws j from a random number). The result is a permutation of
      the seven kinds. */
  method Refill() returns (bag: seq<Kind>)
    ensures IsFullBag(bag)
    ensures |bag| == |Kinds|
  {
    var a := new Kind[|Kinds|](n requires 0 <= n < |Kinds| => Kinds[n]);
    assert a[..] == Kinds;
    var i := a.Length - 1;
    while i > 0
      invariant 0 <= i < a.Length
      invariant multiset(a[..]) == multiset(Kinds)
    {
      var j :| 0 <= j <= i;
      ghost var before := a[..];
      a[i], a[j] := a[j], a[i];
      assert a[..] == before[i := before[j]][j := before[i]];
      SwapKeepsMultiset(before, i, j);
      i := i - 1;
    }
    bag := a[..];
  }

  /** A full bag holds exactly seven kinds. */
  lemma FullBagSize(b: seq<Kind>)
    requires IsFullBag(b)
    ensures |b| == |Kinds|
  {
    assert |b| == |multiset(b)| == |multiset(Kinds)| == |Kinds|;
  }

  /** Popping the last element splits the multiset of a sequence. */
  lemma PopLast(s: seq<Kind>)
    requires |s| > 0
    ensures multiset(s[..|s| - 1]) + multiset{s[|s| - 1]} == multiset(s)
  {
    assert s == s[..|s| - 1] + [s[|s| - 1]];
  }

  /** The generator's next value: when the bag is empty it is replaced by
      `refill` (the shuffled copy the refill produces); the last element is
      popped and returned with what remains. */
  function Draw(bag: seq<Kind>, refill: seq<Kind>): (d: (Kind, seq<Kind>))
    requires |bag| > 0 || IsFullBag(refill)
    ensures var from := if |bag| == 0 then refill else bag;
      |from| > 0 && d.0 == from[|from| - 1] && d.1 == from[..|from| - 1]
    ensures multiset(d.1) + multiset{d.0} == multiset(if |bag| == 0 then refill else bag)
  {
    if |bag| == 0 then
      FullBagSize(refill);
      PopLast(refill);
      (refill[|refill| - 1], refill[..|refill| - 1])
    else
      PopLast(bag);
      (bag[|bag| - 1], bag[..|bag| - 1])
  }

  /** Drawing keeps the remaining bag a partial bag. */
  lemma DrawKeepsPartial(bag: seq<Kind>, refill: seq<Kind>)
    requires IsPartialBag(bag)
    requires |bag| > 0 || IsFullBag(refill)
    ensures IsPartialBag(Draw(bag, refill).1)
  {
  }

  /** n successive draws, every refill using the same shuffled copy. */
  function Draws(bag: seq<Kind>, refill: seq<Kind>, n: nat): (r: (seq<Kind>, seq<Kind>))
    requires IsFullBag(refill)
    ensures |r.0| == n
    decreases n
  {
    if n == 0 then ([], bag)
    else
      var d := Draw(bag, refill);
      var rest := Draws(d.1, refill, n - 1);
      ([d.0] + rest.0, rest.1)
  }

  function Reverse(s: seq<Kind>): (r: seq<Kind>)
    ensures |r| == |s|
  {
    if |s| == 0 then [] else [s[|s| - 1]] + Reverse(s[..|s| - 1])
  }

  lemma {:induction false} ReverseMultiset(s: seq<Kind>)
    ensures multiset(Reverse(s)) == multiset(s)
  {
    if |s| > 0 {
      ReverseMultiset(s[..|s| - 1]);
      assert s == s[..|s| - 1] + [s[|s| - 1]];
    }
  }

  /** Draining a bag yields its elements from last to first and leaves it
      empty, without consulting the refill. */
  lemma {:induction false} DrainBag(bag: seq<Kind>, refill: seq<Kind>)
    requires IsFullBag(refill)
    ensures Draws(bag, refill, |bag|) == (Reverse(bag), [])
  {
    if |bag| > 0 {
      var d := Draw(bag, refill);
      assert d.1 == bag[..|bag| - 1];
      DrainBag(d.1, refill);
    }
  }

  /** From an empty bag, as many draws as the refill holds yield the refill
      from last to first. */
  lemma DrawsFromEmpty(refill: seq<Kind>)
    requires IsFullBag(refill)
    requires |refill| > 0
    ensures Draws([], refill, |refill|) == (Reverse(refill), [])
  {
    var d := Draw([], refill);
    DrainBag(d.1, refill);
  }

  /** The 7-bag guarantee: the seven draws that start from an empty bag are
      a permutation of the seven kinds, each kind appearing exactly once, and
      they leave the bag empty again. */
  lemma FreshBagDrawsEachKindOnce(refill: seq<Kind>)
    requires IsFullBag(refill)
    ensures var r := Draws([], refill, 7);
      r.1 == [] && forall k: Kind :: multiset(r.0)[k] == 1
  {
    FullBagSize(refill);
    DrawsFromEmpty(refill);
    ReverseMultiset(refill);
    forall k: Kind
      ensures multiset(Draws([], refill, 7).0)[k] == 1
    {
      KindsOnceEach(k);
    }
  }
}
