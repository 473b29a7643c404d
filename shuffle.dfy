/**
 * The list shuffle the reordering relies on, as the language's runtime does
 * it: a Fisher-Yates pass from the back, where step i swaps x[i] with
 * x[randbelow(i + 1)]. The random source is a parameter: any function that
 * answers below its bound. Each step asks with a different bound, so such a
 * function can dictate every sequence of draws, and hence every permutation.
 */
module RandomShuffle {

  /** `randBelow(n)` is some number in 0..n-1 whenever n > 0. */
  ghost predicate IsRandBelow(randBelow: nat -> nat)
  {
    forall n: nat :: 0 < n ==> randBelow(n) < n
  }

  /** Shuffles `x` in place: afterwards it holds the same elements, in some order. */
  method Shuffle<T>(x: array<T>, randBelow: nat -> nat)
    requires IsRandBelow(randBelow)
    modifies x
    ensures multiset(x[..]) == multiset(old(x[..]))
    ensures x.Length <= 1 ==> x[..] == old(x[..])
  {
    var i := x.Length - 1;
    while i >= 1
      invariant -1 <= i < x.Length
      invariant multiset(x[..]) == multiset(old(x[..]))
      invariant x.Length <= 1 ==> x[..] == old(x[..])
    {
      // x[i + 1..] is settled; x[i] trades places with a draw from x[..i + 1]
      var j := randBelow(i + 1);
      x[i], x[j] := x[j], x[i];
      i := i - 1;
    }
  }
}
