/** Lists with one element taken out. */
module Lists {
  function Without<T>(xs: seq<T>, i: nat): seq<T>
    requires i < |xs|
  {
    xs[..i] + xs[i + 1..]
  }

  lemma WithoutCons<T>(xs: seq<T>, i: nat)
    requires 0 < i < |xs|
    ensures Without(xs, i) == [xs[0]] + Without(xs[1..], i - 1)
  {
  }

  lemma Middle<T>(a: seq<T>, x: T, b: seq<T>)
    ensures var all := a + ([x] + b);
            && all[|a|] == x && Without(all, |a|) == a + b && all == (a + [x]) + b && (a + []) + b == a + b
  {
  }
}
