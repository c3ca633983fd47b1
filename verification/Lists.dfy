/** Counting and adding up over sequences: what the protocols' counters and progress measures need. */
module Lists {

  /** How many elements of xs satisfy p. */
  function Count<T>(p: T -> bool, xs: seq<T>): (n: nat)
    ensures n <= |xs|
  {
    if xs == [] then 0 else (if p(xs[0]) then 1 else 0) + Count(p, xs[1..])
  }

  /** Changing one element changes the count by that element alone. */
  lemma {:induction false} CountUpdate<T>(p: T -> bool, xs: seq<T>, i: nat, x: T)
    requires i < |xs|
    ensures Count(p, xs[i := x]) == Count(p, xs) - (if p(xs[i]) then 1 else 0) + (if p(x) then 1 else 0)
  {
    if i == 0 {
      assert xs[0 := x][1..] == xs[1..];
    } else {
      CountUpdate(p, xs[1..], i - 1, x);
      assert xs[i := x][1..] == xs[1..][i - 1 := x];
    }
  }

  lemma {:induction false} CountAll<T>(p: T -> bool, xs: seq<T>)
    ensures Count(p, xs) == |xs| <==> forall i :: 0 <= i < |xs| ==> p(xs[i])
  {
    if xs != [] {
      CountAll(p, xs[1..]);
      if forall i :: 0 <= i < |xs| ==> p(xs[i]) {
        forall i | 0 <= i < |xs[1..]| ensures p(xs[1..][i]) { assert xs[1..][i] == xs[i + 1]; }
      }
      if Count(p, xs) == |xs| {
        forall i | 0 <= i < |xs| ensures p(xs[i]) { if i > 0 { assert xs[i] == xs[1..][i - 1]; } }
      }
    }
  }

  lemma {:induction false} CountNone<T>(p: T -> bool, xs: seq<T>)
    ensures Count(p, xs) == 0 <==> forall i :: 0 <= i < |xs| ==> !p(xs[i])
  {
    if xs != [] {
      CountNone(p, xs[1..]);
      if forall i :: 0 <= i < |xs| ==> !p(xs[i]) {
        forall i | 0 <= i < |xs[1..]| ensures !p(xs[1..][i]) { assert xs[1..][i] == xs[i + 1]; }
      }
      if Count(p, xs) == 0 {
        forall i | 0 <= i < |xs| ensures !p(xs[i]) { if i > 0 { assert xs[i] == xs[1..][i - 1]; } }
      }
    }
  }

  /** The sum of the weights of the elements. */
  function Sum<T>(w: T -> nat, xs: seq<T>): (n: nat)
  {
    if xs == [] then 0 else w(xs[0]) + Sum(w, xs[1..])
  }

  lemma {:induction false} SumUpdate<T>(w: T -> nat, xs: seq<T>, i: nat, x: T)
    requires i < |xs|
    ensures Sum(w, xs[i := x]) == Sum(w, xs) - w(xs[i]) + w(x)
  {
    if i == 0 {
      assert xs[0 := x][1..] == xs[1..];
    } else {
      SumUpdate(w, xs[1..], i - 1, x);
      assert xs[i := x][1..] == xs[1..][i - 1 := x];
    }
  }

  /** Element-wise growth by at most one grows the sum by at most the length. */
  lemma {:induction false} SumGrowth<T>(w: T -> nat, xs: seq<T>, ys: seq<T>)
    requires |xs| == |ys|
    requires forall i :: 0 <= i < |xs| ==> w(ys[i]) <= w(xs[i]) + 1
    ensures Sum(w, ys) <= Sum(w, xs) + |xs|
  {
    if xs != [] {
      forall i | 0 <= i < |xs[1..]| ensures w(ys[1..][i]) <= w(xs[1..][i]) + 1 {
        assert xs[1..][i] == xs[i + 1] && ys[1..][i] == ys[i + 1];
      }
      SumGrowth(w, xs[1..], ys[1..]);
    }
  }
}
