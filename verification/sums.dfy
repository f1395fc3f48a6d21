// Sums over the elements of a sequence.
module Sums {

  function Sum<T>(f: T -> nat, s: seq<T>): nat {
    if s == [] then 0 else Sum(f, s[..|s| - 1]) + f(s[|s| - 1])
  }

  lemma {:induction false} SumUpdate<T>(f: T -> nat, s: seq<T>, i: nat, x: T)
    requires i < |s|
    ensures Sum(f, s[i := x]) == Sum(f, s) - f(s[i]) + f(x)
    decreases |s|
  {
    var init := s[..|s| - 1];
    if i == |s| - 1 {
      assert s[i := x][..|s| - 1] == init;
    } else {
      assert s[i := x][..|s| - 1] == init[i := x];
      SumUpdate(f, init, i, x);
    }
  }

  lemma {:induction false} SumEqual<T>(f: T -> nat, s: seq<T>, c: nat)
    requires c <= 1 && forall i :: 0 <= i < |s| ==> f(s[i]) == c
    ensures Sum(f, s) == if c == 0 then 0 else |s|
    decreases |s|
  {
    if s != [] { SumEqual(f, s[..|s| - 1], c); }
  }
}
