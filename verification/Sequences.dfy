/** Regrouping sequences that are put together and taken apart. */
module Sequences {

  lemma {:induction false} Regrouped<T>(a: seq<T>, b: seq<T>, c: seq<T>)
    ensures a + b + c == a + (b + c)
  {
  }

  lemma {:induction false} RegroupedFour<T>(a: seq<T>, b: seq<T>, c: seq<T>, d: seq<T>)
    ensures a + b + c + d == a + (b + c + d)
  {
  }

  lemma {:induction false} NothingBefore<T>(a: seq<T>)
    ensures [] + a == a
  {
  }

  lemma {:induction false} NothingAfter<T>(a: seq<T>)
    ensures a + [] == a
  {
  }

  lemma {:induction false} Joined<T>(s: seq<T>, i: nat, j: nat, k: nat)
    requires i <= j <= k <= |s|
    ensures s[i..j] + s[j..k] == s[i..k]
  {
  }
}
