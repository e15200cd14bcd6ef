/** Facts about slices, stated once so that proofs need not search for them, and lists built after lists. */
module Sequences {
  import opened Types

  /** The second list after the first once both are there, or the earlier failure. */
  function Then<T, E>(first: Result<seq<T>, E>, rest: Result<seq<T>, E>): Result<seq<T>, E> {
    if first.Err? then first
    else if rest.Err? then rest
    else Ok(first.value + rest.value)
  }

  lemma ThenNothing<T, E>(r: Result<seq<T>, E>)
    ensures Then(r, Ok([])) == r && Then(Ok([]), r) == r
  {
    if r.Ok? { assert r.value + [] == r.value && [] + r.value == r.value; }
  }

  lemma ThenAssoc<T, E>(a: Result<seq<T>, E>, b: Result<seq<T>, E>, c: Result<seq<T>, E>)
    ensures Then(Then(a, b), c) == Then(a, Then(b, c))
  {
    if a.Ok? && b.Ok? && c.Ok? { assert (a.value + b.value) + c.value == a.value + (b.value + c.value); }
  }

  lemma Assoc<T>(a: seq<T>, b: seq<T>, c: seq<T>)
    ensures (a + b) + c == a + (b + c)
  {
  }

  lemma DropTwice<T>(s: seq<T>, i: nat, j: nat)
    requires i + j <= |s|
    ensures s[i..][j..] == s[i + j..]
  {
  }

  lemma SplitAt<T>(s: seq<T>, i: nat, k: nat)
    requires i <= k <= |s|
    ensures s[i..] == s[i..k] + s[k..]
  {
  }

  lemma WholeSlice<T>(s: seq<T>)
    ensures s[..|s|] == s && s[0..] == s
    ensures forall i | 0 <= i <= |s| :: s[i..|s|] == s[i..]
  {
  }

  lemma SnocSlice<T>(s: seq<T>, i: nat, k: nat)
    requires i < k <= |s|
    ensures s[i..k] == s[i..k - 1] + [s[k - 1]]
    ensures s[i..k][..k - 1 - i] == s[i..k - 1]
  {
  }
}
