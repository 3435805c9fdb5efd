/** Facts about concatenation that the solver needs spelled out. */
module Seqs {
  lemma SplitLast<T>(a: seq<T>, b: seq<T>)
    requires b != []
    ensures a + b[..|b| - 1] + [b[|b| - 1]] == a + b && b[..|b| - 1] + [b[|b| - 1]] == b
  {
  }

  lemma SeqAssoc<T>(a: seq<T>, b: seq<T>, c: seq<T>)
    ensures a + b + c == a + (b + c)
  {
  }

  lemma SplitAt<T>(s: seq<T>, i: nat)
    requires i < |s|
    ensures s == s[..i] + [s[i]] + s[i + 1..]
  {
  }

  lemma IndexPast<T>(a: seq<T>, b: seq<T>, c: seq<T>, k: nat)
    requires k < |b|
    ensures (a + b + c)[|a| + k] == b[k] && (a + b + c)[..|a| + k] == a + b[..k]
  {
  }

  lemma SpliceIn<T>(a: seq<T>, b: seq<T>, c: seq<T>, q: nat, x: T)
    requires q <= |b|
    ensures var es := a + b + c; es[..|a| + q] + [x] + es[|a| + q..] == a + (b[..q] + [x] + b[q..]) + c
  {
    var es := a + b + c;
    assert es[..|a| + q] == a + b[..q] && es[|a| + q..] == b[q..] + c;
  }

  lemma SpliceOne<T>(a: seq<T>, b: seq<T>, c: seq<T>, q: nat, x: T)
    requires q < |b|
    ensures var es := a + b + c; es[|a| + q := x] == a + b[q := x] + c && es[|a| + q] == b[q]
    ensures var es := a + b + c; es[..|a| + q] + es[|a| + q + 1..] == a + (b[..q] + b[q + 1..]) + c
  {
    var es := a + b + c;
    assert es[..|a| + q] == a + b[..q] && es[|a| + q + 1..] == b[q + 1..] + c;
  }
}
