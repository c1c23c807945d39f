/** Facts about sequences that the proofs use by name. */
module Seqs {

  lemma Assoc<T>(a: seq<T>, b: seq<T>, c: seq<T>)
    ensures (a + b) + c == a + (b + c)
  {
  }

  lemma IndexBehind<T>(a: seq<T>, b: seq<T>, k: nat)
    requires k < |b|
    ensures (a + b)[|a| + k] == b[k] && (a + b)[|a| + k + 1..] == b[k + 1..]
  {
  }

  lemma DropBehind<T>(a: seq<T>, b: seq<T>)
    ensures (a + b)[|a|..] == b && (a + b)[..|a|] == a
  {
  }

  lemma SplitAt<T>(s: seq<T>, k: nat)
    requires k < |s|
    ensures s == s[..k] + ([s[k]] + s[k + 1..])
  {
  }

  lemma AssocBehindFirst<T>(a: seq<T>, t: T, b: seq<T>, c: seq<T>)
    ensures a + ([t] + (b + c)) == a + ([t] + b) + c
  {
  }

  lemma ConsBefore<T>(t: T, a: seq<T>, b: seq<T>)
    ensures var s := [t] + a + b; s != [] && s[0] == t && s[1..] == a + b
  {
  }
}
