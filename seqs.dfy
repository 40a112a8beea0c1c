/** Facts about sequence concatenation, stated once for any element type. */
module Seqs {

  lemma SplitAt<T>(s: seq<T>, k: nat)
    requires k <= |s|
    ensures s == s[..k] + s[k..]
  {
  }

  lemma AppendAssoc<T>(a: seq<T>, b: seq<T>, c: seq<T>)
    ensures (a + b) + c == a + (b + c)
  {
  }

  lemma EmptyAppend<T>(b: seq<T>)
    ensures [] + b == b
  {
  }

  lemma ConsTail<T>(x: T, b: seq<T>)
    ensures ([x] + b)[0] == x && ([x] + b)[1..] == b
  {
  }

  lemma AppendTail<T>(a: seq<T>, b: seq<T>)
    requires a != []
    ensures (a + b)[0] == a[0] && (a + b)[1..] == a[1..] + b
  {
  }

  lemma SliceTail<T>(t: seq<T>, k: nat)
    requires t != [] && k < |t|
    ensures t[..k + 1] == [t[0]] + t[1..][..k] && t[k + 1..] == t[1..][k..]
  {
  }

  lemma SliceEnds<T>(t: seq<T>)
    ensures t[..0] == [] && t[0..] == t
  {
  }
}
