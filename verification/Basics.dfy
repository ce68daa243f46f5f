/** Optional values, and sequences seen as sets. */
module Basics {
  datatype Option<+T> = None | Some(value: T)

  function ToSet<T>(s: seq<T>): set<T> { set x | x in s }

  lemma ToSetPrefix<T>(s: seq<T>, i: nat)
    requires i < |s|
    ensures ToSet(s[..i + 1]) == ToSet(s[..i]) + {s[i]}
  {
    assert s[..i + 1] == s[..i] + [s[i]];
  }

  lemma ToSetAll<T>(s: seq<T>)
    ensures ToSet(s[..|s|]) == ToSet(s)
    ensures ToSet(s[..0]) == {}
  {
    assert s[..|s|] == s;
  }

  lemma ToSetConcat<T>(a: seq<T>, b: seq<T>)
    ensures ToSet(a + b) == ToSet(a) + ToSet(b)
  {
  }

  lemma NoneIn<T>(s: seq<T>)
    ensures ToSet(s) == {} <==> s == []
  {
    assert s != [] ==> s[0] in ToSet(s);
  }

  /** The elements of a set, in some order. */
  method SeqOf<T(==)>(s: set<T>) returns (q: seq<T>)
    ensures forall x :: x in q <==> x in s
    ensures forall i, j :: 0 <= i < j < |q| ==> q[i] != q[j]
  {
    q := [];
    var rest := s;
    while rest != {}
      invariant rest <= s
      invariant forall x :: x in q <==> x in s && x !in rest
      invariant forall i, j :: 0 <= i < j < |q| ==> q[i] != q[j]
    {
      var x :| x in rest;
      q, rest := q + [x], rest - {x};
    }
  }
}
