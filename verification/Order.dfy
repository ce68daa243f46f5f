/** Strings in the order the stores list them (sort.Strings over names made of
    ASCII characters), and sorting without repeats. */
module Order {
  import opened Basics

  predicate Less(a: string, b: string) {
    b != "" && (a == "" || a[0] < b[0] || (a[0] == b[0] && Less(a[1..], b[1..])))
  }

  lemma {:induction false} LessTransitive(a: string, b: string, c: string)
    requires Less(a, b) && Less(b, c)
    ensures Less(a, c)
  {
    if a != "" && a[0] == b[0] == c[0] { LessTransitive(a[1..], b[1..], c[1..]); }
  }

  lemma {:induction false} LessTotal(a: string, b: string)
    ensures a == b || Less(a, b) || Less(b, a)
    ensures !(Less(a, b) && Less(b, a)) && !Less(a, a)
  {
    if a != "" && b != "" {
      LessTotal(a[1..], b[1..]);
      LessTotal(a[1..], a[1..]);
      assert a == [a[0]] + a[1..] && b == [b[0]] + b[1..];
    } else if a != "" {
      LessTotal(a[1..], a[1..]);
    }
  }

  ghost predicate Sorted(s: seq<string>) { forall i, j | 0 <= i < j < |s| :: Less(s[i], s[j]) }

  function Insert(s: seq<string>, x: string): (r: seq<string>)
    ensures ToSet(r) == ToSet(s) + {x}
  {
    if s == [] then [x]
    else if x == s[0] then s
    else if Less(x, s[0]) then [x] + s
    else var r := [s[0]] + Insert(s[1..], x);
      assert s == [s[0]] + s[1..];
      assert ToSet(r) == {s[0]} + ToSet(Insert(s[1..], x));
      r
  }

  lemma {:induction false} InsertSorted(s: seq<string>, x: string)
    requires Sorted(s)
    ensures Sorted(Insert(s, x))
  {
    if s != [] && x != s[0] {
      LessTotal(x, s[0]);
      if Less(x, s[0]) {
        forall j | 1 <= j < |s| ensures Less(x, s[j]) { LessTransitive(x, s[0], s[j]); }
      } else {
        InsertSorted(s[1..], x);
        var rest := Insert(s[1..], x);
        forall j | 0 <= j < |rest| ensures Less(s[0], rest[j]) {
          assert rest[j] in ToSet(rest);
          assert rest[j] in s[1..] || rest[j] == x;
        }
      }
    }
  }

  /** A sorted sequence is determined by its elements. */
  lemma {:induction false} SortedUnique(a: seq<string>, b: seq<string>)
    requires Sorted(a) && Sorted(b) && ToSet(a) == ToSet(b)
    ensures a == b
    decreases |a|
  {
    assert b != [] ==> b[0] in ToSet(a);
    assert a != [] ==> a[0] in ToSet(b);
    if a != [] {
      var i :| 0 <= i < |b| && b[i] == a[0];
      var j :| 0 <= j < |a| && a[j] == b[0];
      LessTotal(a[0], b[0]);
      Tail(a);
      Tail(b);
      SortedUnique(a[1..], b[1..]);
      assert a == [a[0]] + a[1..] && b == [b[0]] + b[1..];
    }
  }

  lemma Tail(a: seq<string>)
    requires Sorted(a) && a != []
    ensures ToSet(a[1..]) == ToSet(a) - {a[0]}
  {
    assert a == [a[0]] + a[1..];
    if a[0] in a[1..] {
      var j :| 0 <= j < |a[1..]| && a[1..][j] == a[0];
      assert Less(a[0], a[j + 1]);
      LessTotal(a[0], a[0]);
    }
  }

  /** The elements of a set, in order. */
  ghost function SortedSet(s: set<string>): (r: seq<string>)
    ensures Sorted(r) && ToSet(r) == s
  {
    if s == {} then [] else
    var x :| x in s;
    var rest := SortedSet(s - {x});
    InsertSorted(rest, x);
    Insert(rest, x)
  }
}
