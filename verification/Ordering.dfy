/** The order of strings by code point, and sorting by it. */
module Ordering {

  predicate AtMost(a: string, b: string)
  {
    a == "" || (b != "" && (a[0] < b[0] || (a[0] == b[0] && AtMost(a[1..], b[1..]))))
  }

  lemma {:induction false} Antisymmetric(a: string, b: string)
    requires AtMost(a, b) && AtMost(b, a)
    ensures a == b
  {
    if a != "" {
      Antisymmetric(a[1..], b[1..]);
      assert a == [a[0]] + a[1..] && b == [b[0]] + b[1..];
    }
  }

  lemma {:induction false} Transitive(a: string, b: string, c: string)
    requires AtMost(a, b) && AtMost(b, c)
    ensures AtMost(a, c)
  {
    if a != "" && a[0] == b[0] && b[0] == c[0] {
      Transitive(a[1..], b[1..], c[1..]);
    }
  }

  lemma {:induction false} Total(a: string, b: string)
    ensures AtMost(a, b) || AtMost(b, a)
  {
    if a != "" && b != "" && a[0] == b[0] {
      Total(a[1..], b[1..]);
    }
  }

  predicate Ascending(s: seq<string>)
  {
    forall i, j :: 0 <= i < j < |s| ==> AtMost(s[i], s[j])
  }

  function Insert(x: string, s: seq<string>): (r: seq<string>)
    ensures multiset(r) == multiset(s) + multiset{x}
  {
    if s == [] || AtMost(x, s[0]) then [x] + s
    else
      assert s == [s[0]] + s[1..];
      [s[0]] + Insert(x, s[1..])
  }

  lemma {:induction false} InsertKeepsOrder(x: string, s: seq<string>)
    requires Ascending(s)
    ensures Ascending(Insert(x, s))
  {
    if s == [] {
    } else if AtMost(x, s[0]) {
      forall j | 0 <= j < |s|
        ensures AtMost(x, s[j])
      {
        if j > 0 { Transitive(x, s[0], s[j]); }
      }
    } else {
      Total(x, s[0]);
      InsertKeepsOrder(x, s[1..]);
      var r := Insert(x, s[1..]);
      forall j | 0 <= j < |r|
        ensures AtMost(s[0], r[j])
      {
        assert r[j] in multiset(r);
        assert r[j] in multiset(s[1..]) || r[j] == x;
      }
    }
  }

  /** What `sorted` returns for a list of strings. */
  function Sorted(s: seq<string>): (r: seq<string>)
    ensures multiset(r) == multiset(s)
  {
    if s == [] then [] else
      assert s == [s[0]] + s[1..];
      Insert(s[0], Sorted(s[1..]))
  }

  lemma {:induction false} SortedAscends(s: seq<string>)
    ensures Ascending(Sorted(s))
  {
    if s != [] {
      SortedAscends(s[1..]);
      InsertKeepsOrder(s[0], Sorted(s[1..]));
    }
  }

  /** An ascending arrangement is determined by what it holds. */
  lemma {:induction false} AscendingIsUnique(s: seq<string>, t: seq<string>)
    requires Ascending(s) && Ascending(t) && multiset(s) == multiset(t)
    ensures s == t
  {
    if s == [] {
      assert |multiset(t)| == 0;
    } else {
      assert |multiset(s)| == |s| && |multiset(t)| == |t|;
      SameLeast(s, t);
      assert s == [s[0]] + s[1..] && t == [t[0]] + t[1..];
      assert multiset(s[1..]) == multiset(s) - multiset{s[0]};
      assert multiset(t[1..]) == multiset(t) - multiset{t[0]};
      AscendingIsUnique(s[1..], t[1..]);
    }
  }

  lemma SameLeast(s: seq<string>, t: seq<string>)
    requires Ascending(s) && Ascending(t) && multiset(s) == multiset(t) && s != [] && t != []
    ensures s[0] == t[0]
  {
    assert s[0] in multiset(t) && t[0] in multiset(s);
    if s[0] != t[0] {
      Antisymmetric(s[0], t[0]);
    }
  }

  /** Sorting forgets the order of its input and nothing else. */
  lemma SortedIffSameItems(s: seq<string>, t: seq<string>)
    ensures Sorted(s) == Sorted(t) <==> multiset(s) == multiset(t)
  {
    SortedAscends(s);
    SortedAscends(t);
    if multiset(s) == multiset(t) {
      AscendingIsUnique(Sorted(s), Sorted(t));
    }
  }
}
