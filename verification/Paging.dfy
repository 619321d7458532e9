/** Keyset pagination, newest first: following the cursors through a table that may change between requests. */
module Paging {
  import opened Text

  /** The sort key of a root: creation time, then id. */
  datatype Key = Key(created: int, id: nat)

  /** `a` is listed before `b`. */
  predicate Before(a: Key, b: Key)
  {
    a.created > b.created || (a.created == b.created && a.id > b.id)
  }

  ghost predicate Descending(s: seq<Key>)
  {
    forall i, j :: 0 <= i < j < |s| ==> Before(s[i], s[j])
  }

  predicate IsFirst(s: set<Key>, x: Key)
  {
    x in s && forall y :: y in s && y != x ==> Before(x, y)
  }

  lemma {:induction false} SomeFirst(s: set<Key>)
    requires s != {}
    ensures exists x :: IsFirst(s, x)
  {
    var a :| a in s;
    var rest := s - {a};
    if rest == {} {
      assert s == {a};
      assert IsFirst(s, a);
    } else {
      SomeFirst(rest);
      var x :| IsFirst(rest, x);
      assert forall y :: y in s ==> y == a || y in rest;
      assert IsFirst(s, if Before(a, x) then a else x);
    }
  }

  /** `ORDER BY created_at DESC, id DESC` */
  function Listing(s: set<Key>): (r: seq<Key>)
    ensures |r| == |s|
  {
    if s == {} then []
    else
      SomeFirst(s);
      var x :| IsFirst(s, x);
      [x] + Listing(s - {x})
  }

  lemma {:induction false} ListingHolds(s: set<Key>)
    ensures forall x :: x in Listing(s) <==> x in s
    ensures Descending(Listing(s))
  {
    if s != {} {
      SomeFirst(s);
      var x :| IsFirst(s, x);
      var rest := Listing(s - {x});
      assert Listing(s) == [x] + rest;
      ListingHolds(s - {x});
      hide Listing;
      FirstThenRest(s, x, rest);
    }
  }

  lemma FirstThenRest(s: set<Key>, x: Key, rest: seq<Key>)
    requires IsFirst(s, x) && Descending(rest) && forall y :: y in rest <==> y in s - {x}
    ensures Descending([x] + rest) && forall y :: y in [x] + rest <==> y in s
  {
    forall j | 0 <= j < |rest|
      ensures Before(x, rest[j])
    {
      assert rest[j] in rest;
    }
  }

  lemma DescendingAppend(a: seq<Key>, b: seq<Key>)
    requires Descending(a) && Descending(b)
    requires b != [] ==> a != [] && forall k :: k in b ==> Before(a[|a| - 1], k)
    ensures Descending(a + b)
  {
    forall i, j | 0 <= i < |a| && 0 <= j < |b|
      ensures Before(a[i], b[j])
    {
      assert b[j] in b;
      assert i < |a| - 1 ==> Before(a[i], a[|a| - 1]);
    }
  }

  lemma {:induction false} DescendingIsUnique(s: seq<Key>, t: seq<Key>)
    requires Descending(s) && Descending(t) && forall x :: x in s <==> x in t
    ensures s == t
  {
    assert (s != [] ==> s[0] in t) && (t != [] ==> t[0] in s);
    if s != [] && t != [] {
      SameTail(s, t);
      assert s == [s[0]] + s[1..] && t == [t[0]] + t[1..];
      DescendingIsUnique(s[1..], t[1..]);
    }
  }

  lemma SameTail(s: seq<Key>, t: seq<Key>)
    requires Descending(s) && Descending(t) && s != [] && t != [] && forall x :: x in s <==> x in t
    ensures s[0] == t[0] && forall x :: x in s[1..] <==> x in t[1..]
  {
    assert s[0] in t && t[0] in s;
    assert s[0] !in s[1..] && t[0] !in t[1..];
    forall x
      ensures x in s <==> x == s[0] || x in s[1..]
      ensures x in t <==> x == t[0] || x in t[1..]
    {
    }
  }

  // ---- One request ----

  function After(cursor: Option<Key>, s: set<Key>): set<Key>
  {
    set k | k in s && (cursor.None? || Before(cursor.value, k))
  }

  function Take(s: seq<Key>, n: nat): seq<Key>
  {
    if n <= |s| then s[..n] else s
  }

  datatype Answer = Answer(page: seq<Key>, next: Option<Key>)

  /** The query of `get_annotations`: one row more than asked for tells whether there is a next page. */
  function Ask(s: set<Key>, cursor: Option<Key>, limit: nat): Answer
    requires limit >= 1
  {
    var rows := Take(Listing(After(cursor, s)), limit + 1);
    var page := Take(rows, limit);
    Answer(page, if |rows| > limit then Some(page[|page| - 1]) else None)
  }

  /** What an answer says about a root: it is on the page, or it comes after the next cursor. */
  lemma AskIsExact(s: set<Key>, cursor: Option<Key>, limit: nat)
    requires limit >= 1
    ensures var a := Ask(s, cursor, limit);
      && Descending(a.page) && |a.page| <= limit
      && (forall k :: k in a.page ==> k in After(cursor, s))
      && (a.next.Some? ==> a.page != [] && a.next.value == a.page[|a.page| - 1])
      && (forall k :: k in After(cursor, s) ==> k in a.page || (a.next.Some? && Before(a.next.value, k)))
      && (a.next.Some? <==> |After(cursor, s)| > limit) && (a.next.Some? ==> |a.page| == limit)
  {
    ListingHolds(After(cursor, s));
    hide Listing, After;
    CutIsExact(Listing(After(cursor, s)), limit);
  }

  lemma CutIsExact(all: seq<Key>, limit: nat)
    requires limit >= 1 && Descending(all)
    ensures var rows := Take(all, limit + 1);
      var page := Take(rows, limit);
      && Descending(page) && |page| <= limit && (forall k :: k in page ==> k in all)
      && (|rows| > limit <==> |all| > limit) && (|rows| > limit ==> |page| == limit)
      && (forall k :: k in all ==> k in page || (|rows| > limit && Before(page[|page| - 1], k)))
  {
  }

  // ---- Following the cursors ----

  /** The pages read from the successive states of the table, up to the first without a next cursor. */
  function Visit(states: seq<set<Key>>, cursor: Option<Key>, limit: nat): seq<Key>
    requires limit >= 1
  {
    if states == [] then [] else
      var a := Ask(states[0], cursor, limit);
      a.page + if a.next.Some? then Visit(states[1..], a.next, limit) else []
  }

  /** The walk comes to its last page. */
  predicate Ends(states: seq<set<Key>>, cursor: Option<Key>, limit: nat)
    requires limit >= 1
  {
    states != [] && var a := Ask(states[0], cursor, limit); a.next.None? || Ends(states[1..], a.next, limit)
  }

  predicate Past(cursor: Option<Key>, k: Key)
  {
    cursor.None? || Before(cursor.value, k)
  }

  /** Whatever happens to the table, nothing is visited twice and the whole walk is in descending order. */
  lemma {:induction false} VisitDescends(states: seq<set<Key>>, cursor: Option<Key>, limit: nat)
    requires limit >= 1
    ensures Descending(Visit(states, cursor, limit))
    ensures forall k :: k in Visit(states, cursor, limit) ==> Past(cursor, k)
  {
    if states != [] {
      var a := Ask(states[0], cursor, limit);
      AskIsExact(states[0], cursor, limit);
      hide Ask;
      if a.next.Some? {
        var rest := Visit(states[1..], a.next, limit);
        VisitDescends(states[1..], a.next, limit);
        DescendingAppend(a.page, rest);
        assert a.next.value in a.page;
      } else {
        assert Visit(states, cursor, limit) == a.page;
      }
    }
  }

  /** Only what was there when its page was read is visited. */
  lemma {:induction false} OnlyWhatIsThereIsVisited(states: seq<set<Key>>, cursor: Option<Key>, limit: nat, k: Key)
    requires limit >= 1 && k in Visit(states, cursor, limit)
    ensures exists s :: s in states && k in s
  {
    AskIsExact(states[0], cursor, limit);
    if k !in Ask(states[0], cursor, limit).page {
      OnlyWhatIsThereIsVisited(states[1..], Ask(states[0], cursor, limit).next, limit, k);
    }
  }

  /** A root that is there throughout is visited, whatever is created or deleted around it. */
  lemma {:induction false} WhatStaysIsVisited(states: seq<set<Key>>, cursor: Option<Key>, limit: nat, k: Key)
    requires limit >= 1 && Ends(states, cursor, limit)
    requires Past(cursor, k) && forall s :: s in states ==> k in s
    ensures k in Visit(states, cursor, limit)
  {
    var a := Ask(states[0], cursor, limit);
    AskIsExact(states[0], cursor, limit);
    if k !in a.page {
      WhatStaysIsVisited(states[1..], a.next, limit, k);
    }
  }

  /** Between requests the table changes only at keys listed before the cursor in force. */
  ghost predicate ChangesOnlyBefore(states: seq<set<Key>>, cursor: Option<Key>, limit: nat)
    requires limit >= 1
  {
    |states| <= 1 ||
    (var next := Ask(states[0], cursor, limit).next;
     next.None? || (After(next, states[1]) == After(next, states[0]) && ChangesOnlyBefore(states[1..], next, limit)))
  }

  /** Then the walk shows exactly the roots the first request started from, once each and in order. */
  lemma NewerInsertsMakeNoDifference(states: seq<set<Key>>, cursor: Option<Key>, limit: nat)
    requires limit >= 1 && Ends(states, cursor, limit) && ChangesOnlyBefore(states, cursor, limit)
    ensures Visit(states, cursor, limit) == Listing(After(cursor, states[0]))
  {
    VisitDescends(states, cursor, limit);
    ListingHolds(After(cursor, states[0]));
    forall k
      ensures k in Visit(states, cursor, limit) <==> k in After(cursor, states[0])
    {
      VisitedIffThere(states, cursor, limit, k);
    }
    DescendingIsUnique(Visit(states, cursor, limit), Listing(After(cursor, states[0])));
  }

  lemma {:induction false} VisitedIffThere(states: seq<set<Key>>, cursor: Option<Key>, limit: nat, k: Key)
    requires limit >= 1 && Ends(states, cursor, limit) && ChangesOnlyBefore(states, cursor, limit)
    ensures k in Visit(states, cursor, limit) <==> k in After(cursor, states[0])
  {
    var a := Ask(states[0], cursor, limit);
    AskIsExact(states[0], cursor, limit);
    hide Ask;
    if a.next.Some? {
      VisitedIffThere(states[1..], a.next, limit, k);
      if Past(a.next, k) { NextIsPast(states[0], cursor, limit, k); }
      assert k in After(a.next, states[1]) <==> k in After(a.next, states[0]);
    }
  }

  lemma NextIsPast(s: set<Key>, cursor: Option<Key>, limit: nat, k: Key)
    requires limit >= 1 && Ask(s, cursor, limit).next.Some? && Past(Ask(s, cursor, limit).next, k)
    ensures Past(cursor, k)
  {
    var a := Ask(s, cursor, limit);
    AskIsExact(s, cursor, limit);
    assert a.page[|a.page| - 1] in a.page;
  }

  /** A table that stays as it is is walked to the end: each request moves past at least one root. */
  lemma {:induction false} StableWalkEnds(s: set<Key>, states: seq<set<Key>>, cursor: Option<Key>, limit: nat)
    requires limit >= 1 && |states| > |After(cursor, s)| && forall t :: t in states ==> t == s
    ensures Ends(states, cursor, limit) && ChangesOnlyBefore(states, cursor, limit)
  {
    var a := Ask(s, cursor, limit);
    assert states[0] in states && (|states| > 1 ==> states[1] in states);
    AskIsExact(s, cursor, limit);
    if a.next.Some? {
      NextMovesOn(s, cursor, limit);
      assert forall t :: t in states[1..] ==> t in states;
      StableWalkEnds(s, states[1..], a.next, limit);
    }
  }

  lemma NextMovesOn(s: set<Key>, cursor: Option<Key>, limit: nat)
    requires limit >= 1 && Ask(s, cursor, limit).next.Some?
    ensures |After(Ask(s, cursor, limit).next, s)| < |After(cursor, s)|
  {
    var a := Ask(s, cursor, limit);
    AskIsExact(s, cursor, limit);
    hide Ask;
    var last := a.next.value;
    assert last in a.page;
    assert After(a.next, s) <= After(cursor, s) - {last};
    Fewer(After(a.next, s), After(cursor, s) - {last});
  }

  lemma {:induction false} Fewer(a: set<Key>, b: set<Key>)
    requires a <= b
    ensures |a| <= |b|
  {
    if a != {} {
      var x :| x in a;
      Fewer(a - {x}, b - {x});
    }
  }
}
