/** Search: scanning the two indexes for live hits, mixing the two rankings, and paging. */
module Search {
  import opened Text

  datatype Hit = Hit(id: Option<nat>, title: string, score: real)

  datatype Found = Found(hit: Hit, id: nat)

  // ---- Scanning ----

  const SCAN_BATCH: nat := 250
  const SCAN_MAX_HITS: nat := 1000

  function Min(a: nat, b: nat): nat
  {
    if a <= b then a else b
  }

  /** What the index answers for an offset and a limit. */
  function Batch(ranking: seq<Hit>, offset: nat): (r: seq<Hit>)
    ensures |r| <= SCAN_BATCH
  {
    ranking[Min(offset, |ranking|)..Min(offset + SCAN_BATCH, |ranking|)]
  }

  /** The hits that name a live row, in their order. */
  function Live(hits: seq<Hit>, live: set<nat>): seq<Found>
  {
    if hits == [] then [] else
      var last := hits[|hits| - 1];
      Live(hits[..|hits| - 1], live) + if last.id.Some? && last.id.value in live then [Found(last, last.id.value)]
        else []
  }

  /** Exactly the hits whose id names a live row are found, each as often as the index lists it. */
  lemma {:induction false} FoundIffLive(hits: seq<Hit>, live: set<nat>, f: Found)
    ensures multiset(Live(hits, live))[f] == if f.hit.id == Some(f.id) && f.id in live then multiset(hits)[f.hit] else 0
  {
    if hits != [] {
      assert hits == hits[..|hits| - 1] + [hits[|hits| - 1]];
      FoundIffLive(hits[..|hits| - 1], live, f);
    }
  }

  /** Found hits keep the order of the index: a shorter index gives a prefix of what a longer one gives. */
  lemma LiveKeepsOrder(hits: seq<Hit>, live: set<nat>, n: nat)
    requires n <= |hits|
    ensures Live(hits[..n], live) <= Live(hits, live)
  {
    LiveAppend(hits[..n], hits[n..], live);
    assert hits == hits[..n] + hits[n..];
  }

  lemma {:induction false} LiveAppend(a: seq<Hit>, b: seq<Hit>, live: set<nat>)
    ensures Live(a + b, live) == Live(a, live) + Live(b, live)
  {
    if b == [] {
      assert a + b == a;
    } else {
      assert (a + b)[..|a + b| - 1] == a + b[..|b| - 1];
      LiveAppend(a, b[..|b| - 1], live);
    }
  }

  lemma LiveBatch(ranking: seq<Hit>, offset: nat, live: set<nat>)
    ensures Live(ranking[..Min(offset, |ranking|)], live) + Live(Batch(ranking, offset), live)
      == Live(ranking[..Min(offset + SCAN_BATCH, |ranking|)], live)
  {
    LiveAppend(ranking[..Min(offset, |ranking|)], Batch(ranking, offset), live);
    assert ranking[..Min(offset, |ranking|)] + Batch(ranking, offset) == ranking[..Min(offset + SCAN_BATCH, |ranking|)];
  }

  /** All live hits of a ranking up to the scan horizon. */
  function Horizon(ranking: seq<Hit>, live: set<nat>): seq<Found>
  {
    Live(ranking[..Min(SCAN_MAX_HITS, |ranking|)], live)
  }

  datatype Kind = Material | Directory

  /** `_authoritative_search_hits`: both indexes are scanned in step, and a filter leaves one of them out. */
  method Scan(materials: seq<Hit>, directories: seq<Hit>, liveMaterials: set<nat>, liveDirectories: set<nat>,
    only: Option<Kind>)
    returns (ms: seq<Found>, ds: seq<Found>)
    ensures ms == if only == Some(Directory) then [] else Horizon(materials, liveMaterials)
    ensures ds == if only == Some(Material) then [] else Horizon(directories, liveDirectories)
  {
    hide Live;
    ms, ds := [], [];
    var ranked := if only == Some(Directory) then [] else materials;
    var listed := if only == Some(Material) then [] else directories;
    NothingLive(liveMaterials);
    NothingLive(liveDirectories);
    assert ranked[..0] == [] && listed[..0] == [];
    var offset := 0;
    while offset < SCAN_MAX_HITS
      invariant offset <= SCAN_MAX_HITS && offset % SCAN_BATCH == 0
      invariant ms == Live(ranked[..Min(offset, |ranked|)], liveMaterials)
      invariant ds == Live(listed[..Min(offset, |listed|)], liveDirectories)
    {
      var m, d := Batch(ranked, offset), Batch(listed, offset);
      LiveBatch(ranked, offset, liveMaterials);
      LiveBatch(listed, offset, liveDirectories);
      ms, ds := ms + Live(m, liveMaterials), ds + Live(d, liveDirectories);
      if |m| < SCAN_BATCH && |d| < SCAN_BATCH {
        assert ranked[..Min(offset + SCAN_BATCH, |ranked|)] == ranked[..Min(SCAN_MAX_HITS, |ranked|)];
        assert listed[..Min(offset + SCAN_BATCH, |listed|)] == listed[..Min(SCAN_MAX_HITS, |listed|)];
        break;
      }
      offset := offset + SCAN_BATCH;
    }
  }

  lemma NothingLive(live: set<nat>)
    ensures Live([], live) == []
  {
  }

  // ---- Promotion of an exact match ----

  predicate Exact(found: Found, query: string, norm: string -> string)
  {
    norm(found.hit.title) == norm(query)
  }

  /** The position of the first hit whose label is the query. */
  function FirstExact(hits: seq<Found>, query: string, norm: string -> string): (r: Option<nat>)
    ensures r.Some? <==> exists i :: 0 <= i < |hits| && Exact(hits[i], query, norm)
    ensures r.Some? ==> r.value < |hits| && Exact(hits[r.value], query, norm)
    ensures r.Some? ==> forall i :: 0 <= i < r.value ==> !Exact(hits[i], query, norm)
  {
    if hits == [] then None
    else if Exact(hits[0], query, norm) then Some(0)
    else
      match FirstExact(hits[1..], query, norm)
      case None => None
      case Some(i) => Some(i + 1)
  }

  /** `promote_exact` without its flag. */
  function Promoted(hits: seq<Found>, query: string, norm: string -> string): (r: seq<Found>)
    ensures |r| == |hits|
  {
    match FirstExact(hits, query, norm)
    case None => hits
    case Some(i) => [hits[i]] + hits[..i] + hits[i + 1..]
  }

  /** Promotion moves one hit to the front and keeps the order of all others. */
  lemma PromotionMovesOne(hits: seq<Found>, query: string, norm: string -> string)
    ensures multiset(Promoted(hits, query, norm)) == multiset(hits)
    ensures Promoted(hits, query, norm) == hits || exists i ::
      0 < i < |hits| && Promoted(hits, query, norm)[1..] == hits[..i] + hits[i + 1..]
    ensures (exists i :: 0 <= i < |hits| && Exact(hits[i], query, norm)) <==>
      hits != [] && Exact(Promoted(hits, query, norm)[0], query, norm)
  {
    var at := FirstExact(hits, query, norm);
    if at.Some? {
      var i := at.value;
      var p := Promoted(hits, query, norm);
      assert hits == hits[..i] + [hits[i]] + hits[i + 1..];
      if i == 0 {
        assert p == hits;
      } else {
        assert p[1..] == hits[..i] + hits[i + 1..];
      }
    }
  }

  // ---- Mixing ----

  datatype Item = Item(kind: Kind, found: Found)

  function Other(k: Kind): Kind
  {
    if k == Material then Directory else Material
  }

  /** Taking turns from two lists; when the one whose turn it is has run out, the other goes on. */
  function Turns(next: Kind, ms: seq<Found>, ds: seq<Found>): (r: seq<Item>)
    ensures |r| == |ms| + |ds|
    decreases |ms| + |ds|
  {
    if ms == [] && ds == [] then []
    else if ms != [] && (next == Material || ds == []) then [Item(Material, ms[0])] + Turns(Directory, ms[1..], ds)
    else [Item(Directory, ds[0])] + Turns(Material, ms, ds[1..])
  }

  function OfKind(items: seq<Item>, k: Kind): seq<Found>
  {
    if items == [] then []
    else (if items[0].kind == k then [items[0].found] else []) + OfKind(items[1..], k)
  }

  /** Each list comes back whole and in its own order. */
  lemma {:induction false} TurnsKeepBothLists(next: Kind, ms: seq<Found>, ds: seq<Found>)
    ensures OfKind(Turns(next, ms, ds), Material) == ms && OfKind(Turns(next, ms, ds), Directory) == ds
    decreases |ms| + |ds|
  {
    if ms == [] && ds == [] {
    } else if ms != [] && (next == Material || ds == []) {
      TurnsKeepBothLists(Directory, ms[1..], ds);
      assert Turns(next, ms, ds)[1..] == Turns(Directory, ms[1..], ds);
    } else {
      TurnsKeepBothLists(Material, ms, ds[1..]);
      assert Turns(next, ms, ds)[1..] == Turns(Material, ms, ds[1..]);
    }
  }

  function Head(next: Kind, k: Kind): nat
  {
    if next == k then 1 else 0
  }

  /** Half of n items, counting one more for the kind whose turn it is, or all there is. */
  function Share(n: nat, next: Kind, k: Kind, size: nat): nat
  {
    Min((n + Head(next, k)) / 2, size)
  }

  lemma ShareSteps(n: nat, k: Kind, size: nat)
    requires n > 0
    ensures size > 0 ==> forall next :: Share(n, next, k, size) <= 1 + Share(n - 1, Other(k), k, size - 1)
    ensures Share(n, Other(k), k, size) <= Share(n - 1, k, k, size)
    ensures forall next :: Share(n, next, k, 0) == 0
  {
  }

  /** Items shown so far hold each kind's share. */
  predicate Fair(shown: seq<Item>, n: nat, next: Kind, materials: nat, directories: nat)
  {
    && |OfKind(shown, Material)| >= Share(n, next, Material, materials)
    && |OfKind(shown, Directory)| >= Share(n, next, Directory, directories)
  }

  lemma FairAfterMaterial(first: Found, rest: seq<Item>, n: nat, next: Kind, materials: nat, directories: nat)
    requires 0 < n <= |rest| + 1 && 0 < materials && (next == Material || directories == 0)
    requires Fair(rest[..n - 1], n - 1, Directory, materials - 1, directories)
    ensures Fair(([Item(Material, first)] + rest)[..n], n, next, materials, directories)
  {
    FirstShown(Item(Material, first), rest, n);
    ShareSteps(n, Material, materials);
    ShareSteps(n, Directory, directories);
    hide OfKind, Share;
  }

  lemma FairAfterDirectory(first: Found, rest: seq<Item>, n: nat, next: Kind, materials: nat, directories: nat)
    requires 0 < n <= |rest| + 1 && 0 < directories && (next == Directory || materials == 0)
    requires Fair(rest[..n - 1], n - 1, Material, materials, directories - 1)
    ensures Fair(([Item(Directory, first)] + rest)[..n], n, next, materials, directories)
  {
    FirstShown(Item(Directory, first), rest, n);
    ShareSteps(n, Material, materials);
    ShareSteps(n, Directory, directories);
    hide OfKind, Share;
  }

  /** No kind is starved: the first n items hold half of n of it, or all there is. */
  lemma {:induction false} TurnsAreFair(next: Kind, ms: seq<Found>, ds: seq<Found>, n: nat)
    requires n <= |ms| + |ds|
    ensures Fair(Turns(next, ms, ds)[..n], n, next, |ms|, |ds|)
    decreases |ms| + |ds|
  {
    if n > 0 {
      hide Turns, Fair;
      TurnsStep(next, ms, ds);
      if ms != [] && (next == Material || ds == []) {
        TurnsAreFair(Directory, ms[1..], ds, n - 1);
        FairAfterMaterial(ms[0], Turns(Directory, ms[1..], ds), n, next, |ms|, |ds|);
      } else {
        TurnsAreFair(Material, ms, ds[1..], n - 1);
        FairAfterDirectory(ds[0], Turns(Material, ms, ds[1..]), n, next, |ms|, |ds|);
      }
    }
  }

  lemma FirstShown(item: Item, rest: seq<Item>, n: nat)
    requires 0 < n <= |rest| + 1
    ensures forall k :: |OfKind(([item] + rest)[..n], k)| == |OfKind(rest[..n - 1], k)| + Head(item.kind, k)
  {
    assert ([item] + rest)[..n][1..] == rest[..n - 1];
  }

  /** The score of a list's first hit; an empty list scores below every hit. */
  function TopScore(hits: seq<Found>): real
  {
    if hits == [] then -1.0 else hits[0].hit.score
  }

  /** Which kind goes first, after promotion. */
  function Starter(query: string, ms: seq<Found>, ds: seq<Found>, norm: string -> string): Kind
  {
    var m, d := FirstExact(ms, query, norm).Some?, FirstExact(ds, query, norm).Some?;
    if m != d then (if m then Material else Directory)
    else if TopScore(Promoted(ms, query, norm)) > TopScore(Promoted(ds, query, norm)) then Material
    else Directory
  }

  function Mixed(query: string, ms: seq<Found>, ds: seq<Found>, norm: string -> string): (r: seq<Item>)
    ensures |r| == |ms| + |ds|
  {
    Turns(Starter(query, ms, ds, norm), Promoted(ms, query, norm), Promoted(ds, query, norm))
  }

  /** `_mix_ranked_hits`. */
  method Mix(query: string, ms: seq<Found>, ds: seq<Found>, norm: string -> string) returns (mixed: seq<Item>)
    ensures mixed == Mixed(query, ms, ds, norm)
  {
    hide FirstExact, Promoted, Turns, Starter;
    var materials, directories := Promoted(ms, query, norm), Promoted(ds, query, norm);
    var next := Starter(query, ms, ds, norm);
    ghost var all := Turns(next, materials, directories);
    mixed := [];
    var m, d := 0, 0;
    while m < |materials| || d < |directories|
      invariant m <= |materials| && d <= |directories|
      invariant all == mixed + Turns(next, materials[m..], directories[d..])
      decreases |materials| - m + |directories| - d
    {
      TurnsStep(next, materials[m..], directories[d..]);
      ghost var shown := mixed;
      if next == Material && m < |materials| {
        mixed := mixed + [Item(Material, materials[m])];
        m, next := m + 1, Directory;
      } else if next == Directory && d < |directories| {
        mixed := mixed + [Item(Directory, directories[d])];
        d, next := d + 1, Material;
      } else if m < |materials| {
        mixed := mixed + [Item(Material, materials[m])];
        m := m + 1;
      } else {
        mixed := mixed + [Item(Directory, directories[d])];
        d := d + 1;
      }
      assert all == shown + ([mixed[|shown|]] + Turns(next, materials[m..], directories[d..]));
    }
    TurnsOfNothing(next);
  }

  lemma TurnsOfNothing(next: Kind)
    ensures Turns(next, [], []) == []
  {
  }

  lemma TurnsStep(next: Kind, ms: seq<Found>, ds: seq<Found>)
    requires ms != [] || ds != []
    ensures ms != [] && (next == Material || ds == []) ==>
      Turns(next, ms, ds) == [Item(Material, ms[0])] + Turns(Directory, ms[1..], ds)
    ensures !(ms != [] && (next == Material || ds == [])) ==>
      Turns(next, ms, ds) == [Item(Directory, ds[0])] + Turns(Material, ms, ds[1..])
  {
  }

  /** When some hit is labelled exactly as the query, such a hit comes first. */
  lemma ExactMatchComesFirst(query: string, ms: seq<Found>, ds: seq<Found>, norm: string -> string)
    requires exists f :: f in ms + ds && Exact(f, query, norm)
    ensures Exact(Mixed(query, ms, ds, norm)[0].found, query, norm)
  {
  }

  /** When no kind, or each kind, has an exact match, the better top score comes first, and a directory on a tie. */
  lemma BetterScoreComesFirst(query: string, ms: seq<Found>, ds: seq<Found>, norm: string -> string)
    requires (exists f :: f in ms && Exact(f, query, norm)) <==> (exists f :: f in ds && Exact(f, query, norm))
    ensures var all, m, d := Mixed(query, ms, ds, norm), Promoted(ms, query, norm), Promoted(ds, query, norm);
      ms != [] && ds != [] ==>
        (all[0].kind == Material <==> m[0].hit.score > d[0].hit.score)
        && all[0].found == if all[0].kind == Material then m[0] else d[0]
  {
    assert (exists f :: f in ms && Exact(f, query, norm)) <==> FirstExact(ms, query, norm).Some? by {
      ExactIsFound(ms, query, norm);
    }
    assert (exists f :: f in ds && Exact(f, query, norm)) <==> FirstExact(ds, query, norm).Some? by {
      ExactIsFound(ds, query, norm);
    }
  }

  lemma ExactIsFound(hits: seq<Found>, query: string, norm: string -> string)
    ensures (exists f :: f in hits && Exact(f, query, norm)) <==> FirstExact(hits, query, norm).Some?
  {
    if f :| f in hits && Exact(f, query, norm) {
      var i :| 0 <= i < |hits| && hits[i] == f;
    }
  }

  // ---- Pages ----

  /** The slice `all[offset : offset + limit]` for a page numbered from one. */
  function Page(all: seq<Item>, page: nat, limit: nat): seq<Item>
    requires page >= 1
  {
    var offset := (page - 1) * limit;
    all[Min(offset, |all|)..Min(offset + limit, |all|)]
  }

  function FirstPages(all: seq<Item>, pages: nat, limit: nat): seq<Item>
  {
    if pages == 0 then [] else FirstPages(all, pages - 1, limit) + Page(all, pages, limit)
  }

  /** Consecutive pages are consecutive stretches of the list. */
  lemma {:induction false} PagesConcatenate(all: seq<Item>, pages: nat, limit: nat)
    ensures FirstPages(all, pages, limit) == all[..Min(pages * limit, |all|)]
  {
    if pages > 0 {
      PagesConcatenate(all, pages - 1, limit);
      assert pages * limit == (pages - 1) * limit + limit;
    }
  }

  lemma EnoughPagesShowAll(all: seq<Item>, pages: nat, limit: nat)
    requires pages * limit >= |all|
    ensures FirstPages(all, pages, limit) == all
  {
    PagesConcatenate(all, pages, limit);
  }

  /** The complete ranking behind a query: what every page is cut from. */
  function Ranking(query: string, materials: seq<Hit>, directories: seq<Hit>, liveMaterials: set<nat>,
    liveDirectories: set<nat>, only: Option<Kind>, norm: string -> string): seq<Item>
  {
    Mixed(query, if only == Some(Directory) then [] else Horizon(materials, liveMaterials),
      if only == Some(Material) then [] else Horizon(directories, liveDirectories), norm)
  }

  /** `not query.strip()` */
  predicate Blank(query: string)
  {
    forall i :: 0 <= i < |query| ==> Space(query[i])
  }

  /** `perform_search` from the scan to the page slice: the page's items and the total. */
  method PerformSearch(query: string, page: nat, limit: nat, materials: seq<Hit>, directories: seq<Hit>,
    liveMaterials: set<nat>, liveDirectories: set<nat>, only: Option<Kind>, norm: string -> string)
    returns (items: seq<Item>, total: nat)
    requires page >= 1
    ensures Blank(query) ==> items == [] && total == 0
    ensures !Blank(query) ==>
      var all := Ranking(query, materials, directories, liveMaterials, liveDirectories, only, norm);
      items == Page(all, page, limit) && total == |all|
  {
    if Blank(query) { return [], 0; }
    hide Horizon, Mixed;
    var ms, ds := Scan(materials, directories, liveMaterials, liveDirectories, only);
    if only == Some(Material) {
      ds := [];
    } else if only == Some(Directory) {
      ms := [];
    }
    var all := Mix(query, ms, ds, norm);
    items, total := Page(all, page, limit), |all|;
  }

  /**
   What a user sees over any number of pages: every kind in its own ranking order, and at least half of what is shown
   while it lasts.
   */
  lemma ShownIsFairAndOrdered(query: string, ms: seq<Found>, ds: seq<Found>, norm: string -> string, pages: nat,
    limit: nat)
    ensures var all := Mixed(query, ms, ds, norm);
      var shown := FirstPages(all, pages, limit);
      && OfKind(shown, Material) <= Promoted(ms, query, norm) && OfKind(shown, Directory) <= Promoted(ds, query, norm)
      && |OfKind(shown, Material)| >= Min(|shown| / 2, |ms|) && |OfKind(shown, Directory)| >= Min(|shown| / 2, |ds|)
  {
    var all := Mixed(query, ms, ds, norm);
    PagesConcatenate(all, pages, limit);
    var n := |FirstPages(all, pages, limit)|;
    assert FirstPages(all, pages, limit) == all[..n];
    hide FirstPages, Turns, Promoted, Starter, OfKind;
    PrefixIsFairAndOrdered(Starter(query, ms, ds, norm), Promoted(ms, query, norm), Promoted(ds, query, norm), n);
  }

  lemma PrefixIsFairAndOrdered(next: Kind, ms: seq<Found>, ds: seq<Found>, n: nat)
    requires n <= |ms| + |ds|
    ensures var shown := Turns(next, ms, ds)[..n];
      && OfKind(shown, Material) <= ms && OfKind(shown, Directory) <= ds
      && |OfKind(shown, Material)| >= Min(n / 2, |ms|) && |OfKind(shown, Directory)| >= Min(n / 2, |ds|)
  {
    TurnsAreFair(next, ms, ds, n);
    hide OfKind, Turns;
    TurnsKeepBothLists(next, ms, ds);
    OfKindPrefix(Turns(next, ms, ds), n, Material);
    OfKindPrefix(Turns(next, ms, ds), n, Directory);
  }

  lemma {:induction false} OfKindPrefix(items: seq<Item>, n: nat, k: Kind)
    requires n <= |items|
    ensures OfKind(items[..n], k) <= OfKind(items, k)
  {
    if n > 0 {
      OfKindPrefix(items[1..], n - 1, k);
      assert items[..n][1..] == items[1..][..n - 1];
    }
  }
}
