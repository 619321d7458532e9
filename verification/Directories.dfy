/**
 The directory tree: printing the path of a directory from batched ancestor rows, and resolving a
 browse path back with one query and an in-memory walk.
 */
module Directories {
  import opened Text

  type Id = nat

  datatype Dir = Dir(parent: Option<Id>, slug: string, name: string)

  datatype Material = Material(directory: Option<Id>, slug: string, parentMaterial: Option<Id>)

  type Tree = map<Id, Dir>
  type Materials = map<Id, Material>

  predicate GoodSlug(slug: string)
  {
    slug != "" && '/' !in slug
  }

  /** A finite acyclic tree (each directory ranks above its parent) with unique sibling slugs. */
  ghost predicate ValidTree(tree: Tree, rank: map<Id, nat>)
  {
    && (forall id :: id in tree ==> id in rank && GoodSlug(tree[id].slug))
    && (forall id :: id in tree && tree[id].parent.Some? ==>
          tree[id].parent.value in tree && rank[tree[id].parent.value] < rank[id])
    && (forall a, b :: a in tree && b in tree && tree[a].parent == tree[b].parent ==>
          tree[a].slug == tree[b].slug ==> a == b)
  }

  ghost predicate ValidMaterials(materials: Materials)
  {
    && (forall m :: m in materials ==> GoodSlug(materials[m].slug))
    && (forall a, b :: a in materials && b in materials && materials[a].directory == materials[b].directory ==>
          materials[a].slug == materials[b].slug ==> a == b)
  }

  // ---- Printing ----

  /** The directories from the root down to `id`. */
  ghost function Chain(tree: Tree, rank: map<Id, nat>, id: Id): (chain: seq<Id>)
    requires ValidTree(tree, rank) && id in tree
    ensures chain != [] && chain[|chain| - 1] == id
    ensures forall k :: k in chain ==> k in tree
    decreases rank[id]
  {
    var p := tree[id].parent;
    if p.None? then [id] else Chain(tree, rank, p.value) + [id]
  }

  function Slugs(tree: Tree, chain: seq<Id>): (r: seq<string>)
    requires forall k :: k in chain ==> k in tree
    ensures |r| == |chain| && forall i :: 0 <= i < |chain| ==> r[i] == tree[chain[i]].slug
  {
    seq(|chain|, i requires 0 <= i < |chain| => tree[chain[i]].slug)
  }

  /** The path of a directory, as the single-directory form prints it. */
  ghost function PathOf(tree: Tree, rank: map<Id, nat>, id: Id): string
    requires ValidTree(tree, rank) && id in tree
  {
    Join(Slugs(tree, Chain(tree, rank, id)), '/')
  }

  // ---- The recursive query ----

  /** One row: the directory asked for, a directory on its way to the root, and how far up that is. */
  datatype Row = Row(start: Id, dir: Id, depth: nat)

  /** The rows of one recursion step: the requested directories that exist, then the parents of the rows before. */
  function Level(tree: Tree, starts: set<Id>, depth: nat): set<Row>
  {
    if depth == 0 then set s | s in starts && s in tree :: Row(s, s, 0)
    else
      set r | r in Level(tree, starts, depth - 1) && r.dir in tree && tree[r.dir].parent.Some?
        && tree[r.dir].parent.value in tree
        :: Row(r.start, tree[r.dir].parent.value, depth)
  }

  /** The answer to the query: every row of every step once, ordered by start and then from the root down. */
  ghost predicate Answers(tree: Tree, starts: set<Id>, rows: seq<Row>)
  {
    && (forall r: Row :: r in rows <==> r in Level(tree, starts, r.depth))
    && (forall i, j :: 0 <= i < j < |rows| ==> rows[i] != rows[j])
    && (forall i, j :: 0 <= i < j < |rows| ==> Ordered(rows[i], rows[j]))
  }

  predicate Ordered(a: Row, b: Row)
  {
    a.start < b.start || (a.start == b.start && a.depth >= b.depth)
  }

  /** The directory `n` steps above `id`. */
  function Up(tree: Tree, id: Id, n: nat): (r: Option<Id>)
    requires id in tree
    ensures r.Some? ==> r.value in tree
  {
    if n == 0 then Some(id)
    else
      var below := Up(tree, id, n - 1);
      if below.None? || tree[below.value].parent.None? || tree[below.value].parent.value !in tree then None
      else tree[below.value].parent
  }

  /** A step of the recursion gives exactly the directories that many steps up. */
  lemma {:induction false} LevelIsUp(tree: Tree, starts: set<Id>, r: Row)
    ensures r in Level(tree, starts, r.depth) <==>
      r.start in starts && r.start in tree && Up(tree, r.start, r.depth) == Some(r.dir)
    decreases r.depth
  {
    if r.depth > 0 {
      if r.start in tree && Up(tree, r.start, r.depth - 1).Some? {
        LevelIsUp(tree, starts, Row(r.start, Up(tree, r.start, r.depth - 1).value, r.depth - 1));
      }
      if r in Level(tree, starts, r.depth) {
        var p :| p in Level(tree, starts, r.depth - 1) && p.dir in tree && tree[p.dir].parent.Some?
          && r == Row(p.start, tree[p.dir].parent.value, r.depth);
        LevelDepth(tree, starts, r.depth - 1, p);
        LevelIsUp(tree, starts, p);
      }
    }
  }

  lemma LevelDepth(tree: Tree, starts: set<Id>, depth: nat, r: Row)
    requires r in Level(tree, starts, depth)
    ensures r.depth == depth
  {
  }

  /** Each directory of a chain is the parent of the next, and the first one is a root. */
  lemma {:induction false} ChainLinks(tree: Tree, rank: map<Id, nat>, id: Id)
    requires ValidTree(tree, rank) && id in tree
    ensures var chain := Chain(tree, rank, id);
      tree[chain[0]].parent.None? && forall i :: 0 < i < |chain| ==> tree[chain[i]].parent == Some(chain[i - 1])
    decreases rank[id]
  {
    if tree[id].parent.Some? {
      ChainLinks(tree, rank, tree[id].parent.value);
    }
  }

  /** The chain read backwards is what lies above the directory, and nothing lies above its root. */
  lemma {:induction false} ChainIsUp(tree: Tree, rank: map<Id, nat>, id: Id, n: nat)
    requires ValidTree(tree, rank) && id in tree
    ensures var chain := Chain(tree, rank, id);
      Up(tree, id, n) == if n < |chain| then Some(chain[|chain| - 1 - n]) else None
  {
    if n > 0 {
      ChainIsUp(tree, rank, id, n - 1);
      ChainLinks(tree, rank, id);
    }
  }

  // ---- The rows of one start ----

  /** The chain of a directory as rows, from the root down. */
  function ChainRows(start: Id, chain: seq<Id>): (rows: seq<Row>)
    ensures |rows| == |chain| && forall i :: 0 <= i < |chain| ==> rows[i] == Row(start, chain[i], |chain| - 1 - i)
  {
    seq(|chain|, i requires 0 <= i < |chain| => Row(start, chain[i], |chain| - 1 - i))
  }

  predicate Falling(rows: seq<Row>)
  {
    forall i, j :: 0 <= i < j < |rows| ==> rows[i].depth > rows[j].depth
  }

  lemma {:induction false} FallingIsUnique(s: seq<Row>, t: seq<Row>)
    requires Falling(s) && Falling(t) && forall r :: r in s <==> r in t
    ensures s == t
  {
    assert (s != [] ==> s[0] in t) && (t != [] ==> t[0] in s);
    if s != [] && t != [] {
      SameTail(s, t);
      assert s == [s[0]] + s[1..] && t == [t[0]] + t[1..];
      FallingIsUnique(s[1..], t[1..]);
    }
  }

  lemma SameTail(s: seq<Row>, t: seq<Row>)
    requires Falling(s) && Falling(t) && s != [] && t != [] && forall r :: r in s <==> r in t
    ensures s[0] == t[0] && forall r :: r in s[1..] <==> r in t[1..]
  {
    assert s[0] in t && t[0] in s;
    assert s[0] !in s[1..] && t[0] !in t[1..];
    forall r
      ensures r in s <==> r == s[0] || r in s[1..]
      ensures r in t <==> r == t[0] || r in t[1..]
    {
    }
  }

  /** The rows with one start, in their order. */
  function OfStart(rows: seq<Row>, start: Id): (r: seq<Row>)
    ensures forall x :: x in r <==> x in rows && x.start == start
  {
    if rows == [] then []
    else
      var init, last := rows[..|rows| - 1], rows[|rows| - 1];
      assert rows == init + [last];
      OfStart(init, start) + if last.start == start then [last] else []
  }

  lemma {:induction false} OfStartFalls(tree: Tree, starts: set<Id>, rows: seq<Row>, start: Id)
    requires forall i, j :: 0 <= i < j < |rows| ==> rows[i] != rows[j]
    requires forall i, j :: 0 <= i < j < |rows| ==> Ordered(rows[i], rows[j])
    requires forall r: Row :: r in rows ==> r in Level(tree, starts, r.depth)
    ensures Falling(OfStart(rows, start))
  {
    hide Level, Up;
    if rows != [] {
      var init, last := rows[..|rows| - 1], rows[|rows| - 1];
      assert rows == init + [last];
      OfStartFalls(tree, starts, init, start);
      var before := OfStart(init, start);
      forall i | 0 <= i < |before| && last.start == start
        ensures before[i].depth > last.depth
      {
        assert before[i] in init && last in rows;
        LevelIsUp(tree, starts, before[i]);
        LevelIsUp(tree, starts, last);
      }
    }
  }

  /** The rows of a start are its chain, whatever else was asked for. */
  lemma OfStartIsChain(tree: Tree, rank: map<Id, nat>, starts: set<Id>, rows: seq<Row>, start: Id)
    requires ValidTree(tree, rank) && Answers(tree, starts, rows)
    ensures OfStart(rows, start) ==
      if start in starts && start in tree then ChainRows(start, Chain(tree, rank, start)) else []
  {
    OfStartFalls(tree, starts, rows, start);
    if start in starts && start in tree {
      var chain := Chain(tree, rank, start);
      forall r: Row
        ensures r in OfStart(rows, start) <==> r in ChainRows(start, chain)
      {
        LevelIsUp(tree, starts, r);
        InChainRows(tree, rank, start, r);
      }
      FallingIsUnique(OfStart(rows, start), ChainRows(start, chain));
    } else if OfStart(rows, start) != [] {
      var r := OfStart(rows, start)[0];
      assert r in rows;
      LevelIsUp(tree, starts, r);
    }
  }

  lemma InChainRows(tree: Tree, rank: map<Id, nat>, start: Id, r: Row)
    requires ValidTree(tree, rank) && start in tree
    ensures r in ChainRows(start, Chain(tree, rank, start)) <==>
      r.start == start && Up(tree, start, r.depth) == Some(r.dir)
  {
    ChainIsUp(tree, rank, start, r.depth);
    hide Chain, Up, ChainRows;
    RowOfChain(start, Chain(tree, rank, start), r);
  }

  lemma RowOfChain(start: Id, chain: seq<Id>, r: Row)
    ensures r in ChainRows(start, chain) <==>
      r.start == start && r.depth < |chain| && chain[|chain| - 1 - r.depth] == r.dir
  {
    var rows := ChainRows(start, chain);
    if r.depth < |chain| {
      assert rows[|chain| - 1 - r.depth] == Row(start, chain[|chain| - 1 - r.depth], r.depth);
    }
  }

  function Dirs(rows: seq<Row>): (r: seq<Id>)
    ensures |r| == |rows| && forall i :: 0 <= i < |rows| ==> r[i] == rows[i].dir
  {
    seq(|rows|, i requires 0 <= i < |rows| => rows[i].dir)
  }

  // ---- The single and the batched forms ----

  /**
   `get_directory_path`: the answer for one directory is its chain from the root down, empty when it does not exist.
   */
  method DirectoryPath(tree: Tree, ghost rank: map<Id, nat>, id: Id, rows: seq<Row>) returns (path: seq<Id>)
    requires ValidTree(tree, rank) && Answers(tree, {id}, rows)
    ensures path == if id in tree then Chain(tree, rank, id) else []
  {
    OfStartIsChain(tree, rank, {id}, rows, id);
    OneStart(tree, rows, id);
    path := Dirs(rows);
  }

  lemma OneStart(tree: Tree, rows: seq<Row>, id: Id)
    requires Answers(tree, {id}, rows)
    ensures OfStart(rows, id) == rows
  {
    forall r | r in rows
      ensures r.start == id
    {
      LevelIsUp(tree, {id}, r);
    }
    AllOfStart(rows, id);
  }

  lemma {:induction false} AllOfStart(rows: seq<Row>, id: Id)
    requires forall r :: r in rows ==> r.start == id
    ensures OfStart(rows, id) == rows
  {
    if rows != [] {
      var init, last := rows[..|rows| - 1], rows[|rows| - 1];
      assert rows == init + [last];
      AllOfStart(init, id);
    }
  }

  /** The loop of the batched forms: each start's directories, in the order of the rows. */
  method GroupRows(rows: seq<Row>) returns (groups: map<Id, seq<Id>>)
    ensures forall s :: s in groups <==> OfStart(rows, s) != []
    ensures forall s :: s in groups ==> groups[s] == Dirs(OfStart(rows, s))
  {
    hide OfStart, Dirs;
    groups := map[];
    NoRows();
    for i := 0 to |rows|
      invariant forall s :: s in groups <==> OfStart(rows[..i], s) != []
      invariant forall s :: s in groups ==> groups[s] == Dirs(OfStart(rows[..i], s))
    {
      var row := rows[i];
      OneMoreRow(rows, i);
      var sofar := if row.start in groups then groups[row.start] else [];
      groups := groups[row.start := sofar + [row.dir]];
    }
    assert rows[..|rows|] == rows;
  }

  lemma NoRows()
    ensures forall s :: OfStart([], s) == []
  {
  }

  lemma OneMoreRow(rows: seq<Row>, i: nat)
    requires i < |rows|
    ensures forall s :: s != rows[i].start ==> OfStart(rows[..i + 1], s) == OfStart(rows[..i], s)
    ensures var s := rows[i].start;
      && OfStart(rows[..i + 1], s) != []
      && Dirs(OfStart(rows[..i + 1], s)) == Dirs(OfStart(rows[..i], s)) + [rows[i].dir]
      && (OfStart(rows[..i], s) == [] ==> Dirs(OfStart(rows[..i], s)) == [])
  {
    assert rows[..i + 1][..i] == rows[..i];
  }

  /**
   `get_directory_breadcrumb_paths`: one chain for each requested directory that exists, as the single form gives it.
   */
  method BreadcrumbPaths(tree: Tree, ghost rank: map<Id, nat>, ghost starts: set<Id>, rows: seq<Row>)
    returns (paths: map<Id, seq<Id>>)
    requires ValidTree(tree, rank) && Answers(tree, starts, rows)
    ensures forall s :: s in paths <==> s in starts && s in tree
    ensures forall s :: s in paths ==> paths[s] == Chain(tree, rank, s)
  {
    paths := GroupRows(rows);
    forall s
      ensures OfStart(rows, s) == if s in starts && s in tree then ChainRows(s, Chain(tree, rank, s)) else []
      ensures s in starts && s in tree ==> Dirs(OfStart(rows, s)) == Chain(tree, rank, s)
    {
      OfStartIsChain(tree, rank, starts, rows, s);
    }
  }

  /** `get_directory_paths`: the printed path of each requested directory that exists. */
  method DirectoryPaths(tree: Tree, ghost rank: map<Id, nat>, ghost starts: set<Id>, rows: seq<Row>)
    returns (paths: map<Id, string>)
    requires ValidTree(tree, rank) && Answers(tree, starts, rows)
    ensures forall s :: s in paths <==> s in starts && s in tree
    ensures forall s :: s in paths ==> paths[s] == PathOf(tree, rank, s)
  {
    var chains := BreadcrumbPaths(tree, rank, starts, rows);
    assert forall s :: s in chains ==> forall k :: k in chains[s] ==> k in tree;
    paths := map s | s in chains :: Join(Slugs(tree, chains[s]), '/');
  }

  // ---- Resolving ----

  datatype Resolved =
    | Roots
    | Listing(directory: Id)
    | MaterialPage(material: Id)
    | Missing(segment: string)

  function NonEmpty(parts: seq<string>): seq<string>
  {
    if parts == [] then []
    else (if parts[0] == "" then [] else [parts[0]]) + NonEmpty(parts[1..])
  }

  /** The non-empty segments of a path. */
  function Segments(path: string): seq<string>
  {
    NonEmpty(Split(path, '/'))
  }

  /** The directory with this parent and slug. */
  ghost function ChildDir(tree: Tree, parent: Option<Id>, slug: string): (r: Option<Id>)
    ensures r.Some? ==> r.value in tree && tree[r.value].parent == parent && tree[r.value].slug == slug
    ensures r.None? ==> forall id :: id in tree ==> !(tree[id].parent == parent && tree[id].slug == slug)
  {
    if exists id :: id in tree && tree[id].parent == parent && tree[id].slug == slug then
      var id :| id in tree && tree[id].parent == parent && tree[id].slug == slug; Some(id)
    else None
  }

  /** The top-level material with this slug in the directory. */
  ghost function ChildMaterial(materials: Materials, parent: Option<Id>, slug: string): (r: Option<Id>)
    ensures r.Some? ==> IsChild(materials, r.value, parent, slug)
    ensures r.None? ==> forall m :: m in materials ==> !IsChild(materials, m, parent, slug)
  {
    if exists m :: m in materials && IsChild(materials, m, parent, slug) then
      var m :| m in materials && IsChild(materials, m, parent, slug); Some(m)
    else None
  }

  predicate IsChild(materials: Materials, m: Id, parent: Option<Id>, slug: string)
  {
    m in materials && materials[m].directory == parent && materials[m].slug == slug && materials[m].parentMaterial.None?
  }

  /** The reference: one lookup per segment in the whole tree; directories win over materials. */
  ghost function Lookup(tree: Tree, materials: Materials, here: Option<Id>, segments: seq<string>): Resolved
    decreases |segments|
  {
    if segments == [] then (if here.None? then Roots else Listing(here.value))
    else
      var child := ChildDir(tree, here, segments[0]);
      if child.Some? then Lookup(tree, materials, child, segments[1..])
      else
        var material := ChildMaterial(materials, here, segments[0]);
        if |segments| == 1 && material.Some? then MaterialPage(material.value) else Missing(segments[0])
  }

  /** The dictionary of fetched directories by parent and slug. */
  method DirMap(tree: Tree, ghost rank: map<Id, nat>, fetched: seq<Id>) returns (dirs: map<(Option<Id>, string), Id>)
    requires ValidTree(tree, rank) && forall d :: d in fetched ==> d in tree
    ensures forall parent, slug :: (parent, slug) in dirs ==> ChildDir(tree, parent, slug) == Some(dirs[(parent, slug)])
    ensures forall d :: d in fetched ==> (tree[d].parent, tree[d].slug) in dirs
  {
    dirs := map[];
    for i := 0 to |fetched|
      invariant forall k :: k in dirs ==> dirs[k] in tree && (tree[dirs[k]].parent, tree[dirs[k]].slug) == k
      invariant forall j :: 0 <= j < i ==> (tree[fetched[j]].parent, tree[fetched[j]].slug) in dirs
    {
      var d := fetched[i];
      dirs := dirs[(tree[d].parent, tree[d].slug) := d];
    }
  }

  /** The dictionary of candidate materials by directory. */
  method MaterialMap(materials: Materials, slug: string, fetched: seq<Id>) returns (byDir: map<Option<Id>, Id>)
    requires ValidMaterials(materials)
    requires forall m :: m in fetched <==> m in materials && IsChild(materials, m, materials[m].directory, slug)
    ensures forall d :: d in byDir <==> ChildMaterial(materials, d, slug).Some?
    ensures forall d :: d in byDir ==> ChildMaterial(materials, d, slug) == Some(byDir[d])
  {
    byDir := map[];
    for i := 0 to |fetched|
      invariant forall d :: d in byDir ==> IsChild(materials, byDir[d], d, slug)
      invariant forall j :: 0 <= j < i ==> fetched[j] in materials && materials[fetched[j]].directory in byDir
    {
      assert fetched[i] in fetched;
      byDir := byDir[materials[fetched[i]].directory := fetched[i]];
    }
    forall d | ChildMaterial(materials, d, slug).Some?
      ensures d in byDir
    {
      assert ChildMaterial(materials, d, slug).value in fetched;
    }
  }

  /**
   `resolve_browse_path`: `fetchedDirs` are the directories whose slug occurs in the path, and
   `fetchedMaterials` the top-level materials with the last segment as slug.
   */
  method ResolveBrowsePath(tree: Tree, ghost rank: map<Id, nat>, materials: Materials, path: string,
                           fetchedDirs: seq<Id>, fetchedMaterials: seq<Id>) returns (r: Resolved)
    requires ValidTree(tree, rank) && ValidMaterials(materials)
    requires forall d :: d in fetchedDirs <==> d in tree && tree[d].slug in Segments(path)
    requires Segments(path) != [] ==> var last := Segments(path)[|Segments(path)| - 1];
      forall m :: m in fetchedMaterials <==> m in materials && IsChild(materials, m, materials[m].directory, last)
    ensures r == Lookup(tree, materials, None, Segments(path))
  {
    var segments := Segments(path);
    if segments == [] { return Roots; }
    var current: Option<Id> := None;
    var dirs := DirMap(tree, rank, fetchedDirs);
    var byDir := MaterialMap(materials, segments[|segments| - 1], fetchedMaterials);
    for i := 0 to |segments|
      invariant Lookup(tree, materials, None, segments) == Lookup(tree, materials, current, segments[i..])
      invariant i > 0 ==> current.Some?
    {
      assert segments[i..][1..] == segments[i + 1..];
      ghost var child := ChildDir(tree, current, segments[i]);
      assert child.Some? ==> child.value in fetchedDirs;
      if (current, segments[i]) in dirs {
        current := Some(dirs[(current, segments[i])]);
        continue;
      }
      if i == |segments| - 1 && current in byDir {
        return MaterialPage(byDir[current]);
      }
      return Missing(segments[i]);
    }
    r := Listing(current.value);
  }

  // ---- Resolving undoes printing ----

  lemma {:induction false} NonEmptyAll(parts: seq<string>)
    requires forall i :: 0 <= i < |parts| ==> parts[i] != ""
    ensures NonEmpty(parts) == parts
  {
    if parts != [] {
      NonEmptyAll(parts[1..]);
      assert parts == [parts[0]] + parts[1..];
    }
  }

  lemma {:induction false} NonEmptyOfBoth(a: seq<string>, b: seq<string>)
    ensures NonEmpty(a + b) == NonEmpty(a) + NonEmpty(b)
  {
    if a == [] {
      assert a + b == b;
    } else {
      var head := if a[0] == "" then [] else [a[0]];
      NonEmptyOfBoth(a[1..], b);
      assert (a + b)[0] == a[0] && (a + b)[1..] == a[1..] + b;
      assert head + (NonEmpty(a[1..]) + NonEmpty(b)) == (head + NonEmpty(a[1..])) + NonEmpty(b);
    }
  }

  /** Slashes separate and nothing else: where they are doubled, or lead or trail, makes no difference. */
  lemma SegmentsMeaning(a: string, b: string)
    ensures Segments(a + "/" + b) == Segments(a) + Segments(b)
    ensures '/' !in a ==> Segments(a) == if a == "" then [] else [a]
  {
    SplitTwo(a, b, '/');
    NonEmptyOfBoth(Split(a, '/'), Split(b, '/'));
    if '/' !in a {
      SplitWhole(a, '/');
      assert NonEmpty([a][1..]) == [];
    }
  }

  lemma SegmentsOfJoin(parts: seq<string>)
    requires parts != [] && forall p :: p in parts ==> GoodSlug(p)
    ensures Segments(Join(parts, '/')) == parts
  {
    SplitJoin(parts, '/');
    assert forall i :: 0 <= i < |parts| ==> parts[i] in parts && GoodSlug(parts[i]);
    NonEmptyAll(parts);
  }

  lemma ChildDirIsUnique(tree: Tree, rank: map<Id, nat>, id: Id)
    requires ValidTree(tree, rank) && id in tree
    ensures ChildDir(tree, tree[id].parent, tree[id].slug) == Some(id)
  {
  }

  /** Looking up the slugs of a directory's chain leads to that directory, whatever follows. */
  lemma {:induction false} LookupChain(tree: Tree, rank: map<Id, nat>, materials: Materials, id: Id, rest: seq<string>)
    requires ValidTree(tree, rank) && id in tree
    ensures Lookup(tree, materials, None, Slugs(tree, Chain(tree, rank, id)) + rest)
      == Lookup(tree, materials, Some(id), rest)
    decreases rank[id]
  {
    ChildDirIsUnique(tree, rank, id);
    var p := tree[id].parent;
    var slugs := Slugs(tree, Chain(tree, rank, id));
    if p.None? {
      assert slugs + rest == [tree[id].slug] + rest;
      assert ([tree[id].slug] + rest)[1..] == rest;
    } else {
      assert slugs + rest == Slugs(tree, Chain(tree, rank, p.value)) + ([tree[id].slug] + rest);
      LookupChain(tree, rank, materials, p.value, [tree[id].slug] + rest);
      assert ([tree[id].slug] + rest)[1..] == rest;
    }
  }

  /** Resolving a directory's printed path returns that directory. */
  lemma DirectoryPathResolves(tree: Tree, rank: map<Id, nat>, materials: Materials, id: Id)
    requires ValidTree(tree, rank) && id in tree
    ensures Lookup(tree, materials, None, Segments(PathOf(tree, rank, id))) == Listing(id)
  {
    var slugs := Slugs(tree, Chain(tree, rank, id));
    assert forall s :: s in slugs ==> GoodSlug(s);
    SegmentsOfJoin(slugs);
    LookupChain(tree, rank, materials, id, []);
    assert slugs + [] == slugs;
  }

  /** The browse path of a top-level material. */
  ghost function MaterialPath(tree: Tree, rank: map<Id, nat>, m: Material): string
    requires ValidTree(tree, rank) && (m.directory.Some? ==> m.directory.value in tree)
  {
    if m.directory.None? then m.slug else PathOf(tree, rank, m.directory.value) + "/" + m.slug
  }

  lemma {:induction false} JoinAppend(parts: seq<string>, last: string)
    requires parts != []
    ensures Join(parts + [last], '/') == Join(parts, '/') + "/" + last
  {
    if |parts| > 1 {
      JoinAppend(parts[1..], last);
      assert (parts + [last])[1..] == parts[1..] + [last];
    } else {
      assert (parts + [last])[1..] == [last];
    }
  }

  /** A material's path returns that material exactly when no sibling directory has its slug. */
  lemma MaterialPathResolves(tree: Tree, rank: map<Id, nat>, materials: Materials, id: Id)
    requires ValidTree(tree, rank) && ValidMaterials(materials) && id in materials
    requires materials[id].parentMaterial.None?
    requires materials[id].directory.Some? ==> materials[id].directory.value in tree
    ensures var m := materials[id];
      Lookup(tree, materials, None, Segments(MaterialPath(tree, rank, m))) == MaterialPage(id)
      <==> ChildDir(tree, m.directory, m.slug).None?
  {
    var m := materials[id];
    assert IsChild(materials, id, m.directory, m.slug);
    assert [m.slug][1..] == [];
    if m.directory.None? {
      assert Join([m.slug], '/') == m.slug;
      SegmentsOfJoin([m.slug]);
    } else {
      var slugs := Slugs(tree, Chain(tree, rank, m.directory.value));
      assert forall s :: s in slugs ==> GoodSlug(s);
      JoinAppend(slugs, m.slug);
      SegmentsOfJoin(slugs + [m.slug]);
      LookupChain(tree, rank, materials, m.directory.value, [m.slug]);
    }
  }

  // ---- What an answer says about the path ----

  /** The slugs from the root to a place in the tree; the place above all roots has none. */
  ghost function Way(tree: Tree, rank: map<Id, nat>, place: Option<Id>): seq<string>
    requires ValidTree(tree, rank) && (place.Some? ==> place.value in tree)
  {
    if place.None? then [] else Slugs(tree, Chain(tree, rank, place.value))
  }

  /** What each answer says about the path from the root. */
  ghost predicate Explains(tree: Tree, rank: map<Id, nat>, materials: Materials, path: seq<string>, r: Resolved)
    requires ValidTree(tree, rank)
  {
    match r
    case Roots => path == []
    case Listing(d) => d in tree && path == Way(tree, rank, Some(d))
    case MaterialPage(m) =>
      m in materials && materials[m].parentMaterial.None? && (var at := materials[m].directory;
        && IsChild(materials, m, at, materials[m].slug) && (at.Some? ==> at.value in tree)
        && path == Way(tree, rank, at) + [materials[m].slug] && ChildDir(tree, at, materials[m].slug).None?)
    case Missing(segment) =>
      exists at: Option<Id> :: StopsAt(tree, rank, materials, path, at, segment)
  }

  /** The path leads to a place with no directory and, at the end of the path, no material for the next segment. */
  ghost predicate StopsAt(tree: Tree, rank: map<Id, nat>, materials: Materials, path: seq<string>, at: Option<Id>,
    segment: string)
    requires ValidTree(tree, rank)
  {
    && (at.Some? ==> at.value in tree)
    && (var way := Way(tree, rank, at);
        && way + [segment] <= path && ChildDir(tree, at, segment).None?
        && (way + [segment] == path ==> ChildMaterial(materials, at, segment).None?))
  }

  /** Every answer is the right one for the path that was asked for. */
  lemma {:induction false} AnswerExplainsPath(tree: Tree, rank: map<Id, nat>, materials: Materials, here: Option<Id>,
    segments: seq<string>)
    requires ValidTree(tree, rank) && (here.Some? ==> here.value in tree)
    ensures Explains(tree, rank, materials, Way(tree, rank, here) + segments, Lookup(tree, materials, here, segments))
    decreases |segments|
  {
    hide Explains, Way, ValidTree;
    if segments == [] {
      EndExplainsPath(tree, rank, materials, here);
      assert Way(tree, rank, here) + segments == Way(tree, rank, here);
      return;
    }
    var child := ChildDir(tree, here, segments[0]);
    if child.None? {
      StopExplainsPath(tree, rank, materials, here, segments);
      return;
    }
    WayOfChild(tree, rank, here, child.value);
    AnswerExplainsPath(tree, rank, materials, child, segments[1..]);
    assert Way(tree, rank, here) + segments == (Way(tree, rank, here) + [segments[0]]) + segments[1..];
  }

  lemma EndExplainsPath(tree: Tree, rank: map<Id, nat>, materials: Materials, here: Option<Id>)
    requires ValidTree(tree, rank) && (here.Some? ==> here.value in tree)
    ensures Explains(tree, rank, materials, Way(tree, rank, here), Lookup(tree, materials, here, []))
  {
    hide ValidTree;
  }

  lemma WayOfChild(tree: Tree, rank: map<Id, nat>, here: Option<Id>, child: Id)
    requires ValidTree(tree, rank) && (here.Some? ==> here.value in tree) && child in tree && tree[child].parent == here
    ensures Way(tree, rank, Some(child)) == Way(tree, rank, here) + [tree[child].slug]
  {
  }

  lemma StopExplainsPath(tree: Tree, rank: map<Id, nat>, materials: Materials, here: Option<Id>, segments: seq<string>)
    requires ValidTree(tree, rank) && (here.Some? ==> here.value in tree)
    requires segments != [] && ChildDir(tree, here, segments[0]).None?
    ensures Explains(tree, rank, materials, Way(tree, rank, here) + segments, Lookup(tree, materials, here, segments))
  {
    var way, slug := Way(tree, rank, here), segments[0];
    hide Way, ValidTree;
    assert segments == [slug] + segments[1..] && way + segments == way + [slug] + segments[1..];
    if Lookup(tree, materials, here, segments).Missing? {
      assert way + [slug] == way + segments ==> |segments| == 1;
      assert StopsAt(tree, rank, materials, way + segments, here, slug);
    }
  }
}
