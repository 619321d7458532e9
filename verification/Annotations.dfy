/** Annotation threads: creating, deleting, and listing the roots page by page. */
module Annotations {
  import opened Text
  import opened Paging

  datatype Row = Row(material: nat, version: nat, author: Option<nat>, body: string, page: Option<nat>,
    thread: Option<nat>, replyTo: Option<nat>, created: int)

  type Table = map<nat, Row>

  predicate IsRoot(rows: Table, id: nat)
  {
    id in rows && rows[id].thread == Some(id)
  }

  predicate Placed(rows: Table, id: nat)
    requires id in rows
  {
    var row := rows[id];
    && row.thread.Some? && IsRoot(rows, row.thread.value) && rows[row.thread.value].material == row.material
    && match row.replyTo
       case None => true
       case Some(target) => row.thread != Some(id) && target in rows && rows[target].thread == row.thread
  }

  /**
   Every annotation belongs to an existing root of its own material, and what it replies to belongs to the same
   thread.
   */
  ghost predicate Inv(rows: Table)
  {
    forall id :: id in rows ==> Placed(rows, id)
  }

  // ---- What the database does to a deletion ----

  function Cleared(row: Row, gone: set<nat>): Row
  {
    if row.replyTo.Some? && row.replyTo.value in gone then row.(replyTo := None) else row
  }

  predicate Names(thread: Option<nat>, gone: set<nat>)
  {
    thread.Some? && thread.value in gone
  }

  /** Rows are deleted; rows that name one as their thread go with it, and `reply_to_id` becomes null. */
  function Without(rows: Table, gone: set<nat>): Table
  {
    map k | k in rows && k !in gone && !Names(rows[k].thread, gone) :: Cleared(rows[k], gone)
  }

  function ThreadOf(rows: Table, root: nat): set<nat>
  {
    set k | k in rows && rows[k].thread == Some(root)
  }

  function OutsideThread(rows: Table, root: nat): Table
  {
    map k | k in rows && rows[k].thread != Some(root) :: rows[k]
  }

  function WithoutReply(rows: Table, id: nat): Table
  {
    map k | k in rows && k != id :: Cleared(rows[k], {id})
  }

  /** Deleting the other rows of a thread and then its root touches nothing outside the thread. */
  lemma RootRemovalIsExact(rows: Table, root: nat)
    requires Inv(rows) && IsRoot(rows, root)
    ensures var left := Without(rows, ThreadOf(rows, root) - {root});
      root in left && Without(left[root := left[root].(thread := None)], {root}) == OutsideThread(rows, root)
  {
    var gone := ThreadOf(rows, root) - {root};
    var left := Without(rows, gone);
    forall k | k in rows && k !in gone
      ensures k in left && left[k] == rows[k]
    {
      assert Placed(rows, k);
    }
    var cut := left[root := left[root].(thread := None)];
    forall k | k in rows && rows[k].thread != Some(root)
      ensures k in cut && cut[k] == rows[k] && Cleared(cut[k], {root}) == rows[k] && k != root
    {
      assert Placed(rows, k);
    }
    assert cut.Keys == OutsideThread(rows, root).Keys + {root};
  }

  lemma ReplyRemovalIsExact(rows: Table, id: nat)
    requires Inv(rows) && id in rows && !IsRoot(rows, id)
    ensures Without(rows, {id}) == WithoutReply(rows, id)
  {
    forall k | k in rows
      ensures !Names(rows[k].thread, {id})
    {
      assert Placed(rows, k);
    }
  }

  lemma OutsideThreadKeepsInv(rows: Table, root: nat)
    requires Inv(rows)
    ensures Inv(OutsideThread(rows, root))
  {
  }

  lemma WithoutReplyKeepsInv(rows: Table, id: nat)
    requires Inv(rows) && id in rows && !IsRoot(rows, id)
    ensures Inv(WithoutReply(rows, id))
  {
  }

  lemma OneMoreKeepsInv(rows: Table, id: nat, row: Row)
    requires Inv(rows) && id !in rows && Placed(rows[id := row], id)
    ensures Inv(rows[id := row])
  {
  }

  // ---- Operations ----

  datatype Outcome<+T> = Done(value: T) | NotFound | BadRequest | Forbidden

  datatype Draft = Draft(material: nat, version: Option<nat>, author: nat, body: string, page: Option<nat>,
    positioned: bool, replyTo: Option<nat>)

  /** Whether a draft is accepted; the version is none when the material or its current version is missing. */
  function Judged(rows: Table, d: Draft): Outcome<()>
  {
    if d.version.None? then NotFound
    else
      match d.replyTo
      case None => if d.positioned then Done(()) else BadRequest
      case Some(target) =>
        if target !in rows then NotFound
        else if rows[target].material != d.material then BadRequest
        else Done(())
  }

  // ---- Listing ----

  datatype Filter = Filter(material: nat, version: Option<nat>, page: Option<nat>)

  predicate Selects(f: Filter, rows: Table, id: nat)
  {
    && IsRoot(rows, id) && rows[id].material == f.material
    && (f.version.Some? ==> rows[id].version == f.version.value) && (f.page.Some? ==> rows[id].page == f.page)
  }

  function KeyOf(rows: Table, id: nat): Key
    requires id in rows
  {
    Key(rows[id].created, id)
  }

  /** The roots a request is about, by their sort keys. */
  function Roots(rows: Table, f: Filter): set<Key>
  {
    set id | id in rows && Selects(f, rows, id) :: KeyOf(rows, id)
  }

  /** Without filters every root of the material is listed; each filter narrows that on its own. */
  lemma FiltersNarrow(rows: Table, material: nat, version: nat, page: nat, v: Option<nat>, p: Option<nat>, k: Key)
    ensures k in Roots(rows, Filter(material, None, None)) <==>
      IsRoot(rows, k.id) && k == KeyOf(rows, k.id) && rows[k.id].material == material
    ensures k in Roots(rows, Filter(material, Some(version), p)) <==>
      k in Roots(rows, Filter(material, None, p)) && rows[k.id].version == version
    ensures k in Roots(rows, Filter(material, v, Some(page))) <==>
      k in Roots(rows, Filter(material, v, None)) && rows[k.id].page == Some(page)
  {
    assert forall f: Filter ::
      (k in Roots(rows, f) <==> k.id in rows && Selects(f, rows, k.id) && k == KeyOf(rows, k.id));
  }

  /** The replies of some threads. */
  function Replies(rows: Table, roots: seq<Key>): set<Key>
  {
    set id | id in rows && rows[id].thread.Some? && rows[id].thread != Some(id)
      && (exists r :: r in roots && rows[id].thread == Some(r.id)) :: KeyOf(rows, id)
  }

  /** Oldest first, each key once; the order of keys created at the same instant is open. */
  ghost predicate OldestFirst(s: seq<Key>)
  {
    forall i, j :: 0 <= i < j < |s| ==> s[i].created <= s[j].created && s[i] != s[j]
  }

  /** Any way in which the database may answer `ORDER BY created_at`. */
  ghost predicate SortsByTime(sorted: set<Key> -> seq<Key>)
  {
    forall s :: OldestFirst(sorted(s)) && forall k :: k in sorted(s) <==> k in s
  }

  function InThread(rows: Table, replies: seq<Key>, root: nat): seq<Key>
  {
    if replies == [] then [] else
      var last := replies[|replies| - 1];
      InThread(rows, replies[..|replies| - 1], root)
      + if last.id in rows && rows[last.id].thread == Some(root) then [last] else []
  }

  lemma {:induction false} InThreadHolds(rows: Table, replies: seq<Key>, root: nat)
    requires OldestFirst(replies)
    ensures OldestFirst(InThread(rows, replies, root))
    ensures forall k :: k in InThread(rows, replies, root) <==>
      k in replies && k.id in rows && rows[k.id].thread == Some(root)
  {
    if replies != [] {
      var init, last := replies[..|replies| - 1], replies[|replies| - 1];
      InThreadHolds(rows, init, root);
      assert replies == init + [last];
      var r := InThread(rows, init, root);
      forall i | 0 <= i < |r|
        ensures r[i].created <= last.created && r[i] != last
      {
        assert r[i] in r && r[i] in init;
      }
    }
  }

  /** A thread as it is shown: all its replies and nothing else, oldest first. */
  ghost predicate Conversation(rows: Table, root: nat, shown: seq<Key>)
  {
    && OldestFirst(shown)
    && forall k :: k in shown <==>
      k.id in rows && k == KeyOf(rows, k.id) && rows[k.id].thread == Some(root) && k.id != root
  }

  lemma ShownIsConversation(rows: Table, roots: seq<Key>, root: Key, replies: seq<Key>)
    requires root in roots && OldestFirst(replies) && forall k :: k in replies <==> k in Replies(rows, roots)
    ensures Conversation(rows, root.id, InThread(rows, replies, root.id))
  {
    InThreadHolds(rows, replies, root.id);
    RepliesOfOne(rows, roots, root);
    hide Replies, OldestFirst, InThread;
  }

  lemma RepliesOfOne(rows: Table, roots: seq<Key>, root: Key)
    requires root in roots
    ensures forall k :: (k in Replies(rows, roots) && k.id in rows && rows[k.id].thread == Some(root.id)) <==>
      (k.id in rows && k == KeyOf(rows, k.id) && rows[k.id].thread == Some(root.id) && k.id != root.id)
  {
  }

  /** The loop that fills `reply_map`. */
  method GroupReplies(rows: Table, replies: seq<Key>) returns (m: map<nat, seq<Key>>)
    requires forall k :: k in replies ==> k.id in rows
    ensures forall root :: (if root in m then m[root] else []) == InThread(rows, replies, root)
  {
    hide InThread;
    m := map[];
    NoReplies(rows);
    for i := 0 to |replies|
      invariant forall root :: (if root in m then m[root] else []) == InThread(rows, replies[..i], root)
    {
      var k := replies[i];
      assert k in replies;
      OneMoreReply(rows, replies, i);
      var thread := rows[k.id].thread;
      if thread.Some? {
        m := m[thread.value := (if thread.value in m then m[thread.value] else []) + [k]];
      }
    }
    assert replies[..|replies|] == replies;
  }

  lemma NoReplies(rows: Table)
    ensures forall root :: InThread(rows, [], root) == []
  {
  }

  lemma OneMoreReply(rows: Table, replies: seq<Key>, i: nat)
    requires i < |replies| && replies[i].id in rows
    ensures forall root: nat :: (InThread(rows, replies[..i + 1], root) ==
      InThread(rows, replies[..i], root) + if rows[replies[i].id].thread == Some(root) then [replies[i]] else [])
  {
    assert replies[..i + 1][..i] == replies[..i];
  }

  datatype Listed = Listed(roots: seq<Key>, total: nat, next: Option<Key>, replies: map<nat, seq<Key>>)

  class Store {
    var rows: Table

    ghost predicate Valid()
      reads this
    {
      Inv(rows)
    }

    constructor ()
      ensures Valid() && rows == map[]
    {
      rows := map[];
    }

    /** `create_annotation`, with the fresh id and the creation time it is given by the database. */
    method Create(d: Draft, id: nat, now: int) returns (r: Outcome<nat>)
      requires Valid() && id !in rows
      modifies this
      ensures Valid()
      ensures r.Done? <==> Judged(old(rows), d).Done?
      ensures r.Done? ==> r.value == id && rows.Keys == old(rows).Keys + {id}
      ensures r.Done? ==> forall k :: k in old(rows) ==> rows[k] == old(rows)[k]
      ensures r.Done? && d.replyTo.None? ==>
        rows[id] == Row(d.material, d.version.value, Some(d.author), d.body, d.page, Some(id), None, now)
      ensures r.Done? && d.replyTo.Some? ==>
        var thread := old(rows)[d.replyTo.value].thread;
        rows[id] == Row(d.material, d.version.value, Some(d.author), d.body, None, thread, d.replyTo, now)
      ensures !r.Done? ==> rows == old(rows) && (r.NotFound? <==> Judged(old(rows), d).NotFound?)
    {
      if d.version.None? { return NotFound; }
      var thread: Option<nat> := None;
      if d.replyTo.Some? {
        var target := d.replyTo.value;
        if target !in rows { return NotFound; }
        if rows[target].material != d.material { return BadRequest; }
        assert Placed(rows, target);
        thread := if rows[target].thread.Some? then rows[target].thread else Some(target);
      } else if !d.positioned {
        return BadRequest;
      }
      var page := if d.replyTo.Some? then None else d.page;
      var row := Row(d.material, d.version.value, Some(d.author), d.body, page, thread, d.replyTo, now);
      ghost var before := rows;
      rows := rows[id := row];
      if d.replyTo.None? {
        rows := rows[id := row.(thread := Some(id))];
      }
      assert rows == before[id := rows[id]];
      OneMoreKeepsInv(before, id, rows[id]);
      r := Done(id);
    }

    /** `delete_annotation`: a root takes exactly its thread with it, a reply only itself. */
    method Delete(id: nat, user: nat, moderator: bool) returns (r: Outcome<(nat, nat, nat)>)
      requires Valid()
      modifies this
      ensures Valid()
      ensures r.Done? <==> id in old(rows) && (moderator || old(rows)[id].author == Some(user))
      ensures r.Done? && old(IsRoot(rows, id)) ==> rows == OutsideThread(old(rows), id)
      ensures r.Done? && !old(IsRoot(rows, id)) ==> rows == WithoutReply(old(rows), id)
      ensures r.Done? ==> r.value.0 == old(rows)[id].material && r.value.1 == id
      ensures r.Done? ==> Some(r.value.2) == old(rows)[id].thread
      ensures !r.Done? ==> rows == old(rows) && (r.NotFound? <==> id !in old(rows))
    {
      if id !in rows { return NotFound; }
      var row := rows[id];
      if row.author != Some(user) && !moderator { return Forbidden; }
      var thread := if row.thread.Some? then row.thread.value else id;
      assert Placed(rows, id);
      ghost var before := rows;
      if row.thread == Some(id) {
        RootRemovalIsExact(rows, id);
        rows := Without(rows, ThreadOf(rows, id) - {id});
        rows := rows[id := rows[id].(thread := None)];
        rows := Without(rows, {id});
        OutsideThreadKeepsInv(before, id);
      } else {
        ReplyRemovalIsExact(rows, id);
        rows := Without(rows, {id});
        WithoutReplyKeepsInv(before, id);
      }
      r := Done((row.material, id, thread));
    }

    /** `get_annotations`: a page of roots, each with its whole conversation. */
    method List(live: bool, f: Filter, versionFound: bool, limit: nat, cursor: Option<Key>,
      sorted: set<Key> -> seq<Key>)
      returns (r: Outcome<Listed>)
      requires limit >= 1 && SortsByTime(sorted)
      ensures r.Done? <==> live && versionFound
      ensures !r.Done? ==> r.NotFound?
      ensures r.Done? ==> Answer(r.value.roots, r.value.next) == Ask(Roots(rows, f), cursor, limit)
      ensures r.Done? ==> r.value.total == |Roots(rows, f)|
      ensures r.Done? ==> forall k :: k in r.value.roots ==>
        IsRoot(rows, k.id) && rows[k.id].material == f.material && (f.page.Some? ==> rows[k.id].page == f.page)
      ensures r.Done? ==> r.value.replies.Keys == set k | k in r.value.roots :: k.id
      ensures r.Done? ==> forall k :: k in r.value.roots ==> Conversation(rows, k.id, r.value.replies[k.id])
    {
      if !live || !versionFound { return NotFound; }
      hide Ask, InThread, Conversation, Replies, Roots;
      var a := Ask(Roots(rows, f), cursor, limit);
      PageIsSelected(rows, f, cursor, limit);
      ReplyIds(rows, a.page);
      var replies := sorted(Replies(rows, a.page));
      var grouped := GroupReplies(rows, replies);
      var shown := map id | id in (set k | k in a.page :: k.id) :: if id in grouped then grouped[id] else [];
      forall k | k in a.page
        ensures Conversation(rows, k.id, shown[k.id])
      {
        ShownIsConversation(rows, a.page, k, replies);
      }
      r := Done(Listed(a.page, |Roots(rows, f)|, a.next, shown));
    }
  }

  lemma PageIsSelected(rows: Table, f: Filter, cursor: Option<Key>, limit: nat)
    requires limit >= 1
    ensures forall k :: k in Ask(Roots(rows, f), cursor, limit).page ==>
      IsRoot(rows, k.id) && rows[k.id].material == f.material && (f.page.Some? ==> rows[k.id].page == f.page)
  {
    AskIsExact(Roots(rows, f), cursor, limit);
  }

  lemma ReplyIds(rows: Table, roots: seq<Key>)
    ensures forall k :: k in Replies(rows, roots) ==> k.id in rows
  {
  }

  /** A reply, or a root that is listed before the cursor, makes no difference to a walk under way. */
  lemma NewerRowsAreNotSeen(rows: Table, f: Filter, id: nat, row: Row, cursor: Key)
    requires id !in rows && (row.thread == Some(id) ==> Before(Key(row.created, id), cursor))
    ensures After(Some(cursor), Roots(rows[id := row], f)) == After(Some(cursor), Roots(rows, f))
  {
    var more := rows[id := row];
    forall k
      ensures k in After(Some(cursor), Roots(more, f)) <==> k in After(Some(cursor), Roots(rows, f))
    {
      if k in After(Some(cursor), Roots(more, f)) {
        assert k.id != id && Selects(f, rows, k.id);
      }
      if k in After(Some(cursor), Roots(rows, f)) {
        assert Selects(f, more, k.id);
      }
    }
  }
}
