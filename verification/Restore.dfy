/**
 Full-replacement restore of the managed objects in a store that has no multi-object transaction:
 server-side copies form a rollback journal, and any failed step is compensated from it.
 */
module Restore {
  import opened Text

  type Bytes = seq<int>
  type Objects = map<string, Bytes>

  /** How one awaited external call ends. A failing call may still have taken effect. */
  datatype Fault = Works | FailsBefore | FailsAfter

  /** What one call does to `before` that would make it `after`, and whether it reports success. */
  predicate Answers(fault: Fault, before: Objects, after: Objects, now: Objects, ok: bool)
  {
    now == (if fault == FailsBefore then before else after) && (ok <==> fault == Works)
  }

  /**
   An object store whose n-th call ends as `faults(n)` says; every schedule is a possible run.
   `failures` counts the calls that did not simply work.
   */
  class ObjectStore {
    var objects: Objects
    var calls: nat
    var failures: nat
    const faults: nat -> Fault

    constructor (objects: Objects, faults: nat -> Fault)
      ensures this.objects == objects && this.faults == faults && calls == failures == 0
    {
      this.objects, this.faults, calls, failures := objects, faults, 0, 0;
    }

    method NextFault() returns (fault: Fault)
      modifies this`calls, this`failures
      ensures fault == faults(old(calls)) && calls == old(calls) + 1
      ensures failures == if fault == Works then old(failures) else old(failures) + 1
    {
      fault := faults(calls);
      calls := calls + 1;
      if fault != Works { failures := failures + 1; }
    }

    /** A step that reads, extracts or lists: it may fail but never changes an object. */
    method Probe() returns (ok: bool)
      modifies this`calls, this`failures
      ensures failures == if ok then old(failures) else old(failures) + 1
      ensures calls == old(calls) + 1 && (ok <==> faults(old(calls)) == Works)
    {
      var fault := NextFault();
      ok := fault == Works;
    }

    method Put(key: string, bytes: Bytes) returns (ok: bool)
      modifies this
      ensures failures == if ok then old(failures) else old(failures) + 1
      ensures objects == old(objects)[key := bytes] || (!ok && objects == old(objects))
      ensures calls == old(calls) + 1
      ensures Answers(faults(old(calls)), old(objects), old(objects)[key := bytes], objects, ok)
    {
      var fault := NextFault();
      if fault != FailsBefore { objects := objects[key := bytes]; }
      ok := fault == Works;
    }

    /** Deleting an absent key is not an error. */
    method Delete(key: string) returns (ok: bool)
      modifies this
      ensures failures == if ok then old(failures) else old(failures) + 1
      ensures objects == old(objects) - {key} || (!ok && objects == old(objects))
      ensures calls == old(calls) + 1
      ensures Answers(faults(old(calls)), old(objects), old(objects) - {key}, objects, ok)
    {
      var fault := NextFault();
      if fault != FailsBefore { objects := objects - {key}; }
      ok := fault == Works;
    }

    /** Copying a missing object fails without touching the destination. */
    method Copy(source: string, target: string) returns (ok: bool)
      modifies this
      ensures failures == old(failures) || (!ok && failures == old(failures) + 1)
      ensures ok <==> failures == old(failures) && source in old(objects)
      ensures (source in old(objects) && objects == old(objects)[target := old(objects)[source]])
        || (!ok && objects == old(objects))
      ensures calls == old(calls) + 1
      ensures source in old(objects) ==>
        Answers(faults(old(calls)), old(objects), old(objects)[target := old(objects)[source]], objects, ok)
    {
      var fault := NextFault();
      var found := source in objects;
      if fault != FailsBefore && found { objects := objects[target := objects[source]]; }
      ok := fault == Works && found;
    }
  }

  // ---- Keys ----

  const BACKUP_PREFIXES := ["cas/", "uploads/", "thumbnails/", "branding/"]

  predicate Managed(key: string)
  {
    exists p :: p in BACKUP_PREFIXES && p <= key
  }

  const ROLLBACK_ROOT := "restore-rollback/"

  lemma RollbackKeysAreUnmanaged(key: string)
    requires ROLLBACK_ROOT <= key
    ensures !Managed(key)
  {
    assert key[0] == 'r';
    forall p | p in BACKUP_PREFIXES
      ensures !(p <= key)
    {
      assert p[0] != 'r';
    }
  }

  /** The journal key that holds the old bytes of the i-th existing object. */
  function JournalKey(prefix: string, i: nat): string
  {
    prefix + Decimal(i)
  }

  lemma JournalKeysDiffer(prefix: string)
    ensures forall i: nat, j: nat :: JournalKey(prefix, i) == JournalKey(prefix, j) ==> i == j
    ensures forall i: nat :: prefix <= JournalKey(prefix, i)
  {
    forall i: nat, j: nat | JournalKey(prefix, i) == JournalKey(prefix, j)
      ensures i == j
    {
      assert JournalKey(prefix, i)[|prefix|..] == Decimal(i);
      assert JournalKey(prefix, j)[|prefix|..] == Decimal(j);
      DecimalInjective(i, j);
    }
  }

  // ---- What the store looks like ----

  /** The managed part of the store holds exactly the objects of `wanted`. */
  ghost predicate ManagedIs(objects: Objects, wanted: Objects)
  {
    forall k :: Managed(k) ==> (k in objects <==> k in wanted) && (k in wanted ==> objects[k] == wanted[k])
  }

  /** Nothing outside the managed prefixes and the journal prefix has changed. */
  ghost predicate Framed(objects: Objects, original: Objects, prefix: string)
  {
    forall k :: !Managed(k) && !(prefix <= k) ==>
      (k in objects <==> k in original) && (k in original ==> objects[k] == original[k])
  }

  ghost predicate NoJournal(objects: Objects, prefix: string)
  {
    forall k :: k in objects ==> !(prefix <= k)
  }

  /** What an archive holds, by key. */
  datatype Entry = Entry(key: string, bytes: Bytes)

  function Contents(archive: seq<Entry>): (m: Objects)
    ensures forall k :: k in m <==> k in EntryKeys(archive)
  {
    if archive == [] then map[]
    else
      var init, last := archive[..|archive| - 1], archive[|archive| - 1];
      assert archive == init + [last];
      Contents(init)[last.key := last.bytes]
  }

  function EntryKeys(archive: seq<Entry>): set<string>
  {
    set e | e in archive :: e.key
  }

  /** What validation guarantees of an accepted archive: distinct entries, all of them managed keys. */
  predicate Acceptable(archive: seq<Entry>)
  {
    && (forall i, j :: 0 <= i < j < |archive| ==> archive[i].key != archive[j].key)
    && (forall i :: 0 <= i < |archive| ==> Managed(archive[i].key))
  }

  /** One full replacement: the variables shared by the nested functions of the restore. */
  class Replacement {
    const store: ObjectStore
    const prefix: string
    const existing: seq<string>
    var attempted: set<string>
    var restored: set<string>
    var rollbackCompleted: bool
    var snapshotCleaned: bool
    ghost const original: Objects

    /** The state right after listing the managed keys, before anything is copied. */
    constructor (store: ObjectStore, prefix: string, existing: seq<string>)
      requires ROLLBACK_ROOT <= prefix && NoJournal(store.objects, prefix)
      requires forall k :: k in existing <==> Managed(k) && k in store.objects
      requires forall i, j :: 0 <= i < j < |existing| ==> existing[i] != existing[j]
      ensures this.store == store && this.prefix == prefix && this.existing == existing
      ensures original == store.objects && attempted == {} && restored == {}
      ensures !rollbackCompleted && !snapshotCleaned && Valid() && IsOriginal()
    {
      this.store, this.prefix, this.existing := store, prefix, existing;
      attempted, restored := {}, {};
      rollbackCompleted, snapshotCleaned := false, false;
      original := store.objects;
      new;
      JournalKeysDiffer(prefix);
    }

    ghost predicate Valid()
      reads this, store
    {
      && Setting()
      && Sound(store.objects)
      && (forall k :: Managed(k) && k in store.objects ==> k in existing || k in attempted)
      && (forall k :: k in attempted ==> Managed(k))
      && (rollbackCompleted ==> IsOriginal())
    }

    /** The facts about the constants. */
    ghost predicate Setting()
    {
      && ROLLBACK_ROOT <= prefix && NoJournal(original, prefix)
      && (forall k :: k in existing <==> Managed(k) && k in original)
      && (forall i, j :: 0 <= i < j < |existing| ==> existing[i] != existing[j])
    }

    function JournalKeyOf(i: nat): string
    {
      JournalKey(prefix, i)
    }

    /** Journal entries that are present hold the original bytes, and nothing else has that prefix. */
    ghost predicate Sound(objects: Objects)
      requires Setting()
    {
      && Framed(objects, original, prefix)
      && (forall i :: 0 <= i < |existing| && JournalKeyOf(i) in objects
            ==> objects[JournalKeyOf(i)] == original[existing[i]])
      && (forall k :: k in objects && prefix <= k ==> exists i :: 0 <= i < |existing| && k == JournalKeyOf(i))
    }

    ghost predicate IsOriginal()
      reads this, store
    {
      ManagedIs(store.objects, original)
    }

    /** Every existing object still has its journal copy, so a later pass can undo everything. */
    ghost predicate JournalIntact()
      reads this, store
    {
      forall i :: 0 <= i < |existing| ==> JournalKeyOf(i) in store.objects
    }

    /** The journal keys are distinct, carry the prefix, and are no managed keys. */
    lemma JournalKeyFacts()
      requires Setting()
      ensures forall i: nat, j: nat :: JournalKeyOf(i) == JournalKeyOf(j) ==> i == j
      ensures forall i: nat :: prefix <= JournalKeyOf(i)
      ensures forall k :: prefix <= k ==> !Managed(k)
    {
      JournalKeysDiffer(prefix);
      forall k | prefix <= k
        ensures !Managed(k)
      {
        assert k[..|ROLLBACK_ROOT|] == prefix[..|ROLLBACK_ROOT|];
        RollbackKeysAreUnmanaged(k);
      }
    }

    /** Replacing or removing a managed object leaves the journal and everything else sound. */
    lemma ManagedChangeIsSound(before: Objects, after: Objects, key: string)
      requires Setting() && Sound(before) && Managed(key)
      requires after - {key} == before - {key}
      ensures Sound(after)
      ensures forall k :: prefix <= k ==> (k in after <==> k in before) && (k in before ==> after[k] == before[k])
    {
      JournalKeyFacts();
      forall k | k != key
        ensures (k in after <==> k in before) && (k in before ==> after[k] == before[k])
      {
        assert k in after <==> k in after - {key};
        assert k in before <==> k in before - {key};
        if k in before { assert (after - {key})[k] == (before - {key})[k]; }
      }
    }

    /** Writing the right bytes under a journal key, or removing one, is sound too. */
    lemma JournalChangeIsSound(before: Objects, after: Objects, i: nat)
      requires Setting() && Sound(before) && i < |existing|
      requires after - {JournalKeyOf(i)} == before - {JournalKeyOf(i)}
      requires JournalKeyOf(i) in after ==> after[JournalKeyOf(i)] == original[existing[i]]
      ensures Sound(after)
      ensures forall k :: k != JournalKeyOf(i) ==>
        (k in after <==> k in before) && (k in before ==> after[k] == before[k])
      ensures ManagedIs(after, before)
    {
      JournalKeyFacts();
      var key := JournalKeyOf(i);
      forall k | k != key
        ensures (k in after <==> k in before) && (k in before ==> after[k] == before[k])
      {
        assert k in after <==> k in after - {key};
        assert k in before <==> k in before - {key};
        if k in before { assert (after - {key})[k] == (before - {key})[k]; }
      }
    }

    // ---- The journal ----

    /** Deletes the first `n` journal copies, going on after failures. */
    method CleanupJournal(n: nat) returns (ok: bool)
      requires Valid() && n <= |existing|
      modifies store
      ensures Valid()
      ensures ManagedIs(store.objects, old(store.objects))
      ensures store.failures >= old(store.failures) && (ok <==> store.failures == old(store.failures))
      ensures ok ==> forall i :: 0 <= i < n ==> JournalKeyOf(i) !in store.objects
      ensures store.objects.Keys <= old(store.objects.Keys) && store.calls == old(store.calls) + n
      ensures forall i :: 0 <= i < n && store.faults(old(store.calls) + i) != FailsBefore ==>
        JournalKeyOf(i) !in store.objects
    {
      hide Valid;
      ok := true;
      for i := 0 to n
        invariant store.objects.Keys <= old(store.objects.Keys) && store.calls == old(store.calls) + i
        invariant forall j :: 0 <= j < i && store.faults(old(store.calls) + j) != FailsBefore ==>
          JournalKeyOf(j) !in store.objects
        invariant Valid()
        invariant ManagedIs(store.objects, old(store.objects))
        invariant store.failures >= old(store.failures) && (ok <==> store.failures == old(store.failures))
        invariant ok ==> forall j :: 0 <= j < i ==> JournalKeyOf(j) !in store.objects
      {
        var deleted := DropCopy(i);
        if !deleted { ok := false; }
      }
    }

    method DropCopy(i: nat) returns (ok: bool)
      requires Valid() && i < |existing|
      modifies store
      ensures Valid() && ManagedIs(store.objects, old(store.objects))
      ensures store.failures == if ok then old(store.failures) else old(store.failures) + 1
      ensures store.calls == old(store.calls) + 1 && store.objects.Keys <= old(store.objects.Keys)
      ensures store.faults(old(store.calls)) != FailsBefore ==> JournalKeyOf(i) !in store.objects
      ensures ok ==> JournalKeyOf(i) !in store.objects
    {
      ok := store.Delete(JournalKeyOf(i));
      JournalChangeIsSound(old(store.objects), store.objects, i);
    }

    /** Copies every existing object into the journal; a failure removes the copies made so far. */
    method Capture() returns (ok: bool)
      requires Valid() && IsOriginal()
      modifies store
      ensures Valid() && IsOriginal()
      ensures store.failures >= old(store.failures) && (ok <==> store.failures == old(store.failures))
      ensures ok ==> JournalIntact()
      ensures !ok && old(NoJournal(store.objects, prefix)) && store.failures == old(store.failures) + 1 ==>
        AtMostOneCopy(store.objects)
    {
      hide Valid;
      NoCopies(store.objects);
      for i := 0 to |existing|
        invariant Valid() && IsOriginal()
        invariant store.failures == old(store.failures)
        invariant forall j :: 0 <= j < i ==> JournalKeyOf(j) in store.objects
        invariant old(NoJournal(store.objects, prefix)) ==> CopiesBelow(store.objects, i)
      {
        var copied := CaptureOne(i);
        if !copied {
          var _ := CleanupJournal(i);
          return false;
        }
      }
      ok := true;
    }

    method CaptureOne(i: nat) returns (ok: bool)
      requires Valid() && IsOriginal() && i < |existing|
      modifies store
      ensures Valid() && IsOriginal()
      ensures store.failures == if ok then old(store.failures) else old(store.failures) + 1
      ensures forall k :: k != JournalKeyOf(i) ==> (k in store.objects <==> k in old(store.objects))
      ensures ok ==> JournalKeyOf(i) in store.objects
      ensures forall n: nat :: n <= i && CopiesBelow(old(store.objects), n) ==> CopiesBelow(store.objects, i + 1)
      ensures forall j :: 0 <= j < i && JournalKeyOf(j) in old(store.objects) ==> JournalKeyOf(j) in store.objects
    {
      JournalKeyFacts();
      assert existing[i] in existing;
      ok := store.Copy(existing[i], JournalKeyOf(i));
      JournalChangeIsSound(old(store.objects), store.objects, i);
    }

    /** Only the first `n` objects can have a copy. */
    ghost predicate CopiesBelow(objects: Objects, n: nat)
    {
      forall j: nat :: JournalKeyOf(j) in objects ==> j < n
    }

    lemma NoCopies(objects: Objects)
      ensures NoJournal(objects, prefix) ==> CopiesBelow(objects, 0)
    {
      JournalKeysDiffer(prefix);
    }

    /** At most the copy whose answer was lost is left in the journal. */
    ghost predicate AtMostOneCopy(objects: Objects)
    {
      forall i: nat, j: nat :: JournalKeyOf(i) in objects && JournalKeyOf(j) in objects ==> i == j
    }

    method CleanupSnapshot() returns (ok: bool)
      requires Valid()
      modifies store, this`snapshotCleaned
      ensures Valid() && ManagedIs(store.objects, old(store.objects))
      ensures store.failures >= old(store.failures) && (ok <==> store.failures == old(store.failures))
      ensures ok && !old(snapshotCleaned) ==> NoJournal(store.objects, prefix)
      ensures snapshotCleaned <==> ok || old(snapshotCleaned)
      ensures old(snapshotCleaned) ==> ok && store.objects == old(store.objects) && store.calls == old(store.calls)
      ensures store.objects.Keys <= old(store.objects.Keys)
    {
      if snapshotCleaned { return true; }
      ok := CleanupJournal(|existing|);
      if ok { snapshotCleaned := true; }
    }

    // ---- Undoing ----

    method CopyOneBack(i: nat) returns (ok: bool)
      requires Valid() && i < |existing|
      modifies store
      ensures Valid() && (old(IsOriginal()) ==> IsOriginal())
      ensures store.failures >= old(store.failures)
      ensures ok <==> store.failures == old(store.failures) && JournalKeyOf(i) in old(store.objects)
      ensures forall j :: 0 <= j < |existing| ==>
        (JournalKeyOf(j) in store.objects <==> JournalKeyOf(j) in old(store.objects))
      ensures forall j :: 0 <= j < i && Undone(old(store.objects), j) ==> Undone(store.objects, j)
      ensures ok ==> Undone(store.objects, i)
      ensures store.calls == old(store.calls) + 1
      ensures JournalKeyOf(i) in old(store.objects) ==> (ok <==> store.faults(old(store.calls)) == Works)
    {
      JournalKeyFacts();
      assert existing[i] in existing;
      ok := store.Copy(JournalKeyOf(i), existing[i]);
      ManagedChangeIsSound(old(store.objects), store.objects, existing[i]);
      if store.objects != old(store.objects) {
        CopiedBack(old(store.objects), store.objects, i);
      } else if ok {
        CopiedBack(old(store.objects), store.objects, i);
      }
    }

    /** Copies every journal entry back, going on after failures. */
    method CopyBack() returns (ok: bool)
      requires Valid()
      modifies store
      ensures Valid() && (old(IsOriginal()) ==> IsOriginal())
      ensures store.failures >= old(store.failures)
      ensures ok <==> store.failures == old(store.failures) && old(JournalIntact())
      ensures old(JournalIntact()) <==> JournalIntact()
      ensures ok ==> forall i :: 0 <= i < |existing| ==> Undone(store.objects, i)
      ensures store.calls == old(store.calls) + |existing|
      ensures forall i :: 0 <= i < |existing| && JournalKeyOf(i) in old(store.objects) ==>
        store.faults(old(store.calls) + i) == Works ==> Undone(store.objects, i)
    {
      hide Valid, IsOriginal, Undone, Answers;
      ok := true;
      for i := 0 to |existing|
        invariant Valid() && (old(IsOriginal()) ==> IsOriginal())
        invariant store.failures >= old(store.failures)
        invariant ok <==>
          store.failures == old(store.failures) && forall j :: 0 <= j < i ==> JournalKeyOf(j) in old(store.objects)
        invariant forall j :: 0 <= j < |existing| ==>
          (JournalKeyOf(j) in store.objects <==> JournalKeyOf(j) in old(store.objects))
        invariant ok ==> forall j :: 0 <= j < i ==> Undone(store.objects, j)
        invariant store.calls == old(store.calls) + i
        invariant forall j :: 0 <= j < i && JournalKeyOf(j) in old(store.objects) ==>
          store.faults(old(store.calls) + j) == Works ==> Undone(store.objects, j)
      {
        var copied := CopyOneBack(i);
        if !copied { ok := false; }
      }
    }

    method RemoveOne(key: string) returns (ok: bool)
      requires Valid() && key in attempted && key !in existing
      modifies store
      ensures Valid() && (old(IsOriginal()) ==> IsOriginal())
      ensures store.failures == if ok then old(store.failures) else old(store.failures) + 1
      ensures JournalIntact() <==> old(JournalIntact())
      ensures forall i :: 0 <= i < |existing| && Undone(old(store.objects), i) ==> Undone(store.objects, i)
      ensures store.objects.Keys <= old(store.objects.Keys) && (ok ==> key !in store.objects)
      ensures store.calls == old(store.calls) + 1
    {
      JournalKeyFacts();
      ok := store.Delete(key);
      ManagedChangeIsSound(old(store.objects), store.objects, key);
      assert forall i :: 0 <= i < |existing| ==> existing[i] in existing;
    }

    /** Deletes the objects that the failed replacement added, going on after failures. */
    method RemoveNew() returns (ok: bool)
      requires Valid()
      modifies store
      ensures Valid() && (old(IsOriginal()) ==> IsOriginal())
      ensures store.failures >= old(store.failures) && (ok <==> store.failures == old(store.failures))
      ensures JournalIntact() <==> old(JournalIntact())
      ensures forall i :: 0 <= i < |existing| && Undone(old(store.objects), i) ==> Undone(store.objects, i)
      ensures ok ==> forall k :: k in attempted && k !in existing ==> k !in store.objects
      ensures store.calls == old(store.calls) + |attempted - (set k | k in existing)|
    {
      hide Valid, IsOriginal, Undone, JournalIntact;
      ok := true;
      var rest := attempted - (set k | k in existing);
      while rest != {}
        invariant forall k :: k in rest ==> k in attempted && k !in existing
        invariant store.calls + |rest| == old(store.calls) + |attempted - (set k | k in existing)|
        invariant Valid() && (old(IsOriginal()) ==> IsOriginal())
        invariant store.failures >= old(store.failures) && (ok <==> store.failures == old(store.failures))
        invariant JournalIntact() <==> old(JournalIntact())
        invariant forall i :: 0 <= i < |existing| && Undone(old(store.objects), i) ==> Undone(store.objects, i)
        invariant ok ==> forall k :: k in attempted && k !in existing && k !in rest ==> k !in store.objects
        decreases rest
      {
        var key :| key in rest;
        rest := rest - {key};
        var deleted := RemoveOne(key);
        if !deleted { ok := false; }
      }
    }

    ghost predicate SameAt(a: Objects, b: Objects, k: string)
    {
      (k in a <==> k in b) && (k in a ==> a[k] == b[k])
    }

    lemma CopiedBack(before: Objects, after: Objects, i: nat)
      requires Setting() && Sound(before) && i < |existing| && JournalKeyOf(i) in before
      requires after == before[existing[i] := before[JournalKeyOf(i)]]
      ensures forall j :: 0 <= j < i && Undone(before, j) ==> Undone(after, j)
      ensures Undone(after, i)
    {
      forall j | 0 <= j < i && Undone(before, j)
        ensures Undone(after, j)
      {
        assert existing[j] != existing[i];
      }
      assert existing[i] in existing;
    }

    ghost predicate Undone(objects: Objects, i: nat)
      requires i < |existing|
    {
      existing[i] in objects && existing[i] in original && objects[existing[i]] == original[existing[i]]
    }

    /** The whole rollback: journal back, new objects out, and only then the journal away. */
    method RollbackStorage() returns (ok: bool)
      requires Valid()
      modifies store, this`rollbackCompleted, this`snapshotCleaned
      ensures Valid() && (old(IsOriginal()) ==> IsOriginal())
      ensures ok ==> rollbackCompleted && IsOriginal()
      ensures ok && !old(rollbackCompleted) && !old(snapshotCleaned) ==> NoJournal(store.objects, prefix)
      ensures store.failures >= old(store.failures)
      ensures old(JournalIntact()) ==> (ok <==> old(rollbackCompleted) || store.failures == old(store.failures))
      ensures !ok && old(JournalIntact()) ==> JournalIntact() || IsOriginal()
      ensures JournalIntact() ==> old(JournalIntact())
      ensures !ok ==> rollbackCompleted == old(rollbackCompleted) && snapshotCleaned == old(snapshotCleaned)
      ensures old(rollbackCompleted) ==>
        ok && store.objects == old(store.objects) && store.failures == old(store.failures)
    {
      if rollbackCompleted { return true; }
      ok := UndoChanges();
      if !ok { return; }
      ok := CleanupSnapshot();
      assert IsOriginal();
      if ok { rollbackCompleted := true; }
    }

    /** Both halves are always tried. */
    method UndoChanges() returns (ok: bool)
      requires Valid()
      modifies store
      ensures Valid() && (old(IsOriginal()) ==> IsOriginal())
      ensures store.failures >= old(store.failures)
      ensures ok <==> store.failures == old(store.failures) && old(JournalIntact())
      ensures JournalIntact() <==> old(JournalIntact())
      ensures ok ==> IsOriginal()
      ensures store.calls == old(store.calls) + |existing| + |attempted - (set k | k in existing)|
    {
      hide JournalIntact;
      var copied := CopyBack();
      var removed := RemoveNew();
      ok := copied && removed;
      if ok { UndoneIsOriginal(store.objects); }
    }

    lemma UndoneIsOriginal(objects: Objects)
      requires Setting()
      requires forall i :: 0 <= i < |existing| ==> Undone(objects, i)
      requires forall k :: Managed(k) && k in objects ==> k in existing
      ensures ManagedIs(objects, original)
    {
      forall k | Managed(k)
        ensures SameAt(objects, original, k)
      {
        if k in existing {
          var i :| 0 <= i < |existing| && existing[i] == k;
          assert Undone(objects, i);
        }
      }
    }

    // ---- Replacing ----

    /** The first `n` archived objects are in place. */
    ghost predicate Placed(objects: Objects, archive: seq<Entry>, n: nat)
    {
      n <= |archive| && forall j :: 0 <= j < n ==>
        archive[j].key in objects && objects[archive[j].key] == archive[j].bytes
    }

    method UploadOne(archive: seq<Entry>, i: nat) returns (ok: bool)
      requires Valid() && !rollbackCompleted && Acceptable(archive) && i < |archive|
      requires Placed(store.objects, archive, i)
      modifies store, this`attempted, this`restored
      ensures Valid() && (JournalIntact() <==> old(JournalIntact()))
      ensures store.failures == if ok then old(store.failures) else old(store.failures) + 1
      ensures attempted == old(attempted) || attempted == old(attempted) + {archive[i].key}
      ensures ok ==> attempted == old(attempted) + {archive[i].key}
      ensures ok ==> restored == old(restored) + {archive[i].key} && Placed(store.objects, archive, i + 1)
      ensures !ok ==> restored == old(restored)
    {
      hide Placed;
      JournalKeyFacts();
      var entry := archive[i];
      ok := store.Probe();
      if !ok { return; }
      // Recorded before the call, so that an upload whose answer is lost is still undone.
      attempted := attempted + {entry.key};
      ok := store.Put(entry.key, entry.bytes);
      ManagedChangeIsSound(old(store.objects), store.objects, entry.key);
      if ok {
        restored := restored + {entry.key};
        PlacedOneMore(old(store.objects), archive, i);
      }
    }

    lemma PlacedOneMore(objects: Objects, archive: seq<Entry>, i: nat)
      requires Acceptable(archive) && i < |archive| && Placed(objects, archive, i)
      ensures Placed(objects[archive[i].key := archive[i].bytes], archive, i + 1)
    {
    }

    method UploadAll(archive: seq<Entry>) returns (ok: bool)
      requires Valid() && !rollbackCompleted && Acceptable(archive) && attempted == {} == restored
      modifies store, this`attempted, this`restored
      ensures Valid() && (JournalIntact() <==> old(JournalIntact()))
      ensures store.failures >= old(store.failures) && (ok <==> store.failures == old(store.failures))
      ensures ok ==> restored == attempted == EntryKeys(archive) && Placed(store.objects, archive, |archive|)
      ensures store.failures <= old(store.failures) + 1
    {
      hide Valid, JournalIntact, Acceptable;
      assert archive[..0] == [];
      for i := 0 to |archive|
        invariant Valid() && (JournalIntact() <==> old(JournalIntact()))
        invariant store.failures == old(store.failures)
        invariant restored == attempted == EntryKeys(archive[..i])
        invariant Placed(store.objects, archive, i)
      {
        ok := UploadOne(archive, i);
        if !ok { return; }
        assert archive[..i + 1] == archive[..i] + [archive[i]];
      }
      assert archive[..|archive|] == archive;
      ok := true;
    }

    method DeleteStaleOne(archive: seq<Entry>, key: string) returns (ok: bool)
      requires Valid() && !rollbackCompleted && Managed(key) && key !in EntryKeys(archive)
      requires Placed(store.objects, archive, |archive|)
      modifies store
      ensures Valid() && (JournalIntact() <==> old(JournalIntact()))
      ensures store.failures == if ok then old(store.failures) else old(store.failures) + 1
      ensures store.objects.Keys <= old(store.objects.Keys) && (ok ==> key !in store.objects)
      ensures Placed(store.objects, archive, |archive|)
    {
      JournalKeyFacts();
      assert forall j :: 0 <= j < |archive| ==> archive[j].key in EntryKeys(archive);
      ok := store.Delete(key);
      ManagedChangeIsSound(old(store.objects), store.objects, key);
    }

    method DeleteStale(archive: seq<Entry>) returns (ok: bool)
      requires Valid() && !rollbackCompleted && restored == attempted == EntryKeys(archive)
      requires Placed(store.objects, archive, |archive|)
      modifies store
      ensures Valid() && (JournalIntact() <==> old(JournalIntact()))
      ensures store.failures >= old(store.failures) && (ok <==> store.failures == old(store.failures))
      ensures ok ==> Placed(store.objects, archive, |archive|)
      ensures ok ==> forall k :: Managed(k) && k in store.objects ==> k in EntryKeys(archive)
      ensures store.failures <= old(store.failures) + 1
    {
      var rest := (set k | k in existing) - restored;
      while rest != {}
        invariant forall k :: k in rest ==> k in existing && k !in EntryKeys(archive)
        invariant Valid() && (JournalIntact() <==> old(JournalIntact()))
        invariant store.failures == old(store.failures)
        invariant Placed(store.objects, archive, |archive|)
        invariant forall k :: k in existing && k !in EntryKeys(archive) && k !in rest ==> k !in store.objects
        decreases rest
      {
        var key :| key in rest;
        rest := rest - {key};
        ok := DeleteStaleOne(archive, key);
        if !ok { return; }
      }
      ok := true;
    }

    /** Uploads the archive and deletes what it lacks; any failure is followed by one rollback pass. */
    method Replace(archive: seq<Entry>) returns (ok: bool, undone: bool)
      requires Valid() && JournalIntact() && Acceptable(archive) && attempted == {} == restored
      requires !rollbackCompleted && !snapshotCleaned
      modifies store, this
      ensures Valid() && store.failures >= old(store.failures)
      ensures ok <==> store.failures == old(store.failures)
      ensures ok ==> ManagedIs(store.objects, Contents(archive)) && JournalIntact()
      ensures ok ==> !rollbackCompleted && !snapshotCleaned
      ensures !ok && undone ==> IsOriginal() && rollbackCompleted && NoJournal(store.objects, prefix)
      ensures !ok && !undone ==> JournalIntact() || IsOriginal()
      ensures !ok && store.failures == old(store.failures) + 1 ==> undone
      ensures !ok && !undone && JournalIntact() ==> store.failures >= old(store.failures) + 2
      ensures !ok && !undone ==> !rollbackCompleted && !snapshotCleaned
    {
      hide Valid, IsOriginal, JournalIntact;
      ok := UploadAll(archive);
      if ok { ok := DeleteStale(archive); }
      undone := false;
      if ok {
        ArchiveInPlace(store.objects, archive);
      } else {
        undone := RollbackStorage();
      }
    }

    /** The replacement, and after a failed one the second pass that the transaction's rollback callback makes. */
    method ReplaceOrUndo(archive: seq<Entry>) returns (ok: bool, undone: bool)
      requires Valid() && JournalIntact() && Acceptable(archive) && attempted == {} == restored
      requires !rollbackCompleted && !snapshotCleaned
      modifies store, this
      ensures Valid() && store.failures >= old(store.failures)
      ensures ok <==> store.failures == old(store.failures)
      ensures ok ==> ManagedIs(store.objects, Contents(archive)) && JournalIntact()
      ensures ok ==> !rollbackCompleted && !snapshotCleaned
      ensures !ok && undone ==> IsOriginal() && rollbackCompleted && NoJournal(store.objects, prefix)
      ensures !ok && !undone ==> JournalIntact() || IsOriginal()
      ensures !ok && store.failures <= old(store.failures) + 1 ==> undone
      ensures !ok && !undone && JournalIntact() ==> store.failures >= old(store.failures) + 3
    {
      hide Valid, IsOriginal, JournalIntact, Acceptable, NoJournal;
      ok, undone := Replace(archive);
      if !ok { undone := RollbackStorage(); }
    }

    lemma ArchiveInPlace(objects: Objects, archive: seq<Entry>)
      requires Acceptable(archive) && Placed(objects, archive, |archive|)
      requires forall k :: Managed(k) && k in objects ==> k in EntryKeys(archive)
      ensures ManagedIs(objects, Contents(archive))
    {
      hide Acceptable, Managed;
      forall k | k in EntryKeys(archive)
        ensures k in objects && k in Contents(archive) && objects[k] == Contents(archive)[k]
      {
        var j :| 0 <= j < |archive| && archive[j].key == k;
        ContentsAt(archive, j);
      }
      hide Contents, EntryKeys, Placed;
    }
  }

  lemma {:induction false} ContentsAt(archive: seq<Entry>, j: nat)
    requires Acceptable(archive) && j < |archive|
    ensures archive[j].key in Contents(archive) && Contents(archive)[archive[j].key] == archive[j].bytes
  {
    var init := archive[..|archive| - 1];
    assert archive == init + [archive[|archive| - 1]];
    if j < |init| {
      ContentsAt(init, j);
      assert init[j] in init;
    }
  }

  // ---- One whole restore: database transaction and storage together ----

  type Rows = map<string, seq<string>>

  /** The database: what the last acknowledged or lost COMMIT made durable. */
  class Database {
    var rows: Rows

    constructor (rows: Rows)
      ensures this.rows == rows
    {
      this.rows := rows;
    }

    /** COMMIT of a transaction that replaces every row; its acknowledgement may be lost. */
    method Commit(staged: Rows, fault: Fault) returns (ok: bool)
      modifies this
      ensures ok <==> fault == Works
      ensures rows == if fault == FailsBefore then old(rows) else staged
    {
      if fault != FailsBefore { rows := staged; }
      ok := fault == Works;
    }
  }

  const BACKUP_MAX_OBJECTS := 100_000

  function ManagedKeys(objects: Objects): set<string>
  {
    set k | k in objects && Managed(k)
  }

  /** The managed keys of the store, each once. */
  method ListManaged(store: ObjectStore) returns (keys: seq<string>)
    ensures forall k :: k in keys <==> Managed(k) && k in store.objects
    ensures forall i, j :: 0 <= i < j < |keys| ==> keys[i] != keys[j]
    ensures |keys| == |ManagedKeys(store.objects)|
  {
    var rest := ManagedKeys(store.objects);
    keys := [];
    while rest != {}
      invariant forall k :: k in rest ==> Managed(k) && k in store.objects && k !in keys
      invariant forall k :: k in keys ==> Managed(k) && k in store.objects
      invariant forall k :: Managed(k) && k in store.objects ==> k in keys || k in rest
      invariant forall i, j :: 0 <= i < j < |keys| ==> keys[i] != keys[j]
      invariant |keys| + |rest| == |ManagedKeys(store.objects)|
      decreases rest
    {
      var key :| key in rest;
      rest := rest - {key};
      keys := keys + [key];
    }
  }

  datatype RunResult =
    | Untouched               // refused or failed before anything managed changed
    | Undone                  // failed, and compensated completely
    | Unfinished              // failed, and compensation must be run again
    | CommitUnknown           // COMMIT did not answer: storage and journal are both kept
    | Committed

  /**
   A restore inside a managed transaction. On failure the transaction rolls back and the registered
   callback makes a second rollback pass; once COMMIT was attempted nothing is undone any more.
   */
  method RunRestore(store: ObjectStore, db: Database, entries: seq<Entry>, rows: Rows, prefix: string, commit: Fault)
    returns (result: RunResult, replacement: Replacement?)
    requires ROLLBACK_ROOT <= prefix && NoJournal(store.objects, prefix)
    modifies store, db
    ensures Framed(store.objects, old(store.objects), prefix)
    ensures result == Committed ==> db.rows == rows && ManagedIs(store.objects, Contents(entries))
    ensures result == Untouched || result == Undone ==>
      db.rows == old(db.rows) && ManagedIs(store.objects, old(store.objects))
    ensures result == Unfinished ==> db.rows == old(db.rows) && Recoverable(replacement, store, old(store.objects))
    ensures result == CommitUnknown ==> db.rows == old(db.rows) || db.rows == rows
    ensures result == CommitUnknown ==> ManagedIs(store.objects, Contents(entries))
    ensures result == CommitUnknown ==>
      Recoverable(replacement, store, old(store.objects)) && replacement.JournalIntact()
    ensures store.failures == old(store.failures) && commit == Works ==>
      (result == Committed <==> Acceptable(entries) && |ManagedKeys(old(store.objects))| <= BACKUP_MAX_OBJECTS)
    ensures store.failures <= old(store.failures) + 1 ==> result != Unfinished
    ensures result == Unfinished && replacement.JournalIntact() ==> store.failures >= old(store.failures) + 3
    ensures result == Undone || (result == Committed && store.failures == old(store.failures)) ==>
      NoJournal(store.objects, prefix)
    ensures result == Untouched && replacement == null ==> store.objects == old(store.objects)
    ensures result == Untouched && replacement != null && store.failures == old(store.failures) + 1 ==>
      replacement.prefix == prefix && replacement.AtMostOneCopy(store.objects)
    ensures store.faults(old(store.calls)) != Works ==> result == Untouched && replacement == null
  {
    hide Acceptable, Framed, ManagedIs, NoJournal;
    UnchangedIsFramed(store.objects, prefix);
    if !Acceptable(entries) { return Untouched, null; }
    var prepared := store.Probe();
    if !prepared { return Untouched, null; }
    var existing := ListManaged(store);
    if |existing| > BACKUP_MAX_OBJECTS { return Untouched, null; }
    var r := new Replacement(store, prefix, existing);
    var captured := r.Capture();
    if !captured { return Untouched, r; }
    var ok, undone := r.ReplaceOrUndo(entries);
    if !ok { return if undone then Undone else Unfinished, r; }
    var committed := db.Commit(rows, commit);
    if !committed { return CommitUnknown, r; }
    ghost var replaced := store.objects;
    var _ := r.CleanupSnapshot();
    ManagedIsTransitive(store.objects, replaced, Contents(entries));
    return Committed, r;
  }

  lemma UnchangedIsFramed(objects: Objects, prefix: string)
    ensures Framed(objects, objects, prefix) && ManagedIs(objects, objects)
  {
  }

  lemma ManagedIsTransitive(a: Objects, b: Objects, c: Objects)
    requires ManagedIs(a, b) && ManagedIs(b, c)
    ensures ManagedIs(a, c)
  {
  }

  /** A later rollback pass can still bring the original objects back, or they are back already. */
  ghost predicate Recoverable(replacement: Replacement?, store: ObjectStore, original: Objects)
    reads replacement, store, if replacement == null then {} else {replacement.store}
  {
    && replacement != null && replacement.store == store && replacement.original == original
    && replacement.Valid() && (replacement.JournalIntact() || replacement.IsOriginal())
  }
}
