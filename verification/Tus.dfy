/**
 The resumable upload server (tus 1.0.0): one upload resource, its Redis hash, its S3 multipart
 upload, the finished object and the processing queue. Requests on one resource are serialized by a
 lock; every awaited external call may fail before or after it took effect, and the request that
 made it then stops there.
 */
module Tus {
  import opened Text

  type Chunk = seq<int>

  /** How one awaited external call ends; `Denied` is a definitive refusal without effect. */
  datatype Fault = Works | FailsBefore | FailsAfter | Denied

  predicate Effective(f: Fault)
  {
    f == Works || f == FailsAfter
  }

  /** A call takes effect unless it failed before that, and is acknowledged only when it worked. */
  predicate Answers(f: Fault, applied: bool, ok: bool)
  {
    (applied <==> Effective(f)) && (ok <==> f == Works)
  }

  /** A recorded part. An entity tag identifies the bytes it was given for. */
  datatype Part = Part(number: nat, etag: Chunk)

  /** The bytes the recorded parts stand for, in order. */
  function Assemble(parts: seq<Part>): Chunk
  {
    if parts == [] then [] else Assemble(parts[..|parts| - 1]) + parts[|parts| - 1].etag
  }

  lemma AssembleAppend(parts: seq<Part>, part: Part)
    ensures Assemble(parts + [part]) == Assemble(parts) + part.etag
  {
  }

  /** The Redis hash of one upload. */
  datatype Hash = Hash(
    offset: nat,
    parts: seq<Part>,
    finalizing: bool,
    multipartCompleted: bool,
    enqueued: bool,
    cancelled: bool)

  /** The hash after completion, enqueue and tombstone. */
  function Settled(h: Hash): Hash
  {
    h.(finalizing := false, multipartCompleted := true, enqueued := true)
  }

  /** Part numbers are 1..n, the offset is the number of recorded bytes, and only a last part that
      reaches the end may be short. */
  ghost predicate WellRecorded(h: Hash, length: nat, chunkMin: nat)
  {
    && 1 <= length && h.offset == |Assemble(h.parts)| <= length
    && (forall i :: 0 <= i < |h.parts| ==> h.parts[i].number == i + 1 && 1 <= |h.parts[i].etag|)
    && (forall i :: 0 <= i < |h.parts| && |h.parts[i].etag| < chunkMin ==> i == |h.parts| - 1 && h.offset == length)
    && (h.offset == length <==> h.finalizing || h.multipartCompleted) && !(h.finalizing && h.multipartCompleted)
    && (h.enqueued ==> h.multipartCompleted && !h.finalizing)
  }

  lemma {:induction false} AssembleAtLeast(parts: seq<Part>, chunkMin: nat)
    requires forall i :: 0 <= i < |parts| ==> chunkMin <= |parts[i].etag|
    ensures |Assemble(parts)| >= chunkMin * |parts|
  {
    if parts != [] {
      AssembleAtLeast(parts[..|parts| - 1], chunkMin);
    }
  }

  /** Hence the number of parts is bounded by the length. */
  lemma PartCountBound(h: Hash, length: nat, chunkMin: nat)
    requires WellRecorded(h, length, chunkMin) && chunkMin >= 1
    ensures |h.parts| <= (length - 1) / chunkMin + 1
  {
    if h.parts != [] {
      var n := |h.parts| - 1;
      AssembleAtLeast(h.parts[..n], chunkMin);
      assert chunkMin * n <= length - 1;
      DivisionBound(n, chunkMin, length - 1);
    }
  }

  lemma DivisionBound(n: nat, d: nat, x: nat)
    requires d >= 1 && d * n <= x
    ensures n <= x / d
  {
    if n > x / d {
      MultiplyOrdered(d, x / d + 1, n);
    }
  }

  lemma MultiplyOrdered(d: nat, a: nat, b: nat)
    requires a <= b
    ensures d * a <= d * b
  {
  }

  lemma RecordChunk(h: Hash, length: nat, chunkMin: nat, chunk: Chunk)
    requires WellRecorded(h, length, chunkMin) && h.offset < length
    requires 1 <= |chunk| && h.offset + |chunk| <= length
    requires h.offset + |chunk| == length || |chunk| >= chunkMin
    ensures WellRecorded(WithChunk(h, length, chunk), length, chunkMin)
    ensures Assemble(WithChunk(h, length, chunk).parts) == Assemble(h.parts) + chunk
  {
  }

  /** The update of the hash that records one more part. */
  function WithChunk(h: Hash, length: nat, chunk: Chunk): Hash
  {
    var offset := h.offset + |chunk|;
    h.(offset := offset,
       parts := h.parts + [Part(|h.parts| + 1, chunk)],
       finalizing := h.finalizing || offset == length)
  }

  datatype Multipart = Open(parts: map<nat, Chunk>) | Closed

  /** The open multipart upload holds exactly the recorded bytes for every recorded part. */
  predicate Holds(m: Multipart, parts: seq<Part>)
  {
    m.Open? && forall i :: 0 <= i < |parts| ==> parts[i].number in m.parts && m.parts[parts[i].number] == parts[i].etag
  }

  /** What S3 holds agrees with the hash. */
  ghost predicate Consistent(h: Hash, length: nat, multipart: Multipart, blob: Option<Chunk>, certified: Option<Chunk>)
  {
    && (multipart.Open? ==> Holds(multipart, h.parts))
    && (blob.Some? ==> h.offset == length && blob.value == Assemble(h.parts))
    && (certified.Some? ==> h.offset == length && certified.value == Assemble(h.parts))
    && (h.multipartCompleted ==> certified.Some?)
  }

  /** Losing the multipart upload or the object, or flagging the cancellation, keeps them agreeing. */
  lemma ReleaseIsConsistent(h: Hash, length: nat, chunkMin: nat, multipart: Multipart, blob: Option<Chunk>,
    certified: Option<Chunk>)
    requires WellRecorded(h, length, chunkMin) && Consistent(h, length, multipart, blob, certified)
    ensures Consistent(h, length, Closed, blob, certified)
    ensures Consistent(h, length, multipart, None, certified)
    ensures Consistent(h, length, Closed, None, certified)
    ensures var h' := h.(cancelled := true);
      WellRecorded(h', length, chunkMin) && Consistent(h', length, multipart, blob, certified)
  {
  }

  lemma SettledIsConsistent(h: Hash, length: nat, chunkMin: nat, multipart: Multipart, blob: Option<Chunk>,
    certified: Option<Chunk>)
    requires WellRecorded(h, length, chunkMin) && Consistent(h, length, multipart, blob, certified)
    requires h.offset == length && certified.Some?
    ensures WellRecorded(Settled(h), length, chunkMin) && Consistent(Settled(h), length, multipart, blob, certified)
  {
  }

  lemma OffsetInRange(h: Hash, length: nat, chunkMin: nat)
    requires WellRecorded(h, length, chunkMin)
    ensures h.offset <= length
  {
  }

  lemma EnqueuedIsSettled(h: Hash, length: nat, chunkMin: nat)
    requires WellRecorded(h, length, chunkMin) && h.enqueued
    ensures Settled(h) == h
  {
  }

  lemma FreshHash(length: nat, chunkMin: nat, multipart: Multipart)
    requires 1 <= length && multipart.Open?
    ensures var h := Hash(0, [], false, false, false, false);
      WellRecorded(h, length, chunkMin) && Consistent(h, length, multipart, None, None)
  {
  }

  datatype Status = Pending | Processing | Clean | Malicious | Failed | CancelledRow | Applied

  predicate Terminal(s: Status)
  {
    s in {CancelledRow, Failed, Malicious, Applied}
  }

  datatype Completion = Verified | Retryable | Fatal

  datatype Response =
    | Done(offset: nat)        // 204 with the file key
    | Progress(offset: nat)    // 204 or 200
    | Gone                     // 204: the upload and everything it held are released
    | NotFound
    | Forbidden
    | Conflict                 // cancelled, or the offset does not match
    | Rejected                 // 400, 460
    | Unavailable              // 503, or an exception from an external call

  /** What an upload has outside the Redis hash. */
  datatype Effects = Effects(multipart: Multipart, blob: Option<Chunk>, jobs: set<string>)

  /** Only releases: no part, completion or job was added. */
  ghost predicate OnlyReleased(before: Effects, after: Effects)
  {
    && after.jobs == before.jobs
    && (after.multipart == before.multipart || after.multipart == Closed)
    && (after.blob == before.blob || after.blob == None)
  }

  /**
   Content shared with other uploads by reference counting: what the row says, whether this upload's release was
   recorded, the counter, the other holders, whether this upload ever took a reference, and whether the row has the
   content's digest.
   */
  datatype Share = Share(held: bool, released: bool, references: int, others: nat, taken: bool, digestKnown: bool)

  /** The counter counts the other holders and this upload's reference until it is released. */
  predicate ShareOk(s: Share)
  {
    && s.references == s.others + (if s.taken && !s.released then 1 else 0)
    && (s.held || s.released ==> s.taken) && (s.taken && !s.released ==> s.held)
  }

  /** Of a consistent share nothing of this upload is left. */
  predicate ShareReleased(s: Share)
  {
    !s.held && s.references == s.others
  }

  /** A reference can be released only while the row knows the content's digest. */
  predicate ShareKnown(s: Share)
  {
    s.held ==> s.digestKnown
  }

  /** The thumbnail the row names: none, one made for this upload, or another one. */
  datatype ThumbKey = NoKey | OwnKey | OtherKey

  /** Cached progress in Redis, the thumbnail the row names, and whether the upload's own thumbnail is stored. */
  datatype Extras = Extras(cached: bool, thumbKey: ThumbKey, thumbStored: bool)

  /** A stored thumbnail of this upload can always be found through its row. */
  predicate ExtrasOk(e: Extras)
  {
    e.thumbStored ==> e.thumbKey == OwnKey
  }

  predicate ExtrasReleased(e: Extras)
  {
    e == Extras(false, NoKey, false)
  }

  class Upload {
    const owner: string
    const uploadId: string
    const length: nat
    const chunkMin: nat
    const chunkMax: nat
    const faults: nat -> Fault
    var calls: nat
    var failures: nat
    var denials: nat
    // Redis
    var redis: Option<Hash>
    var active: bool
    var cancelMarker: bool
    // S3, queue and database row
    var multipart: Multipart
    var blob: Option<Chunk>
    var jobs: set<string>
    var status: Status
    var claimed: bool                    // an open contribution of the owner uses its files
    var share: Share
    var extras: Extras
    // History
    ghost var certified: Option<Chunk>   // the object whose size a HEAD verified after completion
    ghost var cancelRecorded: bool       // DELETE has set the cancelled flag
    ghost var condemned: bool            // completion was refused definitively

    /** Before creation: ids are chosen, and nothing exists under them. */
    constructor (owner: string, uploadId: string, length: nat, chunkMin: nat, chunkMax: nat, share: Share,
      faults: nat -> Fault)
      requires 1 <= length && 1 <= chunkMin && ShareOk(share) && !share.taken
      ensures Valid() && Blank() && this.share == share
      ensures this.length == length && this.chunkMin == chunkMin && this.uploadId == uploadId && this.owner == owner
      ensures this.chunkMax == chunkMax && this.faults == faults && calls == failures == denials == 0
    {
      this.owner, this.uploadId, this.length := owner, uploadId, length;
      this.chunkMin, this.chunkMax, this.faults := chunkMin, chunkMax, faults;
      calls, failures, denials := 0, 0, 0;
      redis, active, cancelMarker := None, false, false;
      multipart, blob, jobs, status, claimed, this.share := Closed, None, {}, Pending, false, share;
      extras := Extras(false, NoKey, false);
      certified, cancelRecorded, condemned := None, false, false;
    }

    ghost predicate Blank()
      reads this
    {
      && redis == None && !active && !cancelMarker && multipart == Closed && blob == None && jobs == {}
      && status == Pending
      && !claimed && !cancelRecorded && !condemned && certified == None
    }

    /**
     `tus_create` after its admission checks. A failed call undoes what was created; the one thing it cannot undo is a
     multipart upload whose id it never learned.
     */
    method Create() returns (ok: bool)
      requires Valid() && Blank() && calls == failures == 0
      modifies this`calls, this`failures, this`denials, this`redis, this`active, this`multipart, this`condemned
      ensures Valid() && jobs == {} && blob == None
      ensures ok <==> failures == 0
      ensures ok ==> redis == Some(Hash(0, [], false, false, false, false)) && active && IsLive() && !condemned
      ensures !ok ==> condemned
      ensures !ok ==> (multipart.Open? <==> MultipartAnswerLost() || AbortWithoutEffect())
      ensures !ok && failures == 1 ==> redis == None && !active
    {
      hide MultipartAnswerLost, AbortWithoutEffect, WorksUntil, WellRecorded;
      var fault := NextFault();                          // storage reservation
      ok := fault == Works;
      if !ok {
        condemned := true;
        FirstFailure(0);
        return;
      }
      ok := OpenMultipart();
      if !ok {
        FirstFailure(calls - 1);
        UndoCreate(false);
        return;
      }
      ok := StoreState();
      if !ok {
        FirstFailure(calls - 1);
        UndoCreate(true);
      }
    }

    /** The call that failed first decides what creation leaves behind. */
    lemma FirstFailure(n: nat)
      requires (forall i :: 0 <= i < n ==> faults(i) == Works) && faults(n) != Works
      ensures MultipartAnswerLost() <==> n == 3 && faults(3) == FailsAfter
      ensures AbortWithoutEffect() <==> 4 <= n <= 6 && !Effective(faults(n + 1))
    {
    }

    /** The cap on pending uploads, the row, and the multipart upload, whose id is known only on success. */
    method OpenMultipart() returns (known: bool)
      requires Valid() && Blank()
      modifies this`calls, this`failures, this`denials, this`multipart
      ensures Valid() && failures == if known then old(failures) else old(failures) + 1
      ensures old(calls) < calls <= old(calls) + 3 && (known ==> calls == old(calls) + 3)
      ensures forall i :: old(calls) <= i < calls - 1 ==> faults(i) == Works
      ensures known <==> faults(calls - 1) == Works
      ensures multipart == Closed || multipart == Open(map[])
      ensures multipart.Open? <==> known || (calls == old(calls) + 3 && faults(calls - 1) == FailsAfter)
    {
      var fault := NextFault();                          // pending uploads of the user
      if fault == Works { fault := NextFault(); }        // row
      known := false;
      if fault == Works {
        fault := NextFault();
        known := fault == Works;
        if known || fault == FailsAfter { multipart := Open(map[]); }
      }
    }

    /** The fourth call opened the multipart upload, but nobody was told its id. */
    predicate MultipartAnswerLost()
    {
      faults(0) == faults(1) == faults(2) == Works && faults(3) == FailsAfter
    }

    predicate WorksUntil(n: nat)
    {
      forall i :: 0 <= i < n ==> faults(i) == Works
    }

    /** A call after it failed, and the abort that followed at once had no effect. */
    predicate AbortWithoutEffect()
    {
      exists n :: 4 <= n <= 6 && WorksUntil(n) && faults(n) != Works && !Effective(faults(n + 1))
    }

    /** The hash, its expiry, and the entry in the session set. */
    method StoreState() returns (ok: bool)
      requires Valid() && redis == None && !active && !cancelRecorded && certified == None && jobs == {} && blob == None
      requires multipart == Open(map[])
      modifies this`calls, this`failures, this`denials, this`redis, this`active
      ensures Valid() && (ok <==> failures == old(failures)) && failures <= old(failures) + 1
      ensures ok ==> redis == Some(Hash(0, [], false, false, false, false)) && active
      ensures old(calls) < calls <= old(calls) + 3 && (ok <==> faults(calls - 1) == Works)
      ensures forall i :: old(calls) <= i < calls - 1 ==> faults(i) == Works
      ensures ok ==> calls == old(calls) + 3
    {
      hide WellRecorded;
      FreshHash(length, chunkMin, multipart);
      var fault := NextFault();
      if fault == Works || fault == FailsAfter { redis := Some(Hash(0, [], false, false, false, false)); }
      if fault == Works { fault := NextFault(); } else { return false; }
      if fault == Works { fault := NextFault(); } else { return false; }
      if fault == Works || fault == FailsAfter { active := true; }
      ok := fault == Works;
    }

    /** Errors of the clean-up itself are suppressed, each group on its own. */
    method UndoCreate(known: bool)
      requires Valid() && jobs == {} && blob == None && failures >= 1
      modifies this`calls, this`failures, this`denials, this`redis, this`active, this`multipart, this`condemned
      ensures Valid() && condemned && failures >= old(failures)
      ensures failures == old(failures) ==> redis == None && !active
      ensures multipart ==
        if known && Effective(faults(old(calls))) then Closed else old(multipart)
    {
      hide WellRecorded, Terminal, ShareOk, ExtrasOk;
      condemned := true;
      if known {
        var fault := NextFault();
        if Effective(fault) { multipart := Closed; }
      }
      var ok := DropState();
      var applied;
      if ok { applied, ok := Attempt(); }                // quota entry
      applied, ok := Attempt();                          // storage reservation
    }

    function JobId(): string
    {
      "tus-process:" + uploadId
    }

    ghost predicate Valid()
      reads this
    {
      && 1 <= chunkMin && 1 <= length
      && (redis.Some? ==> WellRecorded(redis.value, length, chunkMin))
      && (redis.Some? ==> Consistent(redis.value, length, multipart, blob, certified))
      && (redis.Some? && redis.value.enqueued ==> jobs != {})
      && (redis.Some? && redis.value.finalizing && IsLive() && !condemned ==> multipart.Open? || blob.Some?)
      && (redis.Some? && redis.value.offset < length && IsLive() && !condemned ==> multipart.Open?)
      && jobs <= {JobId()}
      && (jobs != {} ==> certified.Some?)
      && (certified.Some? ==> |certified.value| == length)
      && (cancelRecorded ==> redis.None? || redis.value.cancelled)
      && ShareOk(share) && ExtrasOk(extras)
    }

    /** No cancellation is visible in the hash, the marker or the row. */
    ghost predicate IsLive()
      reads this
    {
      redis.Some? && !redis.value.cancelled && !cancelMarker && !Terminal(status)
    }

    ghost function Outside(): Effects
      reads this
    {
      Effects(multipart, blob, jobs)
    }

    method NextFault() returns (fault: Fault)
      modifies this`calls, this`failures, this`denials
      ensures fault == faults(old(calls)) && calls == old(calls) + 1
      ensures failures == if fault == Works then old(failures) else old(failures) + 1
      ensures denials == if fault == Denied then old(denials) + 1 else old(denials)
    {
      fault := faults(calls);
      calls := calls + 1;
      if fault != Works { failures := failures + 1; }
      if fault == Denied { denials := denials + 1; }
    }

    /** One external call: whether it took effect, and whether the caller was told so. */
    method Attempt() returns (applied: bool, ok: bool)
      modifies this`calls, this`failures, this`denials
      ensures ok ==> applied
      ensures Answers(faults(old(calls)), applied, ok)
      ensures failures == if ok then old(failures) else old(failures) + 1
      ensures calls == old(calls) + 1
      ensures denials >= old(denials)
    {
      var fault := NextFault();
      applied, ok := fault == Works || fault == FailsAfter, fault == Works;
    }

    /** Reads the cancellation marker and the row; `h` is the hash the request has loaded. */
    method EnsureActive(h: Hash) returns (r: Option<Response>)
      requires redis == Some(h)
      modifies this`calls, this`failures, this`denials
      ensures failures >= old(failures) && denials >= old(denials)
      ensures failures == old(failures) ==> r == if IsLive() then None else Some(Conflict)
      ensures failures > old(failures) ==> r == Some(Unavailable)
      ensures r.None? ==> calls == old(calls) + 2
    {
      if h.cancelled { return Some(Conflict); }
      var fault := NextFault();
      if fault != Works { return Some(Unavailable); }
      if cancelMarker { return Some(Conflict); }
      fault := NextFault();
      if fault != Works { return Some(Unavailable); }
      r := if Terminal(status) then Some(Conflict) else None;
    }

    // ---- Completion ----

    /** Asks S3 to complete; a definitive error is one that cannot hide a success. */
    method CompleteMultipart(parts: seq<Part>) returns (error: bool, ambiguous: bool)
      modifies this`calls, this`failures, this`denials, this`multipart, this`blob
      ensures failures >= old(failures) && denials >= old(denials)
      ensures (multipart == old(multipart) && blob == old(blob))
        || (Holds(old(multipart), parts) && multipart == Closed && blob == Some(Assemble(parts)))
      ensures !error ==> blob == Some(Assemble(parts))
      ensures failures == old(failures) && Holds(old(multipart), parts) ==> !error
      ensures error && !ambiguous && Holds(old(multipart), parts) ==> denials > old(denials)
      ensures error && ambiguous ==> failures > old(failures)
      ensures (multipart, blob) == if Effective(faults(old(calls))) && Holds(old(multipart), parts)
        then (Closed, Some(Assemble(parts))) else (old(multipart), old(blob))
      ensures error <==> !(faults(old(calls)) == Works && Holds(old(multipart), parts))
      ensures error ==> (ambiguous <==> faults(old(calls)) == FailsBefore || faults(old(calls)) == FailsAfter)
      ensures calls == old(calls) + 1
      ensures failures == if faults(old(calls)) == Works then old(failures) else old(failures) + 1
    {
      var fault := NextFault();
      if fault == FailsBefore { return true, true; }
      if fault == Denied { return true, false; }
      if !Holds(multipart, parts) { return true, fault == FailsAfter; }
      multipart, blob := Closed, Some(Assemble(parts));
      return fault == FailsAfter, true;
    }

    /** HEAD on the finished object: its size, that it is missing, or that nobody can tell. */
    method Probe() returns (known: bool, size: Option<nat>)
      modifies this`calls, this`failures, this`denials
      ensures failures >= old(failures) && denials >= old(denials)
      ensures failures == old(failures) ==> known
      ensures known ==> size == if blob.Some? then Some(|blob.value|) else None
      ensures calls == old(calls) + 1 && (known <==> failures == old(failures))
    {
      var fault := NextFault();
      known := fault == Works;
      size := if blob.Some? then Some(|blob.value|) else None;
    }

    /** Completes, then lets the size of the stored object decide what really happened. */
    method CompleteVerified(parts: seq<Part>, expected: nat) returns (c: Completion)
      modifies this`calls, this`failures, this`denials, this`multipart, this`blob
      ensures failures >= old(failures) && denials >= old(denials)
      ensures c.Verified? ==> blob.Some? && |blob.value| == expected
      ensures SizesAgree(parts, old(blob), expected) ==>
        CompletionStep(parts, old(multipart), old(blob), multipart, blob)
      ensures SizesAgree(parts, old(blob), expected) && (Holds(old(multipart), parts) || old(blob).Some?) ==>
        (failures == old(failures) ==> c.Verified?) && (c.Fatal? ==> denials > old(denials))
      ensures c.Fatal? ==> blob.None?
      ensures failures == old(failures) && Holds(old(multipart), parts) && |Assemble(parts)| != expected ==> c.Fatal?
      ensures c.Verified? ==> calls == old(calls) + 2
      ensures c.Verified? ==> failures == if faults(old(calls)) == Works then old(failures) else old(failures) + 1
      ensures c.Fatal? ==> failures == if faults(old(calls)) == Works then old(failures) else old(failures) + 1
    {
      var error, ambiguous := CompleteMultipart(parts);
      var known, size := Probe();
      if !known { return Retryable; }
      if size.Some? {
        if size.value == expected { return Verified; }
        var applied, ok := Attempt();
        if applied { blob := None; }
        return if ok then Fatal else Retryable;
      }
      return if !error || ambiguous then Retryable else Fatal;
    }

    /** Makes a refused completion terminal: the hash goes, the row fails. */
    method CleanupFailed()
      requires Valid() && condemned
      modifies this`calls, this`failures, this`denials, this`multipart, this`redis, this`active, this`status
      ensures Valid() && (redis == old(redis) || redis == None)
      ensures multipart == old(multipart) || multipart == Closed
      ensures failures == old(failures) ==>
        redis.None? && !active && multipart == Closed && status in {Failed, CancelledRow}
      ensures failures >= old(failures) && denials >= old(denials)
      ensures status != old(status) ==> redis.None? && !active
      ensures failures == old(failures) ==> calls == old(calls) + 4
    {
      hide WellRecorded, Consistent, IsLive, Terminal, ShareOk;
      if redis.Some? { ReleaseIsConsistent(redis.value, length, chunkMin, multipart, blob, certified); }
      var applied, _ := Attempt();
      if applied { multipart := Closed; }
      var ok := DropState();
      if ok {
        applied, ok := Attempt();
        if applied && status != CancelledRow { status := Failed; }
      }
    }

    /** Brings S3 to a verified object for the recorded manifest; `None` means go on. */
    method VerifyManifest() returns (r: Option<Response>)
      requires Valid() && IsLive() && redis.value.offset == length && !redis.value.multipartCompleted
      modifies this`calls, this`failures, this`denials, this`multipart, this`blob, this`redis, this`active, this`status,
        this`certified, this`condemned
      ensures Valid() && failures >= old(failures) && denials >= old(denials)
      ensures r.None? ==> certified == Some(Assemble(old(redis).value.parts)) && redis == old(redis) && IsLive()
      ensures r.None? ==> status == old(status) && active == old(active)
      ensures !condemned ==> !old(condemned) && status == old(status)
      ensures redis.Some? ==> redis == old(redis)
      ensures redis.None? ==> condemned && r == Some(Rejected)
      ensures failures == old(failures) && !old(condemned) ==> r.None?
      ensures condemned ==> old(condemned) || denials > old(denials)
      ensures r.Some? ==> r == Some(Rejected) || r == Some(Unavailable)
      ensures r == Some(Rejected) && failures <= (if old(condemned) then old(failures) else old(failures) + 1) ==>
        redis.None? && !active && multipart == Closed && blob.None? && status in {Failed, CancelledRow}
      ensures r == Some(Rejected) ==> condemned
      ensures r.None? ==> calls == old(calls) + 2
      ensures r.None? ==> failures == if faults(old(calls)) == Works then old(failures) else old(failures) + 1
      ensures r == Some(Unavailable) && !old(condemned) ==> failures > old(failures)
    {
      var h := redis.value;
      if h.parts == [] { return Some(Unavailable); }
      var c := CompleteVerified(h.parts, length);
      if c == Retryable { return Some(Unavailable); }
      if c == Fatal {
        condemned := true;
        CleanupFailed();
        return Some(Rejected);
      }
      certified := blob;
      r := None;
    }

    method PersistCompletion() returns (ok: bool)
      requires Valid() && redis.Some? && redis.value.offset == length && !redis.value.enqueued
      requires certified == Some(Assemble(redis.value.parts))
      modifies this`calls, this`failures, this`denials, this`redis
      ensures Valid() && failures >= old(failures) && denials >= old(denials)
      ensures redis == old(redis) || redis == Some(old(redis).value.(multipartCompleted := true, finalizing := false))
      ensures ok ==> redis == Some(old(redis).value.(multipartCompleted := true, finalizing := false))
      ensures failures == old(failures) ==> ok
      ensures calls == old(calls) + (if old(redis).value.multipartCompleted then 0 else 1)
      ensures old(redis).value.multipartCompleted ==> redis == old(redis)
      ensures ok ==> failures == old(failures)
    {
      var applied;
      ok := true;
      if !redis.value.multipartCompleted {
        applied, ok := Attempt();
        if applied { redis := Some(redis.value.(multipartCompleted := true, finalizing := false)); }
      }
    }

    /** Persists the completion, enqueues the one job of this upload, and leaves the tombstone. */
    method EnqueueAndMark() returns (r: Response)
      requires Valid() && redis.Some? && redis.value.offset == length && !redis.value.enqueued
      requires certified == Some(Assemble(redis.value.parts)) && IsLive()
      modifies this`calls, this`failures, this`denials, this`redis, this`active, this`jobs
      ensures Valid() && failures >= old(failures) && denials >= old(denials)
      ensures redis.Some? && Settled(redis.value) == Settled(old(redis).value)
      ensures r.Done? ==> redis == Some(Settled(old(redis).value)) && JobId() in jobs && !active
      ensures failures == old(failures) ==> r.Done?
      ensures r.Done? || r == Unavailable
      ensures r.Done? ==> r.offset == length
      ensures r.Done? ==> failures == old(failures)
      ensures r.Done? ==> calls == old(calls) + (if old(redis).value.multipartCompleted then 7 else 8)
    {
      hide WellRecorded, Consistent;
      var ok := PersistCompletion();
      if !ok { return Unavailable; }
      var stop := EnsureActive(redis.value);
      if stop.Some? { return stop.value; }
      var applied;
      applied, ok := Attempt();                          // the quota entry
      if !ok { return Unavailable; }
      applied, ok := Attempt();
      if applied { jobs := jobs + {JobId()}; }           // the queue drops a repeated job id
      if !ok { return Unavailable; }
      r := LeaveTombstone();
    }

    method LeaveTombstone() returns (r: Response)
      requires Valid() && redis.Some? && redis.value.offset == length && JobId() in jobs && certified.Some?
      modifies this`calls, this`failures, this`denials, this`redis, this`active
      ensures Valid() && failures >= old(failures) && denials >= old(denials)
      ensures redis.Some? && Settled(redis.value) == Settled(old(redis).value)
      ensures r.Done? ==> redis == Some(Settled(old(redis).value)) && !active && r.offset == length
      ensures failures == old(failures) ==> r.Done?
      ensures r.Done? || r == Unavailable
      // The session entry survives a stop between the tombstone and its removal.
      ensures faults(old(calls)) == Works && faults(old(calls) + 1) != Works ==>
        redis == Some(Settled(old(redis).value)) && active == old(active)
      ensures r.Done? ==> failures == old(failures) && calls == old(calls) + 3
    {
      hide Consistent, WellRecorded;
      SettledIsConsistent(redis.value, length, chunkMin, multipart, blob, certified);
      var fault := NextFault();
      if fault == Works || fault == FailsAfter { redis := Some(Settled(redis.value)); }
      if fault != Works { return Unavailable; }
      fault := NextFault();                              // renew the expiry
      if fault != Works { return Unavailable; }
      var applied, ok := Attempt();
      if applied { active := false; }
      r := if ok then Done(redis.value.offset) else Unavailable;
    }

    /** How many calls a finalization makes when none fails: it looks for a cancellation again after every slow one. */
    function FinalizeCalls(h: Hash): nat
    {
      if h.enqueued then 2 else if h.multipartCompleted then 9 else 14
    }

    /** The completion, the third call, is not acknowledged; only the size of the object can tell what happened. */
    predicate AnswerLost(h: Hash, first: nat)
    {
      !h.enqueued && !h.multipartCompleted && faults(first + 2) != Works
    }

    /** `_finalize_tus_upload`: safe to repeat from any point where an earlier call stopped. */
    method Finalize() returns (r: Response)
      requires Valid() && redis.Some? && redis.value.offset == length
      modifies this`calls, this`failures, this`denials, this`multipart, this`blob, this`redis, this`active, this`status,
        this`jobs, this`certified, this`condemned
      ensures Valid() && failures >= old(failures) && denials >= old(denials)
      ensures redis.Some? ==> Settled(redis.value) == Settled(old(redis).value)
      ensures redis.None? ==> condemned && r == Rejected
      ensures r.Done? ==> redis == Some(Settled(old(redis).value)) && JobId() in jobs && r.offset == length
      ensures r.Done? ==> active == (old(redis).value.enqueued && old(active))
      ensures failures == old(failures) && old(IsLive()) && !old(condemned) ==> r.Done?
      ensures condemned ==> old(condemned) || denials > old(denials)
      ensures !condemned ==> !old(condemned) && status == old(status)
      ensures !r.Progress?
      ensures !old(IsLive()) ==> !r.Done? && Outside() == old(Outside()) && redis == old(redis)
      ensures r.Done? ==> calls == old(calls) + FinalizeCalls(old(redis).value)
      ensures r.Done? ==>
        failures == if AnswerLost(old(redis).value, old(calls)) then old(failures) + 1 else old(failures)
      ensures failures > old(failures) ==> r.Done? || r == Unavailable || (r == Rejected && condemned)
    {
      hide WellRecorded, ShareOk, ExtrasOk, Terminal;
      var h := redis.value;
      var stop := EnsureActive(h);
      if stop.Some? { return stop.value; }
      if h.enqueued {
        EnqueuedIsSettled(h, length, chunkMin);
        return Done(h.offset);
      }
      if !h.multipartCompleted {
        stop := VerifyManifest();
        if stop.Some? { return stop.value; }
        stop := EnsureActive(h);
        if stop.Some? { return stop.value; }
      }
      assert certified == Some(Assemble(h.parts)) by { CompletedIsCertified(); }
      r := EnqueueAndMark();
    }

    lemma CompletedIsCertified()
      requires Valid() && redis.Some? && (redis.value.multipartCompleted || certified.Some?)
      ensures certified == Some(Assemble(redis.value.parts))
    {
    }

    // ---- Requests ----

    /** Whose upload it is comes before whether it is cancelled. */
    function LoadAnswer(user: string, allowCancelled: bool): Option<Response>
      reads this
    {
      if redis.None? then Some(NotFound)
      else if user != owner then Some(Forbidden)
      else if redis.value.cancelled && !allowCancelled then Some(Conflict)
      else None
    }

    /** `_load_state`: ownership and the cancelled flag are checked before anything else. */
    method LoadState(user: string, allowCancelled: bool) returns (stop: Option<Response>)
      modifies this`calls, this`failures, this`denials
      ensures failures >= old(failures) && denials >= old(denials)
      ensures stop.None? ==> redis.Some? && user == owner && (redis.value.cancelled ==> allowCancelled)
      ensures failures == old(failures) && redis.Some? && user == owner && !redis.value.cancelled ==> stop.None?
      ensures failures == old(failures) && redis.Some? && user == owner && redis.value.cancelled && !allowCancelled ==>
        stop == Some(Conflict)
      ensures stop.Some? ==> !stop.value.Done? && !stop.value.Progress?
      ensures calls == old(calls) + 1 && (failures > old(failures) ==> stop == Some(Unavailable))
      ensures failures == old(failures) ==> stop == LoadAnswer(user, allowCancelled)
    {
      var _, ok := Attempt();
      if !ok { return Some(Unavailable); }
      if redis.None? { return Some(NotFound); }
      if user != owner { return Some(Forbidden); }
      if redis.value.cancelled && !allowCancelled { return Some(Conflict); }
      stop := None;
    }

    /** Puts the next part into the multipart upload, replacing a part that was never recorded. */
    method UploadPart(chunk: Chunk) returns (ok: bool)
      requires Valid() && redis.Some? && redis.value.offset < length
      modifies this`calls, this`failures, this`denials, this`multipart
      ensures Valid() && failures >= old(failures) && denials >= old(denials)
      ensures ok ==> Holds(multipart, redis.value.parts + [Part(|redis.value.parts| + 1, chunk)])
      ensures failures == old(failures) && multipart.Open? ==> ok
      ensures multipart == Closed || failures > old(failures) || ok
      ensures calls == old(calls) + 1 && (ok ==> failures == old(failures))
    {
      var number := |redis.value.parts| + 1;
      var applied;
      applied, ok := Attempt();
      if multipart.Closed? { return false; }
      if applied { multipart := Open(multipart.parts[number := chunk]); }
    }

    /** Records an uploaded part; offset, part list and finalizing flag change in one command. */
    method RecordPart(chunk: Chunk) returns (ok: bool)
      requires Valid() && redis.Some? && redis.value.offset < length
      requires 1 <= |chunk| && redis.value.offset + |chunk| <= length
      requires redis.value.offset + |chunk| == length || |chunk| >= chunkMin
      requires Holds(multipart, redis.value.parts + [Part(|redis.value.parts| + 1, chunk)])
      modifies this`calls, this`failures, this`denials, this`redis
      ensures Valid() && failures >= old(failures) && denials >= old(denials)
      ensures redis == old(redis) || redis == Some(WithChunk(old(redis).value, length, chunk))
      ensures ok ==> redis == Some(WithChunk(old(redis).value, length, chunk))
      ensures failures == old(failures) ==> ok
      ensures ok ==> failures == old(failures) && calls == old(calls) + 2
      ensures redis ==
        if Effective(faults(old(calls))) then Some(WithChunk(old(redis).value, length, chunk)) else old(redis)
    {
      var h := redis.value;
      RecordChunk(h, length, chunkMin, chunk);
      var applied;
      applied, ok := Attempt();
      if applied { redis := Some(WithChunk(h, length, chunk)); }
      if ok { applied, ok := Attempt(); }                // renew the expiry
    }

    /** DELETE has flagged the hash, whether or not it went on to release anything. */
    predicate Flagged()
      reads this
    {
      redis.Some? && redis.value.cancelled
    }

    /** What a PATCH has to say to be applied. */
    predicate Admissible(user: string, h: Option<Hash>, clientOffset: nat, declared: nat, body: Chunk, checksumOk: bool)
    {
      && h.Some? && user == owner && clientOffset == h.value.offset
      && declared <= chunkMax && (declared > 0 ==> |body| == declared && checksumOk && Fits(h.value.offset, body))
    }

    /** PATCH; the body is read only when a size is declared, and `checksumOk` compares it with Upload-Checksum. */
    method Patch(user: string, clientOffset: nat, declared: nat, body: Chunk, checksumOk: bool) returns (r: Response)
      requires Valid()
      modifies this
      ensures Valid() && cancelRecorded == old(cancelRecorded) && failures >= old(failures) && denials >= old(denials)
      ensures !old(IsLive()) ==> Outside() == old(Outside()) && redis == old(redis) && !r.Done?
      ensures r.Done? || r.Progress? ==> Admissible(user, old(redis), clientOffset, declared, body, checksumOk)
      ensures failures == old(failures) && old(IsLive()) && !old(condemned) ==>
        (r.Done? || r.Progress? <==> Admissible(user, old(redis), clientOffset, declared, body, checksumOk))
      ensures !Admissible(user, old(redis), clientOffset, declared, body, checksumOk) ==>
        Outside() == old(Outside()) && redis == old(redis)
      ensures r.Done? ==> r.offset == length && JobId() in jobs
      ensures r.Progress? ==> redis.Some? && r.offset == redis.value.offset
      ensures redis.Some? ==> old(redis).Some?
      ensures redis.Some? ==>
        SameRecord(old(redis).value, redis.value) || RecordedAfter(old(redis).value, redis.value, body)
      ensures redis.Some? && declared > 0 && (r.Done? || r.Progress?) ==>
        RecordedAfter(old(redis).value, redis.value, body)
      ensures failures == old(failures) && user == owner && declared <= chunkMax && old(Flagged()) ==> r == Conflict
      ensures Steady(length, old(redis), redis, condemned) && cancelMarker == old(cancelMarker)
      ensures !condemned ==> !old(condemned) && status == old(status)
      ensures condemned ==> old(condemned) || denials > old(denials)
      ensures r.Progress? ==> r.offset < length
      ensures r.Progress? ==> failures == old(failures)
      ensures r.Done? ==> failures <= old(failures) + 1
      ensures failures > old(failures) ==> r.Done? || r == Unavailable || (r == Rejected && condemned)
    {
      hide WellRecorded, Consistent, ShareOk, ExtrasOk, Terminal;
      if declared > chunkMax { return Rejected; }
      var stop := LoadState(user, false);
      if stop.Some? { return stop.value; }
      if declared > 0 && (|body| != declared || !checksumOk) { return Rejected; }
      var h := redis.value;
      if clientOffset != h.offset { return Conflict; }
      stop := EnsureActive(h);
      if stop.Some? { return stop.value; }
      if declared > 0 {
        r := ApplyChunk(body);
      } else if h.offset == length {
        r := Finalize();
      } else {
        OffsetInRange(h, length, chunkMin);
        r := Progress(h.offset);
      }
    }

    predicate Fits(offset: nat, body: Chunk)
    {
      offset + |body| <= length && (offset + |body| == length || |body| >= chunkMin)
    }

    /** The part goes to the multipart upload first; only then is it recorded. */
    method StoreChunk(body: Chunk) returns (ok: bool)
      requires Valid() && IsLive() && 1 <= |body| && redis.value.offset < length && Fits(redis.value.offset, body)
      modifies this`calls, this`failures, this`denials, this`multipart, this`redis
      ensures Valid() && failures >= old(failures) && denials >= old(denials) && IsLive()
      ensures redis == old(redis) || redis == Some(WithChunk(old(redis).value, length, body))
      ensures ok ==> redis == Some(WithChunk(old(redis).value, length, body))
      ensures RecordedAfter(old(redis).value, WithChunk(old(redis).value, length, body), body)
      ensures failures == old(failures) && !condemned ==> ok
      ensures ok ==> failures == old(failures) && calls == old(calls) + 3
    {
      hide Consistent, WellRecorded;
      AssembleAppend(redis.value.parts, Part(|redis.value.parts| + 1, body));
      ok := UploadPart(body);
      if ok { ok := RecordPart(body); }
    }

    /** The admitted part of a PATCH that carries bytes. */
    method ApplyChunk(body: Chunk) returns (r: Response)
      requires Valid() && IsLive() && |body| > 0
      modifies this
      ensures r.Done? || r.Progress? ==> Fits(old(redis).value.offset, body)
      ensures failures == old(failures) && !old(condemned) && Fits(old(redis).value.offset, body) ==>
        r.Done? || r.Progress?
      ensures !Fits(old(redis).value.offset, body) ==> Outside() == old(Outside()) && redis == old(redis)
      ensures Valid() && cancelRecorded == old(cancelRecorded) && failures >= old(failures) && denials >= old(denials)
      ensures r.Done? ==> r.offset == length && JobId() in jobs
      ensures r.Progress? ==> redis.Some? && r.offset == redis.value.offset
      ensures redis.Some? ==>
        SameRecord(old(redis).value, redis.value) || RecordedAfter(old(redis).value, redis.value, body)
      ensures redis.Some? && (r.Done? || r.Progress?) ==> RecordedAfter(old(redis).value, redis.value, body)
      ensures Steady(length, old(redis), redis, condemned) && cancelMarker == old(cancelMarker)
      ensures !condemned ==> !old(condemned) && status == old(status)
      ensures condemned ==> old(condemned) || denials > old(denials)
      ensures r.Progress? ==> r.offset < length
      ensures r.Progress? ==> failures == old(failures)
      ensures r.Done? ==> failures <= old(failures) + 1
      ensures failures > old(failures) ==> r.Done? || r == Unavailable || (r == Rejected && condemned)
    {
      hide Consistent, WellRecorded;
      var h := redis.value;
      var offset := h.offset + |body|;
      if offset > length { return Rejected; }
      if offset < length && |body| < chunkMin { return Rejected; }
      var ok := StoreChunk(body);
      if !ok { return Unavailable; }
      if offset == length {
        r := Finalize();
      } else {
        r := Progress(offset);
      }
    }

    /** HEAD: reports the offset and finishes an upload whose final PATCH stopped half-way. */
    method Head(user: string) returns (r: Response)
      requires Valid()
      modifies this
      ensures Valid() && cancelRecorded == old(cancelRecorded) && failures >= old(failures) && denials >= old(denials)
      ensures !old(IsLive()) ==> Outside() == old(Outside()) && redis == old(redis) && !r.Done?
      ensures r.Done? ==> r.offset == length && JobId() in jobs && redis == Some(Settled(old(redis).value))
      ensures r.Done? ==> certified == Some(Assemble(redis.value.parts))
      ensures r.Progress? ==> redis == old(redis) && redis.Some? && r.offset == redis.value.offset
      ensures user != owner ==> Outside() == old(Outside()) && redis == old(redis) && !r.Done? && !r.Progress?
      ensures redis.Some? ==> old(redis).Some? && Settled(redis.value) == Settled(old(redis).value)
      ensures failures == old(failures) && user == owner ==>
        old(IsLive() && !condemned && redis.value.offset == length) ==>
        r.Done?
      ensures failures == old(failures) && user == owner && old(Flagged()) ==> r == Conflict
      ensures Steady(length, old(redis), redis, condemned) && cancelMarker == old(cancelMarker)
      ensures !condemned ==> !old(condemned) && status == old(status)
      ensures condemned ==> old(condemned) || denials > old(denials)
      ensures r.Progress? ==> r.offset < length
      ensures r.Progress? ==> failures == old(failures)
      ensures r.Done? ==> failures <= old(failures) + 1
      ensures failures > old(failures) ==> r.Done? || r == Unavailable || (r == Rejected && condemned)
      ensures failures == old(failures) && old(LoadAnswer(user, false)).Some? ==>
        Some(r) == old(LoadAnswer(user, false))
      ensures failures == old(failures) && user == owner && old(IsLive()) && old(redis).value.offset < length ==>
        r == Progress(old(redis).value.offset)
    {
      var stop := LoadState(user, false);
      if stop.Some? { return stop.value; }
      var h := redis.value;
      if h.offset == length && (h.finalizing || h.multipartCompleted) {
        r := Finalize();
      } else {
        r := Progress(h.offset);
      }
    }

    /** DELETE: the cancelled flag first, then the row, the marker, S3, and last the hash itself. */
    method Delete(user: string) returns (r: Response)
      requires Valid()
      modifies this
      ensures Valid() && (old(cancelRecorded) ==> cancelRecorded) && failures >= old(failures)
      ensures denials >= old(denials)
      ensures OnlyReleased(old(Outside()), Outside())
      ensures user != owner ==>
        Outside() == old(Outside()) && redis == old(redis) && cancelRecorded == old(cancelRecorded) && !r.Gone?
      ensures r.Gone? ==> cancelRecorded && redis.None? && blob.None? && multipart == Closed && !active && cancelMarker
      ensures r.Gone? ==> ShareReleased(share) && ExtrasReleased(extras)
      ensures r.Gone? ==> !old(Uncancellable()) && ShareKnown(old(share))
      // A refusal leaves the upload flagged, although nothing was released.
      ensures r == Conflict ==> Uncancellable() && cancelRecorded && redis.Some? && redis.value.cancelled
      ensures r == Conflict ==> Outside() == old(Outside()) && share == old(share) && extras == old(extras)
      ensures redis.Some? ==> old(redis).Some? && SameRecord(old(redis).value, redis.value)
      ensures cancelRecorded ==> !IsLive()
      ensures failures == old(failures) && user == owner && old(redis).Some? ==>
        && (r == Conflict <==> old(Uncancellable()))
        && (r.Gone? <==> !old(Uncancellable()) && ShareKnown(old(share)))
      ensures !r.Done? && !r.Progress?
      ensures failures > old(failures) ==> r == Unavailable
      ensures failures == old(failures) && old(LoadAnswer(user, true)).Some? ==> Some(r) == old(LoadAnswer(user, true))
    {
      hide WellRecorded, Consistent, ShareOk, ShareReleased, Terminal, ExtrasOk, ExtrasReleased, ShareKnown;
      var applied, ok := Attempt();
      if !ok { return Unavailable; }
      if redis.None? { return NotFound; }
      if user != owner { return Forbidden; }
      ok := FlagCancelled();
      if !ok { return Unavailable; }
      r := CancelLifecycle();
      if r.Gone? {
        ok := DropState();
        if !ok { r := Unavailable; }
      }
    }

    /** The retry state is kept in the hash before anything is released. */
    method FlagCancelled() returns (ok: bool)
      requires Valid() && redis.Some?
      modifies this`calls, this`failures, this`denials, this`redis, this`cancelRecorded
      ensures Valid() && failures >= old(failures) && denials >= old(denials)
      ensures redis.Some? && SameRecord(old(redis).value, redis.value)
      ensures old(cancelRecorded) ==> cancelRecorded
      ensures (ok ==> cancelRecorded) && (cancelRecorded ==> redis.value.cancelled)
      ensures failures == old(failures) ==> ok
      ensures redis == if Effective(faults(old(calls))) then Some(old(redis).value.(cancelled := true)) else old(redis)
      ensures cancelRecorded <==> old(cancelRecorded) || Effective(faults(old(calls)))
      ensures ok ==> failures == old(failures) && calls == old(calls) + 2
    {
      hide WellRecorded, Consistent, ShareOk, Terminal;
      ReleaseIsConsistent(redis.value, length, chunkMin, multipart, blob, certified);
      var applied;
      applied, ok := Attempt();
      if applied {
        redis := Some(redis.value.(cancelled := true));
        cancelRecorded := true;
      }
      if ok { applied, ok := Attempt(); }                // renew the expiry
    }

    /** The hash goes first, then the session entry. */
    method DropState() returns (ok: bool)
      requires Valid()
      modifies this`calls, this`failures, this`denials, this`redis, this`active
      ensures Valid() && failures >= old(failures) && denials >= old(denials)
      ensures redis == old(redis) || redis == None
      ensures ok ==> redis == None && !active
      ensures failures == old(failures) ==> ok
      ensures ok ==> failures == old(failures) && calls == old(calls) + 2
    {
      hide WellRecorded, Consistent, ShareOk, Terminal;
      var applied;
      applied, ok := Attempt();
      if applied { redis := None; }
      if ok {
        applied, ok := Attempt();
        if applied { active := false; }
      }
    }

    /** An applied upload, or one that an open contribution uses, cannot be cancelled. */
    predicate Uncancellable()
      reads this
    {
      status == Applied || claimed
    }

    /** `cancel_upload_lifecycle`: refusals first, then row and marker, shared content, objects, and quota. */
    method CancelLifecycle() returns (r: Response)
      requires Valid() && cancelRecorded && redis.Some?
      modifies this`calls, this`failures, this`denials, this`status, this`cancelMarker, this`multipart, this`blob,
        this`share, this`extras
      ensures Valid() && failures >= old(failures) && denials >= old(denials)
      ensures OnlyReleased(old(Outside()), Outside())
      ensures r.Gone? ==> blob.None? && multipart == Closed && ShareReleased(share) && ExtrasReleased(extras)
      ensures r.Gone? ==> cancelMarker && status == CancelledRow
      ensures r.Gone? ==> !old(Uncancellable()) && ShareKnown(old(share))
      ensures r == Conflict ==> old(Uncancellable())
      ensures failures == old(failures) ==> (r == Conflict <==> old(Uncancellable()))
      ensures failures == old(failures) ==> (r.Gone? <==> !old(Uncancellable()) && ShareKnown(old(share)))
      ensures old(Uncancellable()) ==> Outside() == old(Outside()) && share == old(share) && extras == old(extras)
      ensures old(Uncancellable()) ==> status == old(status) && cancelMarker == old(cancelMarker)
      ensures r.Gone? || r == Conflict || r == Unavailable
      ensures failures > old(failures) ==> r == Unavailable
    {
      hide WellRecorded, Consistent, ShareOk, ShareReleased, ExtrasOk, ExtrasReleased, ShareKnown;
      var refusal := RefuseCancellation();
      if refusal.Some? { return refusal.value; }
      var ok := MarkRowCancelled();
      if !ok { return Unavailable; }
      ok := ReleaseShare();
      if !ok { return Unavailable; }
      ok := ReleaseStorage();
      if !ok { return Unavailable; }
      ok := ForgetThumbnail();
      if !ok { return Unavailable; }
      var applied;
      applied, ok := Attempt();                          // quota entries and reservation
      r := if ok then Gone else Unavailable;
    }

    method RefuseCancellation() returns (r: Option<Response>)
      modifies this`calls, this`failures, this`denials
      ensures failures >= old(failures) && denials >= old(denials)
      ensures r.None? ==> !Uncancellable()
      ensures r == Some(Conflict) ==> Uncancellable()
      ensures failures == old(failures) ==> r == if Uncancellable() then Some(Conflict) else None
      ensures r.Some? ==> r.value == Conflict || r.value == Unavailable
      ensures failures > old(failures) ==> r == Some(Unavailable)
      ensures r.None? ==> calls == old(calls) + 2
    {
      var applied, ok := Attempt();                      // the row
      if !ok { return Some(Unavailable); }
      if status == Applied { return Some(Conflict); }
      applied, ok := Attempt();                          // open contributions that claim its files
      if !ok { return Some(Unavailable); }
      r := if claimed then Some(Conflict) else None;
    }

    /** The row is authoritative; the marker is written before any release that can fail. */
    method MarkRowCancelled() returns (ok: bool)
      requires Valid() && cancelRecorded && redis.Some?
      modifies this`calls, this`failures, this`denials, this`status, this`cancelMarker, this`extras
      ensures Valid() && failures >= old(failures) && denials >= old(denials)
      ensures ok ==> status == CancelledRow && cancelMarker && !extras.cached
      ensures failures == old(failures) ==> ok
      ensures ok ==> failures == old(failures) && calls == old(calls) + 3
    {
      hide WellRecorded, Consistent, ShareOk;
      var applied;
      applied, ok := Attempt();
      if applied { status := CancelledRow; }
      if !ok { return; }
      applied, ok := Attempt();
      if applied { cancelMarker := true; }
      if !ok { return; }
      applied, ok := Attempt();
      if applied { extras := extras.(cached := false); }
    }

    /** The decrement carries an operation id, so a repetition has no effect; the row forgets it afterwards. */
    method ReleaseShare() returns (ok: bool)
      requires Valid() && cancelRecorded && redis.Some?
      modifies this`calls, this`failures, this`denials, this`share
      ensures Valid() && failures >= old(failures) && denials >= old(denials)
      ensures ok ==> ShareReleased(share)
      ensures failures == old(failures) ==> (ok <==> ShareKnown(old(share)))
      ensures ok ==> ShareKnown(old(share))
      ensures ok ==> failures == old(failures) && calls == old(calls) + (if old(share).held then 2 else 0)
    {
      hide WellRecorded, Consistent, ExtrasOk;
      ok := true;
      if !share.held { return; }
      if !share.digestKnown { return false; }
      var applied;
      applied, ok := Attempt();
      if applied && !share.released {
        share := share.(released := true, references := share.references - 1);
      }
      if !ok { return; }
      applied, ok := Attempt();
      if applied { share := share.(held := false); }
    }

    /** All storage releases are tried; a failure of any keeps the retry state. */
    method ReleaseStorage() returns (ok: bool)
      requires Valid() && cancelRecorded && redis.Some?
      modifies this`calls, this`failures, this`denials, this`multipart, this`blob, this`extras
      ensures Valid() && failures >= old(failures) && denials >= old(denials)
      ensures OnlyReleased(old(Outside()), Outside()) && extras.cached == old(extras.cached)
      ensures ok ==> blob.None? && multipart == Closed && !extras.thumbStored
      ensures failures == old(failures) ==> ok
      ensures ok ==> failures == old(failures)
      ensures calls == old(calls) + (if old(extras).thumbKey == OwnKey then 3 else 2)
    {
      hide WellRecorded, Consistent, ShareOk, ExtrasOk, Terminal;
      ReleaseIsConsistent(redis.value, length, chunkMin, multipart, blob, certified);
      var applied, aborted := Attempt();
      if applied { multipart := Closed; }
      var deleted;
      applied, deleted := Attempt();
      if applied { blob := None; }
      ok := DeleteThumbnail();
      ok := ok && aborted && deleted;
    }

    method DeleteThumbnail() returns (ok: bool)
      requires Valid()
      modifies this`calls, this`failures, this`denials, this`extras
      ensures Valid() && failures >= old(failures) && denials >= old(denials)
      ensures extras.cached == old(extras.cached) && (ok ==> !extras.thumbStored)
      ensures failures == old(failures) ==> ok
      ensures ok ==> failures == old(failures)
      ensures calls == old(calls) + (if old(extras).thumbKey == OwnKey then 1 else 0)
    {
      hide WellRecorded, Consistent, ShareOk, Terminal;
      ok := true;
      if extras.thumbKey == OwnKey {
        var applied;
        applied, ok := Attempt();
        if applied { extras := extras.(thumbStored := false); }
      }
    }

    /** The row drops its thumbnail only after the upload's own one is deleted. */
    method ForgetThumbnail() returns (ok: bool)
      requires Valid() && !extras.thumbStored
      modifies this`calls, this`failures, this`denials, this`extras
      ensures Valid() && failures >= old(failures) && denials >= old(denials)
      ensures extras.cached == old(extras.cached)
      ensures ok && !extras.cached ==> ExtrasReleased(extras)
      ensures failures == old(failures) ==> ok
      ensures ok ==> failures == old(failures)
      ensures calls == old(calls) + (if old(extras).thumbKey == NoKey then 0 else 1)
    {
      hide WellRecorded, Consistent, ShareOk;
      ok := true;
      if extras.thumbKey != NoKey {
        var applied;
        applied, ok := Attempt();
        if applied { extras := extras.(thumbKey := NoKey); }
      }
    }

    // ---- The rest of the system ----

    /** The hash expires between requests. */
    method Expire()
      requires Valid()
      modifies this`redis
      ensures Valid() && redis == None
    {
      redis := None;
    }

    /** A worker or another route moves the row on; terminal rows stay as they are. */
    method SetStatus(s: Status)
      requires Valid()
      modifies this`status
      ensures Valid() && status == if Terminal(old(status)) then old(status) else s
    {
      if !Terminal(status) { status := s; }
    }

    /** Another route marks the upload as cancelled. */
    method MarkCancelled()
      requires Valid()
      modifies this`cancelMarker
      ensures Valid()
      ensures cancelMarker
    {
      cancelMarker := true;
    }

    /** The worker stores the content under a shared key and takes a reference for this upload, once. */
    method TakeShare()
      requires Valid()
      modifies this`share
      ensures Valid()
      ensures share == if old(share).taken || Terminal(status) || cancelMarker then old(share)
        else old(share).(held := true, references := old(share).references + 1, taken := true)
    {
      if !share.taken && !Terminal(status) && !cancelMarker {
        share := share.(held := true, references := share.references + 1, taken := true);
      }
    }

    /** A worker caches the upload's progress. */
    method CacheState()
      requires Valid()
      modifies this`extras
      ensures Valid()
      ensures extras == old(extras).(cached := true)
    {
      extras := extras.(cached := true);
    }

    /** The worker stores a thumbnail for the upload, or names an existing one. */
    method SetThumbnail(own: bool)
      requires Valid()
      modifies this`extras
      ensures Valid()
      ensures extras == if old(extras).thumbKey != NoKey || Terminal(status) || cancelMarker then old(extras)
        else old(extras).(thumbKey := if own then OwnKey else OtherKey, thumbStored := own)
    {
      if extras.thumbKey == NoKey && !Terminal(status) && !cancelMarker {
        extras := extras.(thumbKey := if own then OwnKey else OtherKey, thumbStored := own);
      }
    }

    /** A contribution that uses the upload's files is opened or closed. */
    method SetClaimed(open: bool)
      requires Valid()
      modifies this`claimed
      ensures Valid()
      ensures claimed == open
    {
      claimed := open;
    }

    /** The worker moves the object away once its job exists, or a cancellation removes it. */
    method TakeObject()
      requires Valid()
      modifies this`blob
      ensures Valid() && OnlyReleased(old(Outside()), Outside())
      ensures blob ==
        if redis.None? || redis.value.multipartCompleted || Terminal(status) || cancelMarker then None else old(blob)
    {
      if redis.None? || redis.value.multipartCompleted || Terminal(status) || cancelMarker {
        blob := None;
      }
    }
  }

  const TUS_VERSION := "1.0.0"

  /** `tus_create`: nothing exists for a refused request; `fileOk` stands for the checks of name, type and type size. */
  method TusCreate(version: string, length: Option<int>, maxBytes: int, fileOk: bool, owner: string, uploadId: string,
    chunkMin: nat, chunkMax: nat, share: Share, faults: nat -> Fault) returns (upload: Upload?, created: bool)
    requires 1 <= chunkMin && ShareOk(share) && !share.taken
    ensures upload != null <==> version == TUS_VERSION && length.Some? && 1 <= length.value <= maxBytes && fileOk
    ensures upload == null ==> !created
    ensures upload != null ==> fresh(upload) && upload.Valid() && upload.length == length.value && upload.owner == owner
    ensures upload != null ==> (created <==> upload.failures == 0) && upload.jobs == {} && upload.blob == None
    ensures created ==> upload.redis == Some(Hash(0, [], false, false, false, false)) && upload.IsLive()
    ensures upload != null && !created ==>
      (upload.multipart.Open? <==> upload.MultipartAnswerLost() || upload.AbortWithoutEffect())
  {
    if version != TUS_VERSION || length.None? || length.value <= 0 || length.value > maxBytes || !fileOk {
      return null, false;
    }
    upload := new Upload(owner, uploadId, length.value, chunkMin, chunkMax, share, faults);
    created := upload.Create();
  }

  datatype Event =
    | PatchEvent(user: string, offset: nat, declared: nat, body: Chunk, checksumOk: bool)
    | HeadEvent(user: string)
    | DeleteEvent(user: string)
    | ExpireEvent
    | StatusEvent(status: Status)
    | CancelEvent
    | TakeEvent
    | ShareEvent
    | ClaimEvent(open: bool)
    | CacheEvent
    | ThumbnailEvent(own: bool)

  predicate IsRequest(e: Event)
  {
    e.PatchEvent? || e.HeadEvent? || e.DeleteEvent?
  }

  /** Requests that continue the upload, and what workers and contributions do to it while it is not cancelled. */
  predicate Benign(e: Event)
  {
    match e
    case DeleteEvent(_) => false
    case ExpireEvent => false
    case CancelEvent => false
    case StatusEvent(s) => !Terminal(s)
    case _ => true
  }

  /** A complete upload keeps settling to the same hash, which disappears only after a definitive refusal. */
  predicate Steady(length: nat, before: Option<Hash>, after: Option<Hash>, condemned: bool)
  {
    before.Some? && before.value.offset == length ==>
      (after.None? ==> condemned) && (after.Some? ==> Settled(after.value) == Settled(before.value))
  }

  /** One request or outside event; a request is answered, and without a failing call as the protocol promises. */
  method Step(upload: Upload, e: Event) returns (r: Option<Response>)
    requires upload.Valid()
    modifies upload
    ensures upload.Valid() && (old(upload.cancelRecorded) ==> upload.cancelRecorded)
    ensures old(upload.cancelRecorded) ==> OnlyReleased(old(upload.Outside()), upload.Outside())
    ensures Benign(e) ==> Steady(upload.length, old(upload.redis), upload.redis, upload.condemned)
    ensures Benign(e) ==> upload.cancelMarker == old(upload.cancelMarker) && upload.denials >= old(upload.denials)
    ensures Benign(e) && !upload.condemned && !Terminal(old(upload.status)) ==> !Terminal(upload.status)
    ensures Benign(e) && upload.condemned ==> old(upload.condemned) || upload.denials > old(upload.denials)
    ensures Benign(e) && old(upload.condemned) ==> upload.condemned
    ensures r.Some? <==> IsRequest(e)
    ensures upload.failures == old(upload.failures) ==>
      Answered(e, old(upload.IsLive() && !upload.condemned), old(upload.redis), upload.owner, upload.length, r)
    ensures Occurred(upload, e)
  {
    hide Consistent, ShareOk, ExtrasOk;
    r := None;
    match e
    case PatchEvent(user, offset, declared, body, ok) =>
      var answer := upload.Patch(user, offset, declared, body, ok);
      r := Some(answer);
    case HeadEvent(user) =>
      var answer := upload.Head(user);
      r := Some(answer);
    case DeleteEvent(user) =>
      var answer := upload.Delete(user);
      r := Some(answer);
    case ExpireEvent => upload.Expire();
    case StatusEvent(s) => upload.SetStatus(s);
    case CancelEvent => upload.MarkCancelled();
    case TakeEvent => upload.TakeObject();
    case ShareEvent => upload.TakeShare();
    case ClaimEvent(open) => upload.SetClaimed(open);
    case CacheEvent => upload.CacheState();
    case ThumbnailEvent(own) => upload.SetThumbnail(own);
  }

  /** The answer of a request of the owner to a live upload; nobody else gets one that tells anything. */
  predicate Answered(e: Event, live: bool, before: Option<Hash>, owner: string, length: nat, r: Option<Response>)
  {
    match e
    case HeadEvent(user) =>
      && (before.None? ==> r == Some(NotFound))
      && (before.Some? && user != owner ==> r == Some(Forbidden))
      && (before.Some? && user == owner && live ==>
        r == if before.value.offset == length then Some(Done(length)) else Some(Progress(before.value.offset)))
    case DeleteEvent(user) =>
      (before.None? ==> r == Some(NotFound)) && (before.Some? && user != owner ==> r == Some(Forbidden))
    case _ => true
  }

  /** What an outside event does; workers leave a cancelled or finished upload alone. */
  twostate predicate Occurred(upload: Upload, e: Event)
    reads upload
  {
    var over := Terminal(old(upload.status)) || old(upload.cancelMarker);
    match e
    case ExpireEvent => upload.redis == None
    case StatusEvent(s) => upload.status == if Terminal(old(upload.status)) then old(upload.status) else s
    case CancelEvent => upload.cancelMarker
    case ClaimEvent(open) => upload.claimed == open
    case CacheEvent => upload.extras == old(upload.extras).(cached := true)
    case TakeEvent =>
      over || old(upload.redis).None? || old(upload.redis).value.multipartCompleted ==> upload.blob == None
    case ShareEvent => !over ==> upload.share.taken
    case ThumbnailEvent(own) => !over ==> upload.extras.thumbKey != NoKey
    case _ => true
  }

  /**
   Any sequence of requests and outside events; crash points come from the fault schedule. The second half is about
   benign events from a complete and live upload.
   */
  method Run(upload: Upload, events: seq<Event>) returns (responses: seq<Option<Response>>)
    requires upload.Valid()
    modifies upload
    ensures upload.Valid()
    ensures |responses| == |events| && forall i :: 0 <= i < |events| ==> (responses[i].Some? <==> IsRequest(events[i]))
    ensures old(upload.cancelRecorded) ==>
      upload.cancelRecorded && OnlyReleased(old(upload.Outside()), upload.Outside())
    ensures old(Complete(upload)) && (forall e :: e in events ==> Benign(e)) ==>
      && upload.denials >= old(upload.denials) && (upload.condemned ==> upload.denials > old(upload.denials))
      && (!upload.condemned ==> upload.IsLive() && Settled(upload.redis.value) == Settled(old(upload.redis.value)))
  {
    responses := [];
    for i := 0 to |events|
      invariant upload.Valid() && |responses| == i
      invariant forall j :: 0 <= j < i ==> (responses[j].Some? <==> IsRequest(events[j]))
      invariant old(upload.cancelRecorded) ==>
        upload.cancelRecorded && OnlyReleased(old(upload.Outside()), upload.Outside())
      invariant old(Complete(upload)) && (forall e :: e in events ==> Benign(e)) ==>
        && upload.denials >= old(upload.denials) && (upload.condemned ==> upload.denials > old(upload.denials))
        && (!upload.condemned ==> upload.IsLive() && Settled(upload.redis.value) == Settled(old(upload.redis.value)))
    {
      assert events[i] in events;
      var r := Step(upload, events[i]);
      responses := responses + [r];
    }
  }

  ghost predicate Complete(upload: Upload)
    reads upload
  {
    upload.IsLive() && !upload.condemned && upload.redis.value.offset == upload.length
  }

  /**
   Convergence: whatever stopped the earlier requests, and whatever the workers did, one HEAD without a failing call
   settles the upload, unless its completion was refused definitively. `before` counts the failures up to that HEAD.
   */
  method Reconcile(upload: Upload, events: seq<Event>)
    returns (responses: seq<Option<Response>>, r: Response, ghost before: nat)
    requires upload.Valid() && Complete(upload)
    requires forall e :: e in events ==> Benign(e)
    modifies upload
    ensures |responses| == |events| && forall i :: 0 <= i < |events| ==> (responses[i].Some? <==> IsRequest(events[i]))
    ensures upload.Valid() && upload.failures >= before && (upload.condemned ==> upload.denials > old(upload.denials))
    ensures upload.failures == before && !upload.condemned ==>
      && r == Done(upload.length) && upload.JobId() in upload.jobs
      && upload.redis == Some(Settled(old(upload.redis.value)))
      && upload.certified == Some(Assemble(old(upload.redis.value.parts)))
  {
    responses := Run(upload, events);
    before := upload.failures;
    r := upload.Head(upload.owner);
  }

  ghost predicate SameRecord(before: Hash, after: Hash)
  {
    after.offset == before.offset && after.parts == before.parts
  }

  /** The hash records exactly one more part, with these bytes. */
  ghost predicate RecordedAfter(before: Hash, after: Hash, body: Chunk)
  {
    && after.offset == before.offset + |body|
    && Assemble(after.parts) == Assemble(before.parts) + body
  }

  ghost predicate SizesAgree(parts: seq<Part>, stored: Option<Chunk>, expected: nat)
  {
    |Assemble(parts)| == expected && (stored.Some? ==> |stored.value| == expected)
  }

  /** Nothing changed, or the open upload became the object its parts stand for. */
  ghost predicate CompletionStep(parts: seq<Part>, m0: Multipart, b0: Option<Chunk>, m1: Multipart, b1: Option<Chunk>)
  {
    || (m1 == m0 && b1 == b0)
    || (Holds(m0, parts) && m1 == Closed && b1 == Some(Assemble(parts)))
  }
}
