/** The stages that certify a release, from a checked environment file to a deployment's own. */
module ReleaseStages {
  import opened Text
  import opened Ordering
  import opened ReleaseEnv
  import opened ReleasePolicy
  import opened ReleaseText

  // ---- Documents ----

  /** One entry of the registry inspection; the tag fields are null for infrastructure images. */
  datatype Record = Record(reference: string, digest: string, platforms: seq<string>,
    tagReference: Option<string>, tagDigest: Option<string>)

  datatype Inspections = Inspections(schema: int, commit: string, platforms: seq<string>, images: map<Key, Record>)

  datatype ServiceMap = ServiceMap(schema: int, commit: string, profiles: seq<string>, inputSha: string,
    services: map<string, string>)

  datatype Toolchain = Toolchain(redisTestImage: string, seaweedTestImage: string, others: map<string, string>)

  datatype Manifest = Manifest(
    schema: int, commit: string, composeFiles: map<string, string>, profiles: seq<string>, platforms: seq<string>,
    envSha: string, inspectionSha: string, serviceMapSha: string, toolchainSha: string, toolchain: Toolchain,
    images: map<Key, string>, services: map<string, string>, inspections: map<Key, Record>)

  /** The digest function and the JSON printers and readers, which are not modelled further. */
  datatype Tools = Tools(
    sha: string -> string,
    printInspections: Inspections -> string, readInspections: string -> Option<Inspections>,
    printServiceMap: ServiceMap -> string, readServiceMap: string -> Option<ServiceMap>,
    printManifest: Manifest -> string, readManifest: string -> Option<Manifest>)
  {
    /** A digest is 64 lower-case hexadecimal digits, and a printed document reads back as itself. */
    ghost predicate Lawful()
    {
      && (forall s :: IsHex(sha(s), 64))
      && (forall d :: readInspections(printInspections(d)) == Some(d))
      && (forall d :: readServiceMap(printServiceMap(d)) == Some(d))
      && (forall d :: readManifest(printManifest(d)) == Some(d))
    }
  }

  /** What the scripts take from the checked-out repository. */
  datatype Checkout = Checkout(composeFiles: map<string, string>, toolchainText: string, toolchain: Option<Toolchain>)

  function HashesOf(files: map<string, string>, sha: string -> string): map<string, string>
  {
    map path | path in files :: sha(files[path])
  }

  // ---- References and digests ----

  const REQUIRED_PLATFORMS := ["linux/amd64", "linux/arm64"]

  /** `reference_for_image`. */
  function Reference(k: Key, value: string): string
  {
    if k == PolicyImageDigest then Repository(k) + "@" + value else value
  }

  function CommitTag(k: Key, commit: string): string
  {
    Repository(k) + ":sha-" + commit
  }

  /** `s.rsplit(sep, 1)[1]`; none when the separator does not occur. */
  function AfterLast(s: string, sep: char): Option<string>
  {
    if s == "" then None
    else
      match AfterLast(s[1..], sep)
      case Some(t) => Some(t)
      case None => if s[0] == sep then Some(s[1..]) else None
  }

  lemma {:induction false} NothingAfter(s: string, sep: char)
    requires sep !in s
    ensures AfterLast(s, sep) == None
  {
    if s != "" { NothingAfter(s[1..], sep); }
  }

  lemma {:induction false} AfterLastFinds(a: string, b: string, sep: char)
    requires sep !in b
    ensures AfterLast(a + ([sep] + b), sep) == Some(b)
  {
    if a == "" {
      assert (a + ([sep] + b))[1..] == b;
      NothingAfter(b, sep);
    } else {
      assert (a + ([sep] + b))[1..] == a[1..] + ([sep] + b);
      AfterLastFinds(a[1..], b, sep);
    }
  }

  /** `digest_from_reference`. */
  function DigestOf(reference: string): Option<string>
  {
    match AfterLast(reference, '@')
    case Some(d) => if IsDigest(d) then Some(d) else None
    case None => None
  }

  /** Exactly the references that end in an `@` and a digest name one. */
  lemma DigestOfMeaning(reference: string, d: string)
    ensures DigestOf(reference) == Some(d) <==> IsDigest(d) && "@" + d == Ending(reference, |d| + 1)
  {
    if AfterLast(reference, '@').Some? { AfterLastEnds(reference, '@'); }
    if IsDigest(d) && "@" + d == Ending(reference, |d| + 1) {
      DigestsHoldNoAt(d);
      var a := reference[..|reference| - |d| - 1];
      assert reference == a + (['@'] + d);
      AfterLastFinds(a, d, '@');
    }
  }

  function Ending(s: string, n: nat): string
  {
    if n <= |s| then s[|s| - n..] else s
  }

  lemma {:induction false} AfterLastEnds(s: string, sep: char)
    ensures var r := AfterLast(s, sep); r.Some? ==> [sep] + r.value == Ending(s, |r.value| + 1)
  {
    if s != "" && AfterLast(s, sep).Some? {
      AfterLastEnds(s[1..], sep);
    }
  }

  lemma DigestsHoldNoAt(d: string)
    requires IsDigest(d)
    ensures '@' !in d
  {
  }

  /** A reference made from a checked value ends in the digest of that value. */
  lemma ReferenceEndsInItsDigest(k: Key, value: string)
    requires MatchesPattern(k, value) && k != ReleaseCommit && k != ComposeProfiles
    ensures Reference(k, value) == Repository(k) + "@" + value[|ImagePrefix(k)|..]
    ensures DigestOf(Reference(k, value)) == Some(value[|ImagePrefix(k)|..])
  {
    var d := value[|ImagePrefix(k)|..];
    hide IsDigest, Repository, AfterLast;
    DigestsHoldNoAt(d);
    AfterLastFinds(Repository(k), d, '@');
    ReferenceParts(k, value);
  }

  lemma ReferenceParts(k: Key, value: string)
    requires ImagePrefix(k) <= value
    ensures Reference(k, value) == Repository(k) + (['@'] + value[|ImagePrefix(k)|..])
    ensures Reference(k, value) == Repository(k) + "@" + value[|ImagePrefix(k)|..]
  {
  }

  // ---- Registry inspection ----

  datatype Descriptor = NoPlatform | Platform(os: string, architecture: string, variant: string)

  datatype Index = Index(digest: Option<string>, descriptors: seq<Descriptor>)

  /** The normalized platform of one descriptor. */
  function PlatformName(d: Descriptor): Option<string>
  {
    match d
    case NoPlatform => None
    case Platform(os, architecture, variant) =>
      if os == "unknown" || architecture == "unknown" then None
      else if variant != "" && !(architecture == "arm64" && variant == "v8") then
        Some(os + "/" + architecture + "/" + variant)
      else Some(os + "/" + architecture)
  }

  /** Attestations, whose platform is unknown, have no name; `v8` is what arm64 means anyway. */
  lemma PlatformParts(d: Descriptor)
    requires d.Platform? && '/' !in d.os && '/' !in d.architecture && '/' !in d.variant
    ensures PlatformName(d).Some? <==> d.os != "unknown" && d.architecture != "unknown"
    ensures var plain := d.variant == "" || (d.architecture == "arm64" && d.variant == "v8");
      PlatformName(d).Some? ==>
        Split(PlatformName(d).value, '/') == [d.os, d.architecture] + if plain then [] else [d.variant]
  {
    SplitTwo(d.os, d.architecture, '/');
    SplitTwo(d.os + "/" + d.architecture, d.variant, '/');
    SplitWhole(d.os, '/');
    SplitWhole(d.architecture, '/');
    SplitWhole(d.variant, '/');
  }

  function PlatformSet(descriptors: seq<Descriptor>): set<string>
  {
    set d | d in descriptors && PlatformName(d).Some? :: PlatformName(d).value
  }

  /** A list that holds each member of a set once, in ascending order. */
  ghost predicate Lists(list: seq<string>, s: set<string>)
  {
    Ascending(list) && multiset(list) == multiset(s)
  }

  method SortedSet(s: set<string>) returns (list: seq<string>)
    ensures Lists(list, s)
  {
    list := [];
    var left := s;
    while left != {}
      invariant left <= s && Lists(list, s - left)
      decreases left
    {
      var x :| x in left;
      InsertKeepsOrder(x, list);
      list := Insert(x, list);
      assert s - (left - {x}) == (s - left) + {x};
      assert multiset((s - left) + {x}) == multiset(s - left) + multiset{x};
      left := left - {x};
    }
    assert s - left == s;
  }

  /** `_platforms`. */
  method Platforms(index: Index) returns (list: seq<string>)
    ensures Lists(list, PlatformSet(index.descriptors))
  {
    var names: set<string> := {};
    for i := 0 to |index.descriptors|
      invariant names == PlatformSet(index.descriptors[..i])
    {
      var d := index.descriptors[i];
      assert index.descriptors[..i + 1] == index.descriptors[..i] + [d];
      OneMorePlatform(index.descriptors[..i], d);
      if PlatformName(d).Some? { names := names + {PlatformName(d).value}; }
    }
    assert index.descriptors[..|index.descriptors|] == index.descriptors;
    list := SortedSet(names);
  }

  lemma OneMorePlatform(ds: seq<Descriptor>, d: Descriptor)
    ensures PlatformSet(ds + [d]) ==
      if PlatformName(d).Some? then PlatformSet(ds) + {PlatformName(d).value} else PlatformSet(ds)
  {
  }

  const REQUIRED_SET: set<string> := {"linux/amd64", "linux/arm64"}

  lemma ListsRequired(list: seq<string>, s: set<string>)
    requires Lists(list, s)
    ensures list == REQUIRED_PLATFORMS <==> s == REQUIRED_SET
  {
    RequiredIsListed();
    if s == REQUIRED_SET {
      AscendingIsUnique(list, REQUIRED_PLATFORMS);
    }
    if list == REQUIRED_PLATFORMS {
      SetOfBag(s, REQUIRED_SET);
    }
  }

  lemma SetOfBag(s: set<string>, t: set<string>)
    requires multiset(s) == multiset(t)
    ensures s == t
  {
    forall x
      ensures x in s <==> x in t
    {
      assert (x in s <==> x in multiset(s)) && (x in t <==> x in multiset(t));
    }
  }

  lemma RequiredIsListed()
    ensures Lists(REQUIRED_PLATFORMS, REQUIRED_SET)
  {
  }

  /** What `validate_inspections` asks of the record of one image. */
  predicate RecordFits(k: Key, value: string, record: Record, commit: string)
  {
    var reference := Reference(k, value);
    && DigestOf(reference) == Some(record.digest) && record.reference == reference
    && if IsOwn(k) then
         && record.tagReference == Some(CommitTag(k, commit)) && record.tagDigest == Some(record.digest)
         && Sorted(record.platforms) == Sorted(REQUIRED_PLATFORMS)
       else record.tagReference == None && record.tagDigest == None
  }

  /** `validate_inspections` accepts. */
  predicate InspectionsFit(p: Inspections, commit: string, images: map<Key, string>)
  {
    && p.schema == 1 && p.commit == commit && p.platforms == REQUIRED_PLATFORMS && p.images.Keys == images.Keys
    && forall k :: k in images ==> RecordFits(k, images[k], p.images[k], commit)
  }

  /** The record names the image's own digest, and for an own image also its commit tag and both platforms. */
  ghost predicate NamesImage(k: Key, value: string, record: Record, commit: string)
  {
    && value == ImagePrefix(k) + record.digest && record.reference == Repository(k) + "@" + record.digest
    && record.tagReference == (if IsOwn(k) then Some(Repository(k) + ":sha-" + commit) else None)
    && record.tagDigest == (if IsOwn(k) then Some(record.digest) else None)
    && (IsOwn(k) ==> multiset(record.platforms) == multiset(["linux/amd64", "linux/arm64"]))
  }

  lemma RecordMeaning(k: Key, value: string, record: Record, commit: string)
    requires MatchesPattern(k, value) && k != ReleaseCommit && k != ComposeProfiles
    ensures RecordFits(k, value, record, commit) <==> NamesImage(k, value, record, commit)
  {
    hide MatchesPattern, DigestOf, Reference, Repository, Sorted, ImagePrefix;
    ReferenceEndsInItsDigest(k, value);
    BeginsWithItsPrefix(k, value);
    SortedIffSameItems(record.platforms, REQUIRED_PLATFORMS);
  }

  lemma BeginsWithItsPrefix(k: Key, value: string)
    requires MatchesPattern(k, value) && k != ReleaseCommit && k != ComposeProfiles
    ensures ImagePrefix(k) <= value && value == ImagePrefix(k) + value[|ImagePrefix(k)|..]
  {
    hide ImagePrefix;
  }

  /** The inspection payloads accepted for a release: one record for each of its images and nothing else. */
  lemma InspectionsMeaning(p: Inspections, r: Release)
    requires Sound(r)
    ensures InspectionsFit(p, r.commit, r.images) <==>
      (&& p == Inspections(1, r.commit, ["linux/amd64", "linux/arm64"], p.images) && p.images.Keys == r.images.Keys
       && forall k :: k in r.images ==> NamesImage(k, r.images[k], p.images[k], r.commit))
  {
    ImageKeys(r);
    hide RecordFits, NamesImage, Required, Canonical;
    forall k | k in r.images && k in p.images
      ensures RecordFits(k, r.images[k], p.images[k], r.commit) <==> NamesImage(k, r.images[k], p.images[k], r.commit)
    {
      RecordMeaning(k, r.images[k], p.images[k], r.commit);
    }
  }

  predicate HasDigest(found: Option<Index>, digest: string)
  {
    found.Some? && found.value.digest == Some(digest)
  }

  /** What the registry has to hold for one image to pass. */
  ghost predicate Resolves(registry: string -> Option<Index>, k: Key, value: string, commit: string)
  {
    var reference := Reference(k, value);
    && DigestOf(reference).Some? && HasDigest(registry(reference), DigestOf(reference).value)
    && (IsOwn(k) ==>
      (&& HasDigest(registry(CommitTag(k, commit)), DigestOf(reference).value)
       && PlatformSet(registry(CommitTag(k, commit)).value.descriptors) == REQUIRED_SET
       && PlatformSet(registry(reference).value.descriptors) == REQUIRED_SET))
  }

  /** The record that states what the registry holds. */
  ghost predicate Recorded(registry: string -> Option<Index>, k: Key, value: string, commit: string, record: Record)
  {
    var reference := Reference(k, value);
    && Resolves(registry, k, value, commit)
    && record.reference == reference && DigestOf(reference) == Some(record.digest)
    && Lists(record.platforms, PlatformSet(registry(reference).value.descriptors))
    && record.tagReference == (if IsOwn(k) then Some(CommitTag(k, commit)) else None)
    && record.tagDigest == if IsOwn(k) then Some(record.digest) else None
  }

  lemma RecordedFits(registry: string -> Option<Index>, k: Key, value: string, commit: string, record: Record)
    requires Recorded(registry, k, value, commit, record)
    ensures RecordFits(k, value, record, commit)
  {
    hide DigestOf, PlatformSet, Reference, CommitTag;
    if IsOwn(k) {
      ListsRequired(record.platforms, REQUIRED_SET);
    }
  }

  /** One turn of the loop in `inspect-production-images.py`. */
  method InspectOne(registry: string -> Option<Index>, k: Key, value: string, commit: string)
    returns (r: Option<Record>)
    ensures r.Some? <==> Resolves(registry, k, value, commit)
    ensures r.Some? ==> Recorded(registry, k, value, commit, r.value)
  {
    hide DigestOf, PlatformSet, Reference, CommitTag, Lists;
    var reference := Reference(k, value);
    var digest := DigestOf(reference);
    if digest.None? { return None; }
    var manifest := registry(reference);
    if !HasDigest(manifest, digest.value) { return None; }
    var platforms := Platforms(manifest.value);
    if !IsOwn(k) {
      return Some(Record(reference, digest.value, platforms, None, None));
    }
    var tagged := registry(CommitTag(k, commit));
    if !HasDigest(tagged, digest.value) { return None; }
    var tagPlatforms := Platforms(tagged.value);
    ListsRequired(tagPlatforms, PlatformSet(tagged.value.descriptors));
    ListsRequired(platforms, PlatformSet(manifest.value.descriptors));
    if tagPlatforms != REQUIRED_PLATFORMS { return None; }
    if platforms != tagPlatforms { return None; }
    r := Some(Record(reference, digest.value, platforms, Some(CommitTag(k, commit)), tagged.value.digest));
  }

  ghost predicate AllResolve(registry: string -> Option<Index>, r: Release)
  {
    forall k :: k in r.images ==> Resolves(registry, k, r.images[k], r.commit)
  }

  ghost predicate AllRecorded(registry: string -> Option<Index>, r: Release, images: map<Key, Record>)
  {
    images.Keys == r.images.Keys && forall k :: k in images ==> Recorded(registry, k, r.images[k], r.commit, images[k])
  }

  /** The loop of `inspect-production-images.py`. */
  method InspectImages(registry: string -> Option<Index>, release: Release) returns (r: Option<map<Key, Record>>)
    ensures r.Some? <==> AllResolve(registry, release)
    ensures r.Some? ==> AllRecorded(registry, release, r.value)
  {
    hide Resolves, Recorded;
    var records: map<Key, Record> := map[];
    var left := release.images.Keys;
    while left != {}
      invariant left <= release.images.Keys && records.Keys == release.images.Keys - left
      invariant forall k :: k in records ==>
        && Resolves(registry, k, release.images[k], release.commit)
        && Recorded(registry, k, release.images[k], release.commit, records[k])
      decreases left
    {
      var k :| k in left;
      var record := InspectOne(registry, k, release.images[k], release.commit);
      if record.None? { return None; }
      records := records[k := record.value];
      left := left - {k};
    }
    r := Some(records);
  }

  /** `inspect-production-images.py`: it succeeds exactly on the accepted files whose every image resolves. */
  method Inspect(registry: string -> Option<Index>, text: string, expected: string) returns (r: Option<Inspections>)
    ensures r.Some? <==> Meaning(text, expected).Some? && AllResolve(registry, Meaning(text, expected).value)
    ensures r.Some? ==> r.value.commit == Meaning(text, expected).value.commit
    ensures r.Some? ==> AllRecorded(registry, Meaning(text, expected).value, r.value.images)
    ensures r.Some? ==> InspectionsFit(r.value, Meaning(text, expected).value.commit,
      Meaning(text, expected).value.images)
  {
    hide ReadAll, SplitLines, Validate, AllResolve, Recorded, RecordFits;
    var release := ReadRelease(text, expected);
    if release.None? { return None; }
    var records := InspectImages(registry, release.value);
    if records.None? { return None; }
    forall k | k in release.value.images
      ensures RecordFits(k, release.value.images[k], records.value[k], release.value.commit)
    {
      RecordedFits(registry, k, release.value.images[k], release.value.commit, records.value[k]);
    }
    r := Some(Inspections(1, release.value.commit, REQUIRED_PLATFORMS, records.value));
  }

  // ---- Compose services ----

  function ApplicationServices(images: map<Key, string>): map<string, string>
    requires ALWAYS_REQUIRED <= images.Keys
  {
    map[
      "api" := images[ApiImage],
      "worker" := images[WorkerImage],
      "worker-fast" := images[WorkerImage],
      "worker-slow" := images[WorkerImage],
      "web" := images[WebImage]]
  }

  function InfrastructureServices(images: map<Key, string>): map<string, string>
    requires ALWAYS_REQUIRED <= images.Keys
  {
    map[
      "release-image-policy" := Reference(PolicyImageDigest, images[PolicyImageDigest]),
      "redis" := images[RedisImage],
      "meilisearch" := images[MeiliImage],
      "eurooffice" := images[EuroofficeImage],
      "nginx" := images[NginxImage]]
  }

  /** The services of every deployment. */
  function CoreServices(images: map<Key, string>): map<string, string>
    requires ALWAYS_REQUIRED <= images.Keys
  {
    InfrastructureServices(images) + ApplicationServices(images)
  }

  /** The services a profile adds: its image's own ones, and a policy container beside them. */
  function ProfileServices(k: Key, image: string, policy: string): map<string, string>
  {
    if k == PostgresImage then map["postgres-image-policy" := policy, "postgres" := image]
    else if k == SelfhostWorkerImage then map["selfhost-worker-image-policy" := policy, "selfhost-worker" := image]
    else if k == SeaweedfsImage then
      map[
        "seaweedfs-image-policy" := policy, "seaweedfs-master" := image, "seaweedfs-volume1" := image,
        "seaweedfs-volume2" := image, "seaweedfs-filer" := image, "seaweedfs-s3" := image]
    else map[]
  }

  function Added(k: Key, images: map<Key, string>): map<string, string>
    requires PolicyImageDigest in images
  {
    if k in images then ProfileServices(k, images[k], Reference(PolicyImageDigest, images[PolicyImageDigest]))
      else map[]
  }

  /** `expected_compose_service_images`. */
  function ExpectedServices(images: map<Key, string>): map<string, string>
    requires ALWAYS_REQUIRED <= images.Keys
  {
    CoreServices(images) + Added(PostgresImage, images) + Added(SelfhostWorkerImage, images)
      + Added(SeaweedfsImage, images)
  }

  /** The image variable behind a service, and the one that switches the service on. */
  function Behind(service: string): Option<(Key, Key)>
  {
    if service == "seaweedfs-image-policy" then Some((PolicyImageDigest, SeaweedfsImage))
    else if service in {"seaweedfs-master", "seaweedfs-volume1", "seaweedfs-volume2", "seaweedfs-filer",
      "seaweedfs-s3"} then
      Some((SeaweedfsImage, SeaweedfsImage))
    else if service == "release-image-policy" then Some((PolicyImageDigest, PolicyImageDigest))
    else if service == "redis" then Some((RedisImage, RedisImage))
    else if service == "meilisearch" then Some((MeiliImage, MeiliImage))
    else if service == "eurooffice" then Some((EuroofficeImage, EuroofficeImage))
    else if service == "api" then Some((ApiImage, ApiImage))
    else if service in {"worker", "worker-fast", "worker-slow"} then Some((WorkerImage, WorkerImage))
    else if service == "web" then Some((WebImage, WebImage))
    else if service == "nginx" then Some((NginxImage, NginxImage))
    else if service == "postgres-image-policy" then Some((PolicyImageDigest, PostgresImage))
    else if service == "postgres" then Some((PostgresImage, PostgresImage))
    else if service == "selfhost-worker-image-policy" then Some((PolicyImageDigest, SelfhostWorkerImage))
    else if service == "selfhost-worker" then Some((SelfhostWorkerImage, SelfhostWorkerImage))
    else None
  }

  /** These services run, each on the image behind it, exactly when their switch is one of the given keys. */
  predicate RunsFor(services: map<string, string>, switches: set<Key>, images: map<Key, string>, s: string)
  {
    && (s in services <==> Behind(s).Some? && Behind(s).value.1 in switches)
    && (s in services ==>
      Behind(s).value.0 in images && services[s] == Reference(Behind(s).value.0, images[Behind(s).value.0]))
  }

  const APPLICATION: set<Key> := {ApiImage, WorkerImage, WebImage}

  lemma ApplicationBehind(images: map<Key, string>, s: string)
    requires ALWAYS_REQUIRED <= images.Keys
    ensures RunsFor(ApplicationServices(images), APPLICATION, images, s)
  {
    PlainReferences(images);
    hide Reference, Repository;
  }

  lemma InfrastructureBehind(images: map<Key, string>, s: string)
    requires ALWAYS_REQUIRED <= images.Keys
    ensures RunsFor(InfrastructureServices(images), ALWAYS_REQUIRED - APPLICATION, images, s)
  {
    PlainReferences(images);
    hide Reference, Repository;
  }

  lemma CoreBehind(images: map<Key, string>, s: string)
    requires ALWAYS_REQUIRED <= images.Keys
    ensures RunsFor(CoreServices(images), ALWAYS_REQUIRED, images, s)
  {
    ApplicationBehind(images, s);
    InfrastructureBehind(images, s);
    hide Reference, Repository, Behind, ApplicationServices, InfrastructureServices;
  }

  lemma PlainReferences(images: map<Key, string>)
    ensures forall k :: k in images && k != PolicyImageDigest ==> Reference(k, images[k]) == images[k]
  {
  }

  predicate AddsFor(services: map<string, string>, k: Key, image: string, policy: string, s: string)
  {
    && (s in services <==> Behind(s).Some? && Behind(s).value.1 == k)
    && (s in services ==> Behind(s).value.0 in {k, PolicyImageDigest})
    && (s in services ==> services[s] == if Behind(s).value.0 == k then image else policy)
  }

  lemma PostgresBehind(image: string, policy: string, s: string)
    ensures AddsFor(ProfileServices(PostgresImage, image, policy), PostgresImage, image, policy, s)
  {
  }

  lemma SelfhostBehind(image: string, policy: string, s: string)
    ensures AddsFor(ProfileServices(SelfhostWorkerImage, image, policy), SelfhostWorkerImage, image, policy, s)
  {
  }

  lemma SeaweedBehind(image: string, policy: string, s: string)
    ensures AddsFor(ProfileServices(SeaweedfsImage, image, policy), SeaweedfsImage, image, policy, s)
  {
  }

  lemma ProfileServicesBehind(k: Key, image: string, policy: string, s: string)
    requires k in PROFILE_ONLY
    ensures AddsFor(ProfileServices(k, image, policy), k, image, policy, s)
  {
    hide Behind, ProfileServices, AddsFor;
    PostgresBehind(image, policy, s);
    SelfhostBehind(image, policy, s);
    SeaweedBehind(image, policy, s);
  }

  lemma AddedBehind(images: map<Key, string>, k: Key, s: string)
    requires PolicyImageDigest in images && k in PROFILE_ONLY
    ensures s in Added(k, images) <==> Behind(s).Some? && Behind(s).value.1 == k && k in images
    ensures s in Added(k, images) ==> Behind(s).value.0 in images
    ensures s in Added(k, images) ==> Added(k, images)[s] == Reference(Behind(s).value.0, images[Behind(s).value.0])
  {
    hide Behind, ProfileServices, Repository;
    if k in images {
      ProfileServicesBehind(k, images[k], Reference(PolicyImageDigest, images[PolicyImageDigest]), s);
    }
  }

  lemma GateKinds(s: string)
    ensures Behind(s).Some? ==> Behind(s).value.1 in ALWAYS_REQUIRED + PROFILE_ONLY
  {
  }

  /** A service runs exactly when its switch is set, with the image behind it. */
  lemma ServiceMeaning(images: map<Key, string>, s: string)
    requires ALWAYS_REQUIRED <= images.Keys
    ensures s in ExpectedServices(images) <==> Behind(s).Some? && Behind(s).value.1 in images
    ensures s in ExpectedServices(images) ==> Behind(s).value.0 in images
    ensures s in ExpectedServices(images) ==>
      ExpectedServices(images)[s] == Reference(Behind(s).value.0, images[Behind(s).value.0])
  {
    hide Behind, CoreServices, Added, Reference;
    GateKinds(s);
    CoreBehind(images, s);
    AddedBehind(images, PostgresImage, s);
    AddedBehind(images, SelfhostWorkerImage, s);
    AddedBehind(images, SeaweedfsImage, s);
  }

  /** A release has the image of a profile, and runs its services, exactly when it enables the profile. */
  lemma ProfilesBringTheirServices(r: Release)
    requires Sound(r)
    ensures PostgresImage in r.images <==> "postgres" in r.profiles
    ensures SeaweedfsImage in r.images <==> "seaweedfs-prod" in r.profiles
    ensures SelfhostWorkerImage in r.images <==> "selfhost-worker" in r.profiles
    ensures ALWAYS_REQUIRED <= r.images.Keys
    ensures "postgres" in ExpectedServices(r.images) <==> "postgres" in r.profiles
    ensures "seaweedfs-s3" in ExpectedServices(r.images) <==> "seaweedfs-prod" in r.profiles
    ensures "selfhost-worker" in ExpectedServices(r.images) <==> "selfhost-worker" in r.profiles
  {
    hide ExpectedServices, Canonical, MatchesPattern, Sound, Behind;
    ImageKeys(r);
    ProfilesBringTheirImages(r);
    SwitchesOf();
    ServiceMeaning(r.images, "postgres");
    ServiceMeaning(r.images, "seaweedfs-s3");
    ServiceMeaning(r.images, "selfhost-worker");
  }

  lemma ProfilesBringTheirImages(r: Release)
    requires Sound(r)
    ensures PostgresImage in r.images <==> "postgres" in r.profiles
    ensures SeaweedfsImage in r.images <==> "seaweedfs-prod" in r.profiles
    ensures SelfhostWorkerImage in r.images <==> "selfhost-worker" in r.profiles
  {
    hide Canonical, MatchesPattern;
  }

  lemma SwitchesOf()
    ensures Behind("postgres") == Some((PostgresImage, PostgresImage))
    ensures Behind("seaweedfs-s3") == Some((SeaweedfsImage, SeaweedfsImage))
    ensures Behind("selfhost-worker") == Some((SelfhostWorkerImage, SelfhostWorkerImage))
  {
  }

  /** With fewer images, exactly the services whose switch is gone disappear, and the others keep their images. */
  lemma FewerImagesFewerServices(some: map<Key, string>, images: map<Key, string>, s: string)
    requires ALWAYS_REQUIRED <= some.Keys <= images.Keys && forall k :: k in some ==> some[k] == images[k]
    ensures s in ExpectedServices(some) <==>
      s in ExpectedServices(images) && Behind(s).Some? && Behind(s).value.1 in some
    ensures s in ExpectedServices(some) ==> ExpectedServices(images)[s] == ExpectedServices(some)[s]
  {
    hide ExpectedServices, Behind, Reference;
    ServiceMeaning(some, s);
    ServiceMeaning(images, s);
  }

  /** A service that runs on each image, whatever else is deployed. */
  function ServiceOf(k: Key): string
  {
    match k
    case ApiImage => "api"
    case WorkerImage => "worker"
    case WebImage => "web"
    case SelfhostWorkerImage => "selfhost-worker"
    case PostgresImage => "postgres"
    case RedisImage => "redis"
    case NginxImage => "nginx"
    case MeiliImage => "meilisearch"
    case EuroofficeImage => "eurooffice"
    case SeaweedfsImage => "seaweedfs-s3"
    case _ => "release-image-policy"
  }

  lemma ServiceOfRunsIt(k: Key)
    requires k != ReleaseCommit && k != ComposeProfiles
    ensures Behind(ServiceOf(k)) == Some((k, k))
  {
  }

  /** `expected_compose_images`. */
  function ExpectedImages(images: map<Key, string>): set<string>
  {
    set k | k in images :: Reference(k, images[k])
  }

  lemma ImageKeys(r: Release)
    requires Sound(r)
    ensures ALWAYS_REQUIRED <= r.images.Keys && ReleaseCommit !in r.images && ComposeProfiles !in r.images
  {
    hide MatchesPattern, Canonical, ProfileImages;
  }

  lemma OnlyReleaseImagesRun(images: map<Key, string>)
    requires ALWAYS_REQUIRED <= images.Keys
    ensures ExpectedServices(images).Values <= ExpectedImages(images)
  {
    var services := ExpectedServices(images);
    hide ExpectedServices, Behind, Reference;
    forall v | v in services.Values
      ensures v in ExpectedImages(images)
    {
      var s :| s in services && services[s] == v;
      ServiceMeaning(images, s);
    }
  }

  /** The services of a release run all of its images and no others. */
  lemma ServicesRunExactlyTheImages(r: Release)
    requires Sound(r)
    ensures ALWAYS_REQUIRED <= r.images.Keys && ExpectedServices(r.images).Values == ExpectedImages(r.images)
  {
    ImageKeys(r);
    hide ExpectedServices, ExpectedImages, Sound;
    OnlyReleaseImagesRun(r.images);
    AllImagesRun(r.images);
  }

  lemma AllImagesRun(images: map<Key, string>)
    requires ALWAYS_REQUIRED <= images.Keys && ReleaseCommit !in images && ComposeProfiles !in images
    ensures ExpectedImages(images) <= ExpectedServices(images).Values
  {
    hide ExpectedServices, Behind, Reference, ServiceOf;
    forall k | k in images
      ensures Reference(k, images[k]) in ExpectedServices(images).Values
    {
      ServiceOfRunsIt(k);
      ServiceMeaning(images, ServiceOf(k));
      assert ExpectedServices(images)[ServiceOf(k)] == Reference(k, images[k]);
    }
  }

  datatype Service = Malformed | WithoutImage | WithImage(image: string)

  function ImagesIn(services: map<string, Service>): map<string, string>
  {
    map s | s in services && services[s].WithImage? :: services[s].image
  }

  predicate WellFormed(s: Service)
  {
    s.WithoutImage? || (s.WithImage? && s.image != "")
  }

  /** The loop of `validate-production-compose.py`. */
  method CollectServices(services: map<string, Service>) returns (r: Option<map<string, string>>)
    ensures r.Some? <==> forall s :: s in services ==> WellFormed(services[s])
    ensures r.Some? ==> r.value == ImagesIn(services)
  {
    var actual: map<string, string> := map[];
    var left := services.Keys;
    while left != {}
      invariant left <= services.Keys
      invariant forall s :: s in services && s !in left ==> WellFormed(services[s])
      invariant actual == map s | s in services && s !in left && services[s].WithImage? :: services[s].image
      decreases left
    {
      var s :| s in left;
      left := left - {s};
      match services[s]
      case Malformed => return None;
      case WithoutImage =>
      case WithImage(image) =>
        if image == "" { return None; }
        actual := actual[s := image];
    }
    r := Some(actual);
  }

  /** `validate_compose_service_map` accepts. */
  predicate ServiceMapFits(m: ServiceMap, r: Release, inputSha: string)
    requires ALWAYS_REQUIRED <= r.images.Keys
  {
    m == ServiceMap(1, r.commit, r.profiles, inputSha, ExpectedServices(r.images))
  }

  /**
   `validate-production-compose.py`: it certifies a rendered configuration exactly when the image-bearing services
   are the expected ones.
   */
  method CertifyServices(text: string, expected: string, services: map<string, Service>, sha: string -> string)
    returns (r: Option<ServiceMap>)
    ensures Meaning(text, expected).Some? ==> Sound(Meaning(text, expected).value)
    ensures r.Some? <==>
      (&& Meaning(text, expected).Some? && (forall s :: s in services ==> WellFormed(services[s]))
       && ImagesIn(services) == ExpectedServices(Meaning(text, expected).value.images))
    ensures r.Some? ==> ServiceMapFits(r.value, Meaning(text, expected).value, sha(text))
  {
    hide Meaning, ExpectedServices, Canonical, MatchesPattern;
    MeaningIsSound(text, expected);
    var release := ReadRelease(text, expected);
    if release.None? { return None; }
    var actual := CollectServices(services);
    if actual.None? || actual.value != ExpectedServices(release.value.images) { return None; }
    r := Some(ServiceMap(1, release.value.commit, release.value.profiles, sha(text), actual.value));
  }
}
