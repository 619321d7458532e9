/** Which values make a release, and their one canonical text. */
module ReleasePolicy {
  import opened Text
  import opened Ordering
  import opened ReleaseEnv

  // ---- Profiles ----

  /** `PROFILE_IMAGES`; a profile without an image is not allowed. */
  function ProfileImage(profile: string): Option<Key>
  {
    if profile == "postgres" then Some(PostgresImage)
    else if profile == "seaweedfs-prod" then Some(SeaweedfsImage)
    else if profile == "selfhost-worker" then Some(SelfhostWorkerImage)
    else None
  }

  datatype Reason =
    | BadCommit | NoCommit | WrongCommit | NoProfiles | EmptyProfile | DuplicateProfile | UnknownProfile
    | DisabledImages(keys: set<Key>) | BadImages(keys: set<Key>)

  datatype Checked<+T> = Ok(value: T) | Refused(reason: Reason)

  predicate Distinct(s: seq<string>)
  {
    forall i, j :: 0 <= i < j < |s| ==> s[i] != s[j]
  }

  /** `parse_profiles`. */
  function ParseProfiles(raw: string): Checked<seq<string>>
  {
    if raw == "" then Ok([]) else ParseParts(Split(raw, ','))
  }

  function ParseParts(parts: seq<string>): Checked<seq<string>>
  {
    if "" in parts then Refused(EmptyProfile)
    else if !Distinct(parts) then Refused(DuplicateProfile)
    else if exists p :: p in parts && ProfileImage(p).None? then Refused(UnknownProfile)
    else Ok(Sorted(parts))
  }

  /** A canonical profile list. */
  ghost predicate Canonical(profiles: seq<string>)
  {
    Ascending(profiles) && Distinct(profiles) && forall p :: p in profiles ==> ProfileImage(p).Some?
  }

  lemma DistinctIsABagProperty(s: seq<string>, t: seq<string>)
    requires multiset(s) == multiset(t) && Distinct(s)
    ensures Distinct(t)
  {
    forall i, j | 0 <= i < j < |t|
      ensures t[i] != t[j]
    {
      if t[i] == t[j] {
        TwoIndices(t, i, j);
        OneIndex(s, t[i]);
      }
    }
  }

  lemma TwoIndices(t: seq<string>, i: nat, j: nat)
    requires i < j < |t| && t[i] == t[j]
    ensures multiset(t)[t[i]] >= 2
  {
    assert t == t[..j] + [t[j]] + t[j + 1..];
    assert t[..j][i] == t[i];
  }

  lemma {:induction false} OneIndex(s: seq<string>, x: string)
    requires Distinct(s)
    ensures multiset(s)[x] <= 1
  {
    if s != [] {
      assert s == [s[0]] + s[1..];
      OneIndex(s[1..], x);
      assert x in multiset(s[1..]) ==> x in s[1..];
    }
  }

  lemma NamesHoldNoComma(p: string)
    requires ProfileImage(p).Some?
    ensures ',' !in p && p != ""
  {
  }

  lemma JoinIsEmpty(parts: seq<string>)
    requires forall p :: p in parts ==> p != ""
    ensures Join(parts, ',') == "" <==> parts == []
  {
    assert parts != [] ==> parts[0] in parts;
  }

  /** What is accepted, and as what: exactly the separated arrangements of a canonical list. */
  lemma ParsedProfiles(raw: string, profiles: seq<string>)
    ensures ParseProfiles(raw) == Ok(profiles) <==>
      (Canonical(profiles) && exists parts :: multiset(parts) == multiset(profiles) && raw == Join(parts, ','))
  {
    if ParseProfiles(raw) == Ok(profiles) {
      ParsedIsCanonical(raw, profiles);
    }
    if Canonical(profiles) {
      forall parts | multiset(parts) == multiset(profiles)
        ensures ParseProfiles(Join(parts, ',')) == Ok(profiles)
      {
        AnyArrangementParses(parts, profiles);
      }
    }
  }

  lemma ParsedIsCanonical(raw: string, profiles: seq<string>)
    requires ParseProfiles(raw) == Ok(profiles)
    ensures Canonical(profiles)
    ensures exists parts :: multiset(parts) == multiset(profiles) && raw == Join(parts, ',')
  {
    if raw == "" {
      assert multiset([]) == multiset(profiles) && raw == Join([], ',');
    } else {
      var parts := Split(raw, ',');
      SortedAscends(parts);
      JoinSplit(raw, ',');
      assert multiset(parts) == multiset(profiles);
      DistinctIsABagProperty(parts, profiles);
      SameMembers(parts, profiles);
    }
  }

  lemma SameMembers(s: seq<string>, t: seq<string>)
    requires multiset(s) == multiset(t)
    ensures forall p :: p in s <==> p in t
  {
    forall p
      ensures p in s <==> p in t
    {
      assert p in s <==> p in multiset(s);
      assert p in t <==> p in multiset(t);
    }
  }

  lemma AnyArrangementParses(parts: seq<string>, profiles: seq<string>)
    requires Canonical(profiles) && multiset(parts) == multiset(profiles)
    ensures ParseProfiles(Join(parts, ',')) == Ok(profiles)
  {
    SameMembers(parts, profiles);
    forall p | p in parts
      ensures ',' !in p && p != ""
    {
      NamesHoldNoComma(p);
    }
    JoinIsEmpty(parts);
    if parts == [] {
      assert |multiset(profiles)| == 0;
    } else {
      SplitJoin(parts, ',');
      DistinctIsABagProperty(profiles, parts);
      SortedAscends(parts);
      AscendingIsUnique(Sorted(parts), profiles);
    }
  }

  /** The order in which profiles are listed makes no difference, accepted or refused. */
  lemma ProfileOrderMakesNoDifference(a: seq<string>, b: seq<string>)
    requires multiset(a) == multiset(b) && forall p :: p in a ==> ',' !in p
    ensures ParseProfiles(Join(a, ',')) == ParseProfiles(Join(b, ','))
  {
    SameMembers(a, b);
    assert |multiset(a)| == |a| && |multiset(b)| == |b|;
    if a != [] {
      SplitJoin(a, ',');
      SplitJoin(b, ',');
      PartOrderMakesNoDifference(a, b);
      JoinOfOne(a);
      JoinOfOne(b);
    }
  }

  lemma PartOrderMakesNoDifference(a: seq<string>, b: seq<string>)
    requires multiset(a) == multiset(b)
    ensures ParseParts(a) == ParseParts(b)
  {
    SameMembers(a, b);
    SortedIffSameItems(a, b);
    if Distinct(a) { DistinctIsABagProperty(a, b); }
    if Distinct(b) { DistinctIsABagProperty(b, a); }
  }

  lemma JoinOfOne(a: seq<string>)
    requires a != []
    ensures Join(a, ',') == "" <==> |a| == 1 && "" in a
  {
    if |a| > 1 {
      var rest := Join(a[1..], ',');
      assert |Join(a, ',')| == |a[0]| + 1 + |rest|;
    } else {
      assert "" in a <==> a[0] == "";
    }
  }

  // ---- Values ----

  datatype Release = Release(commit: string, profiles: seq<string>, images: map<Key, string>)

  /** The images this repository builds: the keys of `WORKLOAD_IMAGES`. */
  predicate IsOwn(k: Key)
  {
    k == ApiImage || k == WorkerImage || k == WebImage || k == SelfhostWorkerImage
  }

  function ImageHost(k: Key): string
  {
    if IsOwn(k) then "ghcr.io/" + "theo-darvoux/lectern/"
    else if k == EuroofficeImage then "ghcr.io/"
    else "docker.io/"
  }

  function ImageName(k: Key): string
  {
    match k
    case ApiImage => "api-release"
    case WorkerImage => "worker-release"
    case WebImage => "web-release"
    case SelfhostWorkerImage => "selfhost-worker-release"
    case PolicyImageDigest => "library/alpine"
    case PostgresImage => "library/postgres"
    case RedisImage => "library/redis"
    case NginxImage => "library/nginx"
    case MeiliImage => "getmeili/meilisearch"
    case EuroofficeImage => "euro-office/documentserver"
    case SeaweedfsImage => "chrislusf/seaweedfs"
    case _ => ""
  }

  function Repository(k: Key): string
  {
    ImageHost(k) + ImageName(k)
  }

  /** What stands before the digest in an image variable; the policy image is a bare digest. */
  function ImagePrefix(k: Key): string
  {
    if k == PolicyImageDigest then "" else Repository(k) + "@"
  }

  predicate LowerHex(c: char)
  {
    '0' <= c <= '9' || 'a' <= c <= 'f'
  }

  predicate IsHex(s: string, n: nat)
  {
    |s| == n && forall i :: 0 <= i < n ==> LowerHex(s[i])
  }

  predicate IsDigest(s: string)
  {
    |s| >= 7 && s[..7] == "sha256:" && IsHex(s[7..], 64)
  }

  /** A full match of the variable's pattern. */
  predicate MatchesPattern(k: Key, value: string)
  {
    ImagePrefix(k) <= value && IsDigest(value[|ImagePrefix(k)|..])
  }

  const ALWAYS_REQUIRED: set<Key> :=
    {ApiImage, WorkerImage, WebImage, PolicyImageDigest, RedisImage, NginxImage, MeiliImage, EuroofficeImage}

  const PROFILE_ONLY: set<Key> := {PostgresImage, SeaweedfsImage, SelfhostWorkerImage}

  function ProfileImages(profiles: seq<string>): (r: set<Key>)
    ensures r <= PROFILE_ONLY
  {
    set p | p in profiles && ProfileImage(p).Some? :: ProfileImage(p).value
  }

  function Required(profiles: seq<string>): set<Key>
  {
    ALWAYS_REQUIRED + ProfileImages(profiles)
  }

  function Get(values: map<Key, string>, k: Key): string
  {
    if k in values then values[k] else ""
  }

  function Mismatched(required: set<Key>, values: map<Key, string>): set<Key>
  {
    set k | k in required && !MatchesPattern(k, Get(values, k))
  }

  function Picked(required: set<Key>, values: map<Key, string>): map<Key, string>
  {
    map k | k in required :: Get(values, k)
  }

  /** What `validate_release_values` returns; an empty expected commit stands for none. */
  function Validate(values: map<Key, string>, expected: string): Checked<Release>
  {
    var fileCommit := Get(values, ReleaseCommit);
    var commit := if expected != "" then expected else fileCommit;
    if !IsHex(commit, 40) then Refused(BadCommit)
    else if fileCommit == "" then Refused(NoCommit)
    else if expected != "" && fileCommit != expected then Refused(WrongCommit)
    else if ComposeProfiles !in values then Refused(NoProfiles)
    else
      match ParseProfiles(values[ComposeProfiles])
      case Refused(reason) => Refused(reason)
      case Ok(profiles) => ValidateImages(commit, profiles, values)
  }

  function ValidateImages(commit: string, profiles: seq<string>, values: map<Key, string>): (r: Checked<Release>)
    ensures r.Ok? ==> r.value.commit == commit && r.value.profiles == profiles
  {
    var disabled := (PROFILE_ONLY - ProfileImages(profiles)) * values.Keys;
    var bad := Mismatched(Required(profiles), values);
    if disabled != {} then Refused(DisabledImages(disabled))
    else if bad != {} then Refused(BadImages(bad))
    else Ok(Release(commit, profiles, Picked(Required(profiles), values)))
  }

  /** The loop of `validate_release_values` over the required variables. */
  method CollectImages(required: set<Key>, values: map<Key, string>)
    returns (errors: set<Key>, images: map<Key, string>)
    ensures errors == Mismatched(required, values)
    ensures errors == {} ==> images == Picked(required, values)
  {
    errors, images := {}, map[];
    var left := required;
    while left != {}
      invariant left <= required
      invariant errors == Mismatched(required - left, values)
      invariant images == Picked(required - left - errors, values)
      decreases left
    {
      hide MatchesPattern, Mismatched, Picked;
      var name :| name in left;
      OneMoreImage(required - left, name, values);
      assert required - (left - {name}) == (required - left) + {name};
      left := left - {name};
      if MatchesPattern(name, Get(values, name)) {
        images := images[name := Get(values, name)];
      } else {
        errors := errors + {name};
      }
    }
    assert required - left == required && required - {} == required;
  }

  lemma OneMoreImage(done: set<Key>, name: Key, values: map<Key, string>)
    requires name !in done
    ensures var bad, more := Mismatched(done, values), done + {name};
      if MatchesPattern(name, Get(values, name)) then
        && Mismatched(more, values) == bad
        && Picked(more - bad, values) == Picked(done - bad, values)[name := Get(values, name)]
      else
        && Mismatched(more, values) == bad + {name}
        && Picked(more - (bad + {name}), values) == Picked(done - bad, values)
  {
    hide MatchesPattern;
    var bad := Mismatched(done, values);
    assert (done + {name}) - (bad + {name}) == done - bad;
    assert MatchesPattern(name, Get(values, name)) ==> (done + {name}) - bad == (done - bad) + {name};
  }

  /** `validate_release_values`. */
  method ValidateReleaseValues(values: map<Key, string>, expected: string) returns (r: Checked<Release>)
    ensures r == Validate(values, expected)
  {
    hide IsHex, ParseProfiles, Mismatched, Picked, ProfileImages;
    var fileCommit := Get(values, ReleaseCommit);
    var commit := if expected != "" then expected else fileCommit;
    if !IsHex(commit, 40) { return Refused(BadCommit); }
    if fileCommit == "" { return Refused(NoCommit); }
    if expected != "" && fileCommit != expected { return Refused(WrongCommit); }
    if ComposeProfiles !in values { return Refused(NoProfiles); }
    var parsed := ParseProfiles(values[ComposeProfiles]);
    if parsed.Refused? { return Refused(parsed.reason); }
    var disabled := (PROFILE_ONLY - ProfileImages(parsed.value)) * values.Keys;
    if disabled != {} { return Refused(DisabledImages(disabled)); }
    var errors, images := CollectImages(Required(parsed.value), values);
    if errors != {} { return Refused(BadImages(errors)); }
    r := Ok(Release(commit, parsed.value, images));
  }

  /** A release whose image set is exactly what its profiles call for. */
  ghost predicate Sound(r: Release)
  {
    && IsHex(r.commit, 40) && Canonical(r.profiles) && r.images.Keys == Required(r.profiles)
    && forall k :: k in r.images ==> MatchesPattern(k, r.images[k])
  }

  /** The values a file has to assign to mean this release, with its profiles listed as given. */
  function AllValues(r: Release, listed: seq<string>): map<Key, string>
  {
    map[ReleaseCommit := r.commit, ComposeProfiles := Join(listed, ',')] + r.images
  }

  /** The variables a release file assigns are determined by its profiles, and nothing else is accepted. */
  lemma ValidatedValues(values: map<Key, string>, expected: string, r: Release)
    ensures Validate(values, expected) == Ok(r) <==>
      (&& Sound(r) && (expected == "" || expected == r.commit)
       && exists listed :: multiset(listed) == multiset(r.profiles) && values == AllValues(r, listed))
  {
    if Validate(values, expected) == Ok(r) {
      ValidatedIsSound(values, expected, r);
    }
    if Sound(r) && (expected == "" || expected == r.commit) {
      forall listed | multiset(listed) == multiset(r.profiles)
        ensures Validate(AllValues(r, listed), expected) == Ok(r)
      {
        SoundValidates(r, listed, expected);
      }
    }
  }

  lemma ValidatedIsSound(values: map<Key, string>, expected: string, r: Release)
    requires Validate(values, expected) == Ok(r)
    ensures Sound(r) && (expected == "" || expected == r.commit)
    ensures exists listed :: multiset(listed) == multiset(r.profiles) && values == AllValues(r, listed)
  {
    hide IsHex, ParseProfiles, ValidateImages, Sound, AllValues;
    ParsedIsCanonical(values[ComposeProfiles], r.profiles);
    var listed :| multiset(listed) == multiset(r.profiles) && values[ComposeProfiles] == Join(listed, ',');
    assert IsHex(r.commit, 40);
    ImagesAreSound(values, r, listed);
  }

  lemma ImagesAreSound(values: map<Key, string>, r: Release, listed: seq<string>)
    requires ValidateImages(r.commit, r.profiles, values) == Ok(r) && IsHex(r.commit, 40) && Canonical(r.profiles)
    requires ComposeProfiles in values && values[ComposeProfiles] == Join(listed, ',')
    requires ReleaseCommit in values && values[ReleaseCommit] == r.commit
    ensures Sound(r) && values == AllValues(r, listed)
  {
    hide IsHex, MatchesPattern, ProfileImages, Required, Mismatched, Picked, Canonical;
    PickedImages(Required(r.profiles), values);
    AllKeys(r.profiles, values.Keys);
  }

  lemma PickedImages(required: set<Key>, values: map<Key, string>)
    ensures Mismatched(required, values) == {} <==> (forall k :: k in required ==> MatchesPattern(k, Get(values, k)))
    ensures Mismatched(required, values) == {} ==> required <= values.Keys
    ensures Picked(required, values).Keys == required
    ensures forall k :: k in required ==> Picked(required, values)[k] == Get(values, k)
  {
    hide MatchesPattern;
    if Mismatched(required, values) == {} {
      forall k | k in required
        ensures MatchesPattern(k, Get(values, k)) && k in values
      {
        assert k !in Mismatched(required, values);
        EmptyMatchesNothing(k);
      }
    }
  }

  lemma EmptyMatchesNothing(k: Key)
    ensures !MatchesPattern(k, "")
  {
  }

  lemma KeyKinds(k: Key)
    ensures k in {ReleaseCommit, ComposeProfiles} || k in ALWAYS_REQUIRED || k in PROFILE_ONLY
  {
  }

  lemma AllKeys(profiles: seq<string>, keys: set<Key>)
    requires Required(profiles) <= keys && (PROFILE_ONLY - ProfileImages(profiles)) * keys == {}
    requires ReleaseCommit in keys && ComposeProfiles in keys
    ensures keys == {ReleaseCommit, ComposeProfiles} + Required(profiles)
  {
    hide ProfileImages;
    forall k | k in keys
      ensures k in {ReleaseCommit, ComposeProfiles} + Required(profiles)
    {
      KeyKinds(k);
      assert k !in PROFILE_ONLY - ProfileImages(profiles);
    }
  }

  lemma SoundValidates(r: Release, listed: seq<string>, expected: string)
    requires Sound(r) && (expected == "" || expected == r.commit) && multiset(listed) == multiset(r.profiles)
    ensures Validate(AllValues(r, listed), expected) == Ok(r)
  {
    hide MatchesPattern, ParseProfiles, ProfileImages, Required, Mismatched, Picked, Canonical, AllValues;
    AnyArrangementParses(listed, r.profiles);
    SoundParts(r, listed);
    PickedImages(Required(r.profiles), AllValues(r, listed));
    assert Picked(Required(r.profiles), AllValues(r, listed)) == r.images;
  }

  lemma SoundParts(r: Release, listed: seq<string>)
    requires Sound(r)
    ensures var values := AllValues(r, listed);
      && Get(values, ReleaseCommit) == r.commit
      && ComposeProfiles in values && values[ComposeProfiles] == Join(listed, ',')
      && (forall k :: k in r.images ==> Get(values, k) == r.images[k])
      && (PROFILE_ONLY - ProfileImages(r.profiles)) * values.Keys == {}
  {
    hide MatchesPattern, IsHex, Canonical, ProfileImages;
  }
}
