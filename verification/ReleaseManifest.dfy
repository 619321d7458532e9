/** The certified release manifest: writing it, checking it, and deriving a deployment from it. */
module ReleaseManifest {
  import opened Text
  import opened ReleaseEnv
  import opened ReleasePolicy
  import opened ReleaseText
  import opened ReleaseStages

  /** `validate_tested_infrastructure_images`. */
  predicate Tested(images: map<Key, string>, t: Toolchain)
  {
    && (RedisImage in images ==> images[RedisImage] == t.redisTestImage)
    && (SeaweedfsImage in images ==> images[SeaweedfsImage] == t.seaweedTestImage)
  }

  function RecordedInspections(r: Release, images: map<Key, Record>): Inspections
  {
    Inspections(1, r.commit, REQUIRED_PLATFORMS, images)
  }

  function RecordedServices(r: Release, inputSha: string, services: map<string, string>): ServiceMap
  {
    ServiceMap(1, r.commit, r.profiles, inputSha, services)
  }

  /** The document `write-production-release-manifest.py` assembles. */
  function Assemble(tools: Tools, checkout: Checkout, r: Release, envText: string, inspectionText: string,
    serviceMapText: string, inspections: Inspections, services: ServiceMap): Manifest
    requires checkout.toolchain.Some?
  {
    Manifest(3, r.commit, HashesOf(checkout.composeFiles, tools.sha), r.profiles, REQUIRED_PLATFORMS,
      tools.sha(envText), tools.sha(inspectionText), tools.sha(serviceMapText), tools.sha(checkout.toolchainText),
      checkout.toolchain.value, r.images, services.services, inspections.images)
  }

  /** `write-production-release-manifest.py` on the texts of its three input files. */
  method WriteManifest(tools: Tools, checkout: Checkout, envText: string, inspectionText: string,
    serviceMapText: string, expected: string) returns (m: Option<Manifest>)
    ensures m.Some? <==> Writable(tools, checkout, envText, inspectionText, serviceMapText, expected)
    ensures m.Some? ==>
      m.value == Assemble(tools, checkout, Meaning(envText, expected).value, envText, inspectionText, serviceMapText,
        tools.readInspections(inspectionText).value, tools.readServiceMap(serviceMapText).value)
  {
    hide Meaning, InspectionsFit, ServiceMapFits, Tested, Sound;
    MeaningIsSound(envText, expected);
    var release := ReadRelease(envText, expected);
    if release.None? { return None; }
    ImageKeys(release.value);
    var inspections := tools.readInspections(inspectionText);
    if inspections.None? { return None; }
    if !InspectionsFit(inspections.value, release.value.commit, release.value.images) { return None; }
    var services := tools.readServiceMap(serviceMapText);
    if services.None? || !ServiceMapFits(services.value, release.value, tools.sha(envText)) { return None; }
    if checkout.toolchain.None? || !Tested(release.value.images, checkout.toolchain.value) { return None; }
    m := Some(Assemble(tools, checkout, release.value, envText, inspectionText, serviceMapText, inspections.value,
      services.value));
  }

  /** Everything the writing stage checks. */
  ghost predicate Writable(tools: Tools, checkout: Checkout, envText: string, inspectionText: string,
    serviceMapText: string, expected: string)
  {
    && Meaning(envText, expected).Some?
    && var r := Meaning(envText, expected).value;
    && ALWAYS_REQUIRED <= r.images.Keys
    && tools.readInspections(inspectionText).Some?
    && InspectionsFit(tools.readInspections(inspectionText).value, r.commit, r.images)
    && tools.readServiceMap(serviceMapText).Some?
    && ServiceMapFits(tools.readServiceMap(serviceMapText).value, r, tools.sha(envText))
    && checkout.toolchain.Some? && Tested(r.images, checkout.toolchain.value)
  }

  /**
   The values `validate_canonical_release_manifest` checks again: the manifest's images over its commit and profiles.
   */
  function ManifestValues(m: Manifest, expected: string, profiles: seq<string>): map<Key, string>
  {
    AllValues(Release(expected, profiles, m.images), profiles)
  }

  /** The release a manifest names, when its commit, profiles and images are canonical. */
  function Named(m: Manifest, expected: string): Option<Release>
  {
    if m.schema != 3 || m.commit != expected then None
    else
      match ParseProfiles(Join(m.profiles, ','))
      case Refused(_) => None
      case Ok(profiles) =>
        if m.profiles != profiles then None
        else
          match Validate(ManifestValues(m, expected, profiles), expected)
          case Refused(_) => None
          case Ok(r) => if r.images == m.images then Some(Release(expected, profiles, r.images)) else None
  }

  /** The remaining checks: every recorded digest and copy agrees with the checkout and the canonical forms. */
  predicate Consistent(tools: Tools, checkout: Checkout, m: Manifest, r: Release)
    requires ALWAYS_REQUIRED <= r.images.Keys
  {
    var envSha := tools.sha(CanonicalText(r));
    var inspections := RecordedInspections(r, m.inspections);
    && m.composeFiles == HashesOf(checkout.composeFiles, tools.sha) && m.platforms == REQUIRED_PLATFORMS
    && m.envSha == envSha
    && InspectionsFit(inspections, r.commit, r.images)
    && m.inspectionSha == tools.sha(tools.printInspections(inspections))
    && checkout.toolchain == Some(m.toolchain) && m.toolchainSha == tools.sha(checkout.toolchainText)
    && Tested(r.images, m.toolchain)
    && m.services == ExpectedServices(r.images)
    && m.serviceMapSha == tools.sha(tools.printServiceMap(RecordedServices(r, envSha, m.services)))
    && IsHex(m.envSha, 64) && IsHex(m.inspectionSha, 64) && IsHex(m.serviceMapSha, 64) && IsHex(m.toolchainSha, 64)
  }

  /** `validate_canonical_release_manifest` accepts. */
  predicate Certified(tools: Tools, checkout: Checkout, m: Manifest, expected: string)
  {
    && Named(m, expected).Some? && ALWAYS_REQUIRED <= Named(m, expected).value.images.Keys
    && Consistent(tools, checkout, m, Named(m, expected).value)
  }

  /** A manifest names exactly the sound releases, by their commit, profiles and images. */
  lemma NamedIsSound(m: Manifest, expected: string)
    ensures Named(m, expected).Some? <==>
      m.schema == 3 && m.commit == expected && Sound(Release(expected, m.profiles, m.images))
    ensures Named(m, expected).Some? ==> Named(m, expected).value == Release(expected, m.profiles, m.images)
  {
    if Named(m, expected).Some? {
      NamedThenSound(m, expected);
    }
    if m.schema == 3 && m.commit == expected && Sound(Release(expected, m.profiles, m.images)) {
      SoundThenNamed(m, expected);
    }
  }

  lemma NamedThenSound(m: Manifest, expected: string)
    requires Named(m, expected).Some?
    ensures m.schema == 3 && m.commit == expected && Sound(Release(expected, m.profiles, m.images))
    ensures Named(m, expected).value == Release(expected, m.profiles, m.images)
  {
    hide ParseProfiles, Validate, Sound, AllValues;
    var values := ManifestValues(m, expected, m.profiles);
    var r := Validate(values, expected).value;
    ValidatedIsSound(values, expected, r);
    var listed :| multiset(listed) == multiset(r.profiles) && values == AllValues(r, listed);
    SameParts(r, listed, Release(expected, m.profiles, m.images));
  }

  lemma SameParts(r: Release, listed: seq<string>, named: Release)
    requires Sound(r) && multiset(listed) == multiset(r.profiles) && r.images == named.images
    requires AllValues(r, listed) == AllValues(named, named.profiles)
    requires ParseProfiles(Join(named.profiles, ',')) == Ok(named.profiles)
    ensures r == named
  {
    hide ParseProfiles, Sound, AllValues, Canonical;
    ImageKeys(r);
    SoundProfiles(r);
    AnyArrangementParses(listed, r.profiles);
    ValuesAt(r, listed);
    ValuesAt(named, named.profiles);
  }

  lemma SoundProfiles(r: Release)
    requires Sound(r)
    ensures Canonical(r.profiles)
  {
  }

  lemma ValuesAt(r: Release, listed: seq<string>)
    requires ReleaseCommit !in r.images && ComposeProfiles !in r.images
    ensures Get(AllValues(r, listed), ReleaseCommit) == r.commit
    ensures Get(AllValues(r, listed), ComposeProfiles) == Join(listed, ',')
  {
  }

  lemma SoundThenNamed(m: Manifest, expected: string)
    requires m.schema == 3 && m.commit == expected && Sound(Release(expected, m.profiles, m.images))
    ensures Named(m, expected) == Some(Release(expected, m.profiles, m.images))
  {
    var r := Release(expected, m.profiles, m.images);
    hide ParseProfiles, Validate, Sound, AllValues, Canonical;
    SoundProfiles(r);
    AnyArrangementParses(m.profiles, m.profiles);
    SoundValidates(r, m.profiles, expected);
  }

  // ---- The stages compose ----

  /** The digests a written manifest must agree with. */
  ghost predicate CanonicalInputs(tools: Tools, r: Release, envText: string, inspectionText: string,
    serviceMapText: string)
  {
    && tools.sha(envText) == tools.sha(CanonicalText(r))
    && (tools.readInspections(inspectionText).Some? ==>
      tools.sha(inspectionText) == tools.sha(tools.printInspections(tools.readInspections(inspectionText).value)))
    && (tools.readServiceMap(serviceMapText).Some? ==>
      tools.sha(serviceMapText) == tools.sha(tools.printServiceMap(tools.readServiceMap(serviceMapText).value)))
  }

  /**
   A written manifest is certified by the same checkout exactly when its three inputs have the digests of their
   canonical texts.
   */
  lemma WrittenIsCertifiedIffInputsAreCanonical(tools: Tools, checkout: Checkout, envText: string,
    inspectionText: string, serviceMapText: string, expected: string)
    requires tools.Lawful() && Writable(tools, checkout, envText, inspectionText, serviceMapText, expected)
    ensures var r := Meaning(envText, expected).value;
      var m := Assemble(tools, checkout, r, envText, inspectionText, serviceMapText,
        tools.readInspections(inspectionText).value, tools.readServiceMap(serviceMapText).value);
      Certified(tools, checkout, m, r.commit) <==> CanonicalInputs(tools, r, envText, inspectionText, serviceMapText)
  {
    var r := Meaning(envText, expected).value;
    var inspections, services := tools.readInspections(inspectionText).value,
      tools.readServiceMap(serviceMapText).value;
    var m := Assemble(tools, checkout, r, envText, inspectionText, serviceMapText, inspections, services);
    MeaningIsSound(envText, expected);
    hide Meaning, Sound, Named, Tested, ExpectedServices, IsHex, CanonicalText, Consistent, InspectionsFit;
    NamedIsSound(m, r.commit);
    AssembledIsConsistent(tools, checkout, r, envText, inspectionText, serviceMapText, inspections, services);
  }

  lemma AssembledIsConsistent(tools: Tools, checkout: Checkout, r: Release, envText: string, inspectionText: string,
    serviceMapText: string, inspections: Inspections, services: ServiceMap)
    requires tools.Lawful() && checkout.toolchain.Some? && ALWAYS_REQUIRED <= r.images.Keys
    requires InspectionsFit(inspections, r.commit, r.images) && ServiceMapFits(services, r, tools.sha(envText))
    requires Tested(r.images, checkout.toolchain.value)
    ensures Consistent(tools, checkout,
      Assemble(tools, checkout, r, envText, inspectionText, serviceMapText, inspections, services), r)
      <==>
      (&& tools.sha(envText) == tools.sha(CanonicalText(r))
       && tools.sha(inspectionText) == tools.sha(tools.printInspections(inspections))
       && tools.sha(serviceMapText) == tools.sha(tools.printServiceMap(services)))
  {
    hide Tested, ExpectedServices, IsHex, CanonicalText, RecordFits, HashesOf;
    assert RecordedInspections(r, inspections.images) == inspections;
    assert RecordedServices(r, tools.sha(envText), services.services) == services;
  }

  /** What the writing stage makes of a release and its inspection records, all printed canonically. */
  function CanonicalManifest(tools: Tools, checkout: Checkout, r: Release, records: map<Key, Record>): Manifest
    requires checkout.toolchain.Some? && ALWAYS_REQUIRED <= r.images.Keys
  {
    var inspections := RecordedInspections(r, records);
    var services := RecordedServices(r, tools.sha(CanonicalText(r)), ExpectedServices(r.images));
    Assemble(tools, checkout, r, CanonicalText(r), tools.printInspections(inspections), tools.printServiceMap(services),
      inspections, services)
  }

  /** The canonical texts of a release and its inspection records pass the writing stage in this checkout. */
  ghost predicate CanonicallyWritable(tools: Tools, checkout: Checkout, r: Release, records: map<Key, Record>)
    requires ALWAYS_REQUIRED <= r.images.Keys
  {
    var services := RecordedServices(r, tools.sha(CanonicalText(r)), ExpectedServices(r.images));
    Writable(tools, checkout, CanonicalText(r), tools.printInspections(RecordedInspections(r, records)),
      tools.printServiceMap(services), r.commit)
  }

  /**
   A manifest is certified exactly when it is what the writing stage makes, in this very checkout, of the canonical
   texts of the release it names.
   */
  lemma CertifiedIffWrittenHere(tools: Tools, checkout: Checkout, m: Manifest, expected: string)
    requires tools.Lawful()
    ensures var r := Release(expected, m.profiles, m.images);
      Certified(tools, checkout, m, expected) <==>
      (&& Sound(r) && ALWAYS_REQUIRED <= r.images.Keys && checkout.toolchain.Some?
       && CanonicallyWritable(tools, checkout, r, m.inspections)
       && m == CanonicalManifest(tools, checkout, r, m.inspections))
  {
    var r := Release(expected, m.profiles, m.images);
    NamedIsSound(m, expected);
    if Sound(r) {
      ImageKeys(r);
      hide Sound, Named, Consistent, CanonicalText, ExpectedServices, CanonicallyWritable, CanonicalManifest;
      CanonicallyWritableIff(tools, checkout, r, m.inspections);
      if m.schema == 3 && m.commit == expected { ConsistentIffCanonical(tools, checkout, m, r); }
      if checkout.toolchain.Some? { CanonicalNames(tools, checkout, r, m.inspections); }
    }
  }

  lemma CanonicalNames(tools: Tools, checkout: Checkout, r: Release, records: map<Key, Record>)
    requires checkout.toolchain.Some? && ALWAYS_REQUIRED <= r.images.Keys
    ensures CanonicalManifest(tools, checkout, r, records).schema == 3
    ensures CanonicalManifest(tools, checkout, r, records).commit == r.commit
  {
  }

  lemma CanonicallyWritableIff(tools: Tools, checkout: Checkout, r: Release, records: map<Key, Record>)
    requires tools.Lawful() && Sound(r) && ALWAYS_REQUIRED <= r.images.Keys
    ensures CanonicallyWritable(tools, checkout, r, records) <==>
      (&& InspectionsFit(RecordedInspections(r, records), r.commit, r.images)
       && checkout.toolchain.Some? && Tested(r.images, checkout.toolchain.value))
  {
    hide Sound, Meaning, CanonicalText, ExpectedServices, InspectionsFit, Tested, IsHex;
    PrintedReleaseMeansItself(r, r.commit);
  }

  /** The checks of a manifest leave none of its members open. */
  lemma ConsistentIffCanonical(tools: Tools, checkout: Checkout, m: Manifest, r: Release)
    requires tools.Lawful() && ALWAYS_REQUIRED <= r.images.Keys
    requires m.schema == 3 && m.commit == r.commit && m.profiles == r.profiles && m.images == r.images
    ensures Consistent(tools, checkout, m, r) <==>
      (&& InspectionsFit(RecordedInspections(r, m.inspections), r.commit, r.images)
       && checkout.toolchain.Some? && Tested(r.images, checkout.toolchain.value)
       && m == CanonicalManifest(tools, checkout, r, m.inspections))
  {
    hide CanonicalText, ExpectedServices, InspectionsFit, Tested, IsHex, HashesOf;
    assert forall s :: IsHex(tools.sha(s), 64);
  }

  /**
   What a certified manifest vouches for: each image by its own digest, the tested infrastructure, and the Compose files
   of the checkout.
   */
  lemma CertifiedVouches(tools: Tools, checkout: Checkout, m: Manifest, expected: string)
    requires tools.Lawful() && Certified(tools, checkout, m, expected)
    ensures m.inspections.Keys == m.images.Keys && forall k :: k in m.images ==>
      NamesImage(k, m.images[k], m.inspections[k], expected)
    ensures checkout.toolchain == Some(m.toolchain)
    ensures RedisImage in m.images ==> m.images[RedisImage] == m.toolchain.redisTestImage
    ensures SeaweedfsImage in m.images ==> m.images[SeaweedfsImage] == m.toolchain.seaweedTestImage
    ensures m.composeFiles.Keys == checkout.composeFiles.Keys
    ensures forall path :: path in m.composeFiles ==> m.composeFiles[path] == tools.sha(checkout.composeFiles[path])
  {
    var r := Release(expected, m.profiles, m.images);
    NamedIsSound(m, expected);
    hide Sound, Named, CanonicalText, ExpectedServices, InspectionsFit, NamesImage, IsHex;
    InspectionsMeaning(RecordedInspections(r, m.inspections), r);
  }

  /** Everything the release run asks of its inputs. */
  ghost predicate Releasable(checkout: Checkout, registry: string -> Option<Index>, services: map<string, Service>,
    r: Release)
  {
    && ALWAYS_REQUIRED <= r.images.Keys
    && AllResolve(registry, r)
    && (forall s :: s in services ==> WellFormed(services[s])) && ImagesIn(services) == ExpectedServices(r.images)
    && checkout.toolchain.Some? && Tested(r.images, checkout.toolchain.value)
  }

  /**
   The release run: the stages one after the other, each on the sanitized file. What it writes is always certified.
   */
  method CertifyRelease(tools: Tools, checkout: Checkout, registry: string -> Option<Index>, text: string,
    services: map<string, Service>, expected: string) returns (m: Option<Manifest>)
    requires tools.Lawful()
    ensures m.Some? <==>
      Meaning(text, expected).Some? && Releasable(checkout, registry, services, Meaning(text, expected).value)
    ensures m.Some? ==> Certified(tools, checkout, m.value, Meaning(text, expected).value.commit)
    ensures m.Some? ==> Named(m.value, Meaning(text, expected).value.commit) == Meaning(text, expected)
  {
    hide Meaning, InspectionsFit, Tested, Sound, AllResolve, CanonicalText, Certified, Named;
    hide AllRecorded, WellFormed, ImagesIn, ExpectedServices;
    var sanitized := Sanitize(text, expected);
    if sanitized.None? { return None; }
    var env := sanitized.value;
    ghost var r := Meaning(text, expected).value;
    SoundMeaning(text, expected);
    var inspections := Inspect(registry, env, expected);
    if inspections.None? { return None; }
    var certified := CertifyServices(env, expected, services, tools.sha);
    if certified.None? { return None; }
    var inspectionText, serviceMapText := tools.printInspections(inspections.value),
      tools.printServiceMap(certified.value);
    m := WriteManifest(tools, checkout, env, inspectionText, serviceMapText, expected);
    if m.Some? {
      WrittenIsCertifiedIffInputsAreCanonical(tools, checkout, env, inspectionText, serviceMapText, expected);
      CertifiedNames(tools, checkout, m.value, r.commit);
    }
  }

  lemma SoundMeaning(text: string, expected: string)
    requires Meaning(text, expected).Some?
    ensures Sound(Meaning(text, expected).value) && ALWAYS_REQUIRED <= Meaning(text, expected).value.images.Keys
  {
    hide Meaning, Sound;
    MeaningIsSound(text, expected);
    ImageKeys(Meaning(text, expected).value);
  }

  lemma CertifiedNames(tools: Tools, checkout: Checkout, m: Manifest, expected: string)
    requires Certified(tools, checkout, m, expected)
    ensures Named(m, expected) == Some(Release(expected, m.profiles, m.images))
    ensures Sound(Release(expected, m.profiles, m.images))
  {
    hide Named, Sound, Consistent;
    NamedIsSound(m, expected);
  }

  // ---- Deployments ----

  /** A deployment's part of a release: some of its profiles, and the images those call for. */
  function Part(r: Release, profiles: seq<string>): Release
  {
    Release(r.commit, profiles, map k | k in r.images && k in Required(profiles) :: r.images[k])
  }

  /** Any selection of a release's profiles makes a release. */
  lemma PartIsSound(r: Release, profiles: seq<string>)
    requires Sound(r) && Canonical(profiles) && forall p :: p in profiles ==> p in r.profiles
    ensures Sound(Part(r, profiles)) && Required(profiles) <= r.images.Keys
  {
    hide MatchesPattern, IsHex, Canonical;
  }

  datatype Metadata = Metadata(commit: string, manifestSha: string, profiles: seq<string>, images: map<Key, string>,
    toolchain: Toolchain)

  /** The profiles a deployment asks for; by default all that were certified. */
  function Selected(requested: Option<string>, certified: seq<string>): Checked<seq<string>>
  {
    if requested.None? then Ok(certified) else ParseProfiles(requested.value)
  }

  predicate Among(some: seq<string>, all: seq<string>)
  {
    forall p :: p in some ==> p in all
  }

  ghost predicate Deployable(tools: Tools, checkout: Checkout, manifestText: string, expected: string,
    requested: Option<string>)
  {
    && tools.readManifest(manifestText).Some?
    && var m := tools.readManifest(manifestText).value;
    && Certified(tools, checkout, m, expected)
    && Selected(requested, m.profiles).Ok? && Among(Selected(requested, m.profiles).value, m.profiles)
  }

  lemma SelectedIsCanonical(requested: Option<string>, certified: seq<string>)
    requires Canonical(certified) && Selected(requested, certified).Ok?
    ensures Canonical(Selected(requested, certified).value)
  {
    hide Canonical, ParseProfiles;
    if requested.Some? {
      ParsedIsCanonical(requested.value, Selected(requested, certified).value);
    }
  }

  /** `materialize-production-deployment.py`: it derives exactly the part of a certified release that was asked for. */
  method Materialize(tools: Tools, checkout: Checkout, manifestText: string, expected: string,
    requested: Option<string>)
    returns (r: Option<(string, Metadata)>)
    ensures r.Some? <==> Deployable(tools, checkout, manifestText, expected, requested)
    ensures r.Some? ==>
      var m := tools.readManifest(manifestText).value;
      Derives(Part(Release(expected, m.profiles, m.images), Selected(requested, m.profiles).value), m,
        tools.sha(manifestText), r.value.0, r.value.1)
  {
    hide Certified, ParseProfiles, Among, Part, Derives, Canonical;
    var doc := tools.readManifest(manifestText);
    if doc.None? || !Certified(tools, checkout, doc.value, expected) { return None; }
    var m := doc.value;
    CertifiedNames(tools, checkout, m, expected);
    var selected := Selected(requested, m.profiles);
    if selected.Refused? || !Among(selected.value, m.profiles) { return None; }
    ghost var release := Release(expected, m.profiles, m.images);
    SelectedPart(release, requested, selected.value);
    var selectedImages := map k | k in Required(selected.value) :: m.images[k];
    PartOf(release, selected.value, selectedImages);
    var part := Release(expected, selected.value, selectedImages);
    var text := CanonicalText(part);
    var metadata := Metadata(expected, tools.sha(manifestText), selected.value, selectedImages, m.toolchain);
    PartDerives(part, m, tools.sha(manifestText));
    r := Some((text, metadata));
  }

  /** The derived file means the part, and the metadata repeat it beside the manifest's own digest. */
  ghost predicate Derives(part: Release, m: Manifest, manifestSha: string, text: string, metadata: Metadata)
  {
    && Sound(part) && Meaning(text, part.commit) == Some(part) && text == CanonicalText(part)
    && metadata == Metadata(part.commit, manifestSha, part.profiles, part.images, m.toolchain)
  }

  lemma PartDerives(part: Release, m: Manifest, manifestSha: string)
    requires Sound(part)
    ensures Derives(part, m, manifestSha, CanonicalText(part),
      Metadata(part.commit, manifestSha, part.profiles, part.images, m.toolchain))
  {
    hide Sound, Meaning, CanonicalText;
    PrintedReleaseMeansItself(part, part.commit);
  }

  lemma SelectedPart(r: Release, requested: Option<string>, profiles: seq<string>)
    requires Sound(r) && Selected(requested, r.profiles) == Ok(profiles) && Among(profiles, r.profiles)
    ensures Sound(Part(r, profiles)) && Required(profiles) <= r.images.Keys
  {
    hide Canonical, Part, Required, Selected;
    SoundProfiles(r);
    SelectedIsCanonical(requested, r.profiles);
    PartIsSound(r, profiles);
  }

  lemma PartOf(r: Release, profiles: seq<string>, images: map<Key, string>)
    requires Required(profiles) <= r.images.Keys && images == map k | k in Required(profiles) :: r.images[k]
    ensures Part(r, profiles) == Release(r.commit, profiles, images)
  {
  }
}
