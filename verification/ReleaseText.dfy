/** The canonical text of a release, and reading it back. */
module ReleaseText {
  import opened Text
  import opened ReleaseEnv
  import opened ReleasePolicy

  /** One `KEY=value` line for each variable that has a value, in the given order. */
  function Print(order: seq<Key>, values: map<Key, string>): string
  {
    if order == [] then ""
    else
      var last := order[|order| - 1];
      Print(order[..|order| - 1], values)
      + if last in values then KeyName(last) + "=" + values[last] + "\n" else ""
  }

  /** `canonical_env_text`. */
  function CanonicalText(r: Release): string
  {
    Print(CANONICAL_KEY_ORDER, AllValues(r, r.profiles))
  }

  // ---- Lines ----

  predicate Finished(s: string)
  {
    s == "" || s[|s| - 1] == '\n'
  }

  lemma {:induction false} LinesOfOne(line: string)
    requires forall c :: c in line ==> !LineEnd(c)
    ensures SplitLines(line + "\n") == [line]
  {
    if line == "" {
      assert SplitLines("") == [] && ("" + "\n")[1..] == "";
    } else {
      assert (line + "\n")[1..] == line[1..] + "\n" && (line + "\n")[0] == line[0];
      LinesOfOne(line[1..]);
      assert [line[0]] + line[1..] == line;
    }
  }

  /** How many characters the line end at the start of `s` takes. */
  function EndLength(s: string): nat
  {
    if |s| > 1 && s[0] == '\r' && s[1] == '\n' then 2 else 1
  }

  lemma EndStep(s: string)
    requires s != "" && LineEnd(s[0])
    ensures SplitLines(s) == [""] + SplitLines(s[EndLength(s)..])
  {
  }

  lemma CharStep(s: string)
    requires s != "" && !LineEnd(s[0])
    ensures var rest := SplitLines(s[1..]);
      SplitLines(s) == if rest == [] then [[s[0]]] else [[s[0]] + rest[0]] + rest[1..]
  {
  }

  lemma SomeLine(s: string)
    requires s != ""
    ensures SplitLines(s) != []
  {
  }

  lemma EndAppend(a: string, b: string)
    requires a != "" && LineEnd(a[0]) && Finished(a)
    ensures Finished(a[EndLength(a)..])
    ensures SplitLines(a[EndLength(a)..] + b) == SplitLines(a[EndLength(a)..]) + SplitLines(b) ==>
      SplitLines(a + b) == SplitLines(a) + SplitLines(b)
  {
    hide SplitLines;
    EndStep(a);
    EndStep(a + b);
    assert (a + b)[EndLength(a)..] == a[EndLength(a)..] + b;
  }

  lemma CharAppend(a: string, b: string)
    requires a != "" && !LineEnd(a[0]) && a[1..] != ""
    ensures SplitLines(a[1..] + b) == SplitLines(a[1..]) + SplitLines(b) ==>
      SplitLines(a + b) == SplitLines(a) + SplitLines(b)
  {
    hide SplitLines, LineEnd;
    CharStep(a);
    CharStep(a + b);
    SomeLine(a[1..]);
    assert (a + b)[1..] == a[1..] + b;
  }

  lemma {:induction false} LinesAppend(a: string, b: string)
    requires Finished(a)
    ensures SplitLines(a + b) == SplitLines(a) + SplitLines(b)
    decreases |a|
  {
    if a == "" {
      assert a + b == b && SplitLines(a) == [];
    } else {
      hide SplitLines, LineEnd;
      assert '\n' as int == 10 && LineEnd('\n') by { NewlineEnds(); }
      if LineEnd(a[0]) {
        EndAppend(a, b);
        LinesAppend(a[EndLength(a)..], b);
      } else {
        CharAppend(a, b);
        LinesAppend(a[1..], b);
      }
    }
  }

  lemma NewlineEnds()
    ensures LineEnd('\n')
  {
  }

  // ---- One printed line ----

  /** Characters that need no quoting and never end a line. */
  predicate Plain(c: char)
  {
    '(' <= c <= 'z'
  }

  predicate AllPlain(s: string)
  {
    forall i :: 0 <= i < |s| ==> Plain(s[i])
  }

  lemma PlainAppend(a: string, b: string)
    requires AllPlain(a) && AllPlain(b)
    ensures AllPlain(a + b)
  {
  }

  predicate Printable(k: Key, value: string)
  {
    AllPlain(value) && (k == ComposeProfiles || value != "")
  }

  predicate NameChar(c: char)
  {
    Upper(c) || '0' <= c <= '9' || c == '_'
  }

  predicate NameChars(s: string)
  {
    forall i :: 0 <= i < |s| ==> NameChar(s[i])
  }

  lemma ProfileKeyNameChars(k: Key)
    requires k !in ALWAYS_REQUIRED
    ensures NameChars(KeyName(k))
  {
    match k
    case ReleaseCommit => assert NameChars("RELEASE_COMMIT");
    case ComposeProfiles => assert NameChars("COMPOSE_PROFILES");
    case SelfhostWorkerImage => assert NameChars("SELFHOST_WORKER_IMAGE");
    case PostgresImage => assert NameChars("POSTGRES_IMAGE");
    case SeaweedfsImage => assert NameChars("SEAWEEDFS_IMAGE");
  }

  lemma RequiredKeyNameChars(k: Key)
    requires k in ALWAYS_REQUIRED
    ensures NameChars(KeyName(k))
  {
    match k
    case ApiImage => assert NameChars("API_IMAGE");
    case WorkerImage => assert NameChars("WORKER_IMAGE");
    case WebImage => assert NameChars("WEB_IMAGE");
    case PolicyImageDigest => assert NameChars("POLICY_IMAGE_DIGEST");
    case RedisImage => assert NameChars("REDIS_IMAGE");
    case NginxImage => assert NameChars("NGINX_IMAGE");
    case MeiliImage => assert NameChars("MEILI_IMAGE");
    case EuroofficeImage => assert NameChars("EUROOFFICE_IMAGE");
  }

  lemma KeyNameStart(k: Key)
    ensures KeyName(k) != "" && Upper(KeyName(k)[0])
  {
  }

  lemma KeyNameIsAName(k: Key)
    ensures VariableName(KeyName(k)) && '=' !in KeyName(k) && AllPlain(KeyName(k))
  {
    if k in ALWAYS_REQUIRED { RequiredKeyNameChars(k); } else { ProfileKeyNameChars(k); }
    KeyNameStart(k);
    hide KeyName;
  }

  lemma {:induction false} CutWhereItWasJoined(a: string, b: string, sep: char)
    requires sep !in a
    ensures Cut(a + [sep] + b, sep) == (a, b)
  {
    var s := a + [sep] + b;
    if a == "" {
      assert s[1..] == b;
    } else {
      assert s[1..] == a[1..] + [sep] + b && s[0] == a[0];
      CutWhereItWasJoined(a[1..], b, sep);
      assert [a[0]] + a[1..] == a;
    }
  }

  /** What a printed line says. */
  lemma PrintedLine(k: Key, value: string, taken: set<Key>)
    requires Printable(k, value)
    ensures var line := KeyName(k) + "=" + value;
      && (forall c :: c in line ==> !LineEnd(c))
      && (k !in taken ==> ReadLine(line, taken) == Assign(k, value))
  {
    var name := KeyName(k);
    var line := name + "=" + value;
    KeyNameIsAName(k);
    KeyNamesAreDistinct(k);
    CutWhereItWasJoined(name, value, '=');
    PlainAppend(name, "=");
    PlainAppend(name + "=", value);
    PlainLine(line, value);
    LineStart(name, value);
    hide KeyName, KeyOf, VariableName, Plain, AllPlain, Cut, Space, Quote;
    assert line[|name|] == '=';
  }

  lemma LineStart(name: string, value: string)
    requires VariableName(name)
    ensures var line := name + "=" + value; line[0] != '#' && !("export " <= line)
  {
  }

  /** The assignments, in terms of the line alone: the other checks only choose the reason for refusing. */
  lemma AssignmentMeaning(line: string, taken: set<Key>, k: Key, v: string)
    ensures ReadLine(line, taken) == Assign(k, v) <==>
      && line == KeyName(k) + "=" + v && k !in taken && (v == "" ==> k == ComposeProfiles)
      && !Spaced(v) && (v != "" ==> !Quote(v[0]) && !Quote(v[|v| - 1]))
  {
    hide KeyName, KeyOf, VariableName, Cut, Space, Quote, Spaced, AllPlain;
    KeyNameIsAName(k);
    KeyNamesAreDistinct(k);
    CutWhereItWasJoined(KeyName(k), v, '=');
    LineStart(KeyName(k), v);
    if ReadLine(line, taken).Assign? {
      OnlyKeyNamesAreSupported(Cut(line, '=').0);
    }
    NoSpaceAround(KeyName(k), v);
    if line == KeyName(k) + "=" + v {
      assert line[|KeyName(k)|] == '=';
    }
  }

  lemma NoSpaceAround(name: string, value: string)
    requires VariableName(name)
    ensures var line := name + "=" + value;
      !Space(line[0]) && (!Spaced(value) ==> !Space(line[|line| - 1]))
  {
    var line := name + "=" + value;
    assert line[0] == name[0];
    assert value != "" ==> line[|line| - 1] == value[|value| - 1];
  }

  lemma PlainLine(line: string, value: string)
    requires AllPlain(line) && AllPlain(value)
    ensures forall c :: c in line ==> !LineEnd(c) && !Space(c)
    ensures forall i :: 0 <= i < |value| ==> !Space(value[i]) && !Quote(value[i])
  {
  }

  // ---- The round trip ----

  lemma PrintIsFinished(order: seq<Key>, values: map<Key, string>)
    ensures Finished(Print(order, values))
  {
  }

  function Restrict(order: seq<Key>, values: map<Key, string>): map<Key, string>
  {
    map k | k in order && k in values :: values[k]
  }

  lemma RestrictOneMore(order: seq<Key>, values: map<Key, string>)
    requires order != []
    ensures var init, last := order[..|order| - 1], order[|order| - 1];
      Restrict(order, values) ==
      if last in values then Restrict(init, values)[last := values[last]] else Restrict(init, values)
  {
  }

  /** Reading what was printed gives the printed values back. */
  lemma {:induction false} PrintThenRead(order: seq<Key>, values: map<Key, string>)
    requires forall i, j :: 0 <= i < j < |order| ==> order[i] != order[j]
    requires forall k :: k in values ==> Printable(k, values[k])
    ensures ReadAll(SplitLines(Print(order, values))) == Values(Restrict(order, values))
  {
    hide KeyName, Printable, ReadLine, ReadAll, SplitLines, Restrict;
    if order == [] {
      NothingPrinted(values);
    } else {
      var init, last := order[..|order| - 1], order[|order| - 1];
      PrintThenRead(init, values);
      RestrictOneMore(order, values);
      if last in values {
        OneMorePrinted(init, last, values);
      } else {
        assert Print(order, values) == Print(init, values);
      }
    }
  }

  lemma NothingPrinted(values: map<Key, string>)
    ensures ReadAll(SplitLines(Print([], values))) == Values(Restrict([], values))
  {
  }

  lemma OneMorePrinted(init: seq<Key>, last: Key, values: map<Key, string>)
    requires last !in init && last in values && Printable(last, values[last])
    requires ReadAll(SplitLines(Print(init, values))) == Values(Restrict(init, values))
    ensures ReadAll(SplitLines(Print(init, values) + (KeyName(last) + "=" + values[last] + "\n")))
      == Values(Restrict(init, values)[last := values[last]])
  {
    var before := Print(init, values);
    var line := KeyName(last) + "=" + values[last];
    hide KeyName, Printable, ReadLine, Print, SplitLines;
    PrintedLine(last, values[last], Restrict(init, values).Keys);
    PrintIsFinished(init, values);
    LinesAppend(before, line + "\n");
    LinesOfOne(line);
    var lines := SplitLines(before + (line + "\n"));
    assert lines[..|lines| - 1] == SplitLines(before);
  }

  // ---- Releases ----

  lemma OwnImageNameIsPlain(k: Key)
    requires IsOwn(k)
    ensures AllPlain(ImageName(k))
  {
    match k
    case ApiImage => assert AllPlain("api-release");
    case WorkerImage => assert AllPlain("worker-release");
    case WebImage => assert AllPlain("web-release");
    case SelfhostWorkerImage => assert AllPlain("selfhost-worker-release");
  }

  lemma PlatformImageNameIsPlain(k: Key)
    requires k == PolicyImageDigest || k == PostgresImage || k == RedisImage || k == NginxImage
    ensures AllPlain(ImageName(k))
  {
    match k
    case PolicyImageDigest => assert AllPlain("library/alpine");
    case PostgresImage => assert AllPlain("library/postgres");
    case RedisImage => assert AllPlain("library/redis");
    case NginxImage => assert AllPlain("library/nginx");
  }

  lemma ProductImageNameIsPlain(k: Key)
    requires k == MeiliImage || k == EuroofficeImage || k == SeaweedfsImage || ImageName(k) == ""
    ensures AllPlain(ImageName(k))
  {
    match k
    case MeiliImage => assert AllPlain("getmeili/meilisearch");
    case EuroofficeImage => assert AllPlain("euro-office/documentserver");
    case SeaweedfsImage => assert AllPlain("chrislusf/seaweedfs");
    case _ =>
  }

  lemma PrefixIsPlain(k: Key)
    ensures AllPlain(ImagePrefix(k))
  {
    if IsOwn(k) {
      OwnImageNameIsPlain(k);
    } else if k == PolicyImageDigest || k == PostgresImage || k == RedisImage || k == NginxImage {
      PlatformImageNameIsPlain(k);
    } else {
      ProductImageNameIsPlain(k);
    }
    assert AllPlain("ghcr.io/") && AllPlain("theo-darvoux/lectern/") && AllPlain("docker.io/") && AllPlain("@");
    hide AllPlain, ImageName;
    PlainAppend("ghcr.io/", "theo-darvoux/lectern/");
    PlainAppend(ImageHost(k), ImageName(k));
    PlainAppend(Repository(k), "@");
  }

  lemma DigestIsPlain(s: string)
    requires IsDigest(s)
    ensures AllPlain(s)
  {
  }

  lemma ImageIsPrintable(k: Key, value: string)
    requires MatchesPattern(k, value)
    ensures Printable(k, value)
  {
    var n := |ImagePrefix(k)|;
    PrefixIsPlain(k);
    DigestIsPlain(value[n..]);
    PlainAppend(value[..n], value[n..]);
    assert value == value[..n] + value[n..];
  }

  lemma {:induction false} ProfilesArePlain(profiles: seq<string>)
    requires forall p :: p in profiles ==> ProfileImage(p).Some?
    ensures AllPlain(Join(profiles, ','))
  {
    if profiles != [] {
      ProfileIsPlain(profiles[0]);
      hide AllPlain, ProfileImage;
      ProfilesArePlain(profiles[1..]);
      PlainAppend(profiles[0], [',']);
      PlainAppend(profiles[0] + [','], Join(profiles[1..], ','));
    }
  }

  lemma ProfileIsPlain(p: string)
    requires ProfileImage(p).Some?
    ensures AllPlain(p) && AllPlain([','])
  {
  }

  lemma SoundIsPrintable(r: Release)
    requires Sound(r)
    ensures forall k :: k in AllValues(r, r.profiles) ==> Printable(k, AllValues(r, r.profiles)[k])
  {
    hide Printable, Join, Sound;
    SoundPartsArePrintable(r);
    ValuesArePrintable(r, r.profiles);
  }

  lemma ValuesArePrintable(r: Release, listed: seq<string>)
    requires Printable(ReleaseCommit, r.commit) && Printable(ComposeProfiles, Join(listed, ','))
    requires forall k :: k in r.images ==> Printable(k, r.images[k])
    ensures forall k :: k in AllValues(r, listed) ==> Printable(k, AllValues(r, listed)[k])
  {
  }

  lemma SoundPartsArePrintable(r: Release)
    requires Sound(r)
    ensures Printable(ReleaseCommit, r.commit) && Printable(ComposeProfiles, Join(r.profiles, ','))
    ensures forall k :: k in r.images ==> Printable(k, r.images[k])
  {
    hide AllPlain, MatchesPattern, IsHex, Required;
    ProfilesArePlain(r.profiles);
    CommitIsPrintable(r.commit);
    forall k | k in r.images
      ensures Printable(k, r.images[k])
    {
      ImageIsPrintable(k, r.images[k]);
    }
  }

  lemma CommitIsPrintable(commit: string)
    requires IsHex(commit, 40)
    ensures Printable(ReleaseCommit, commit)
  {
  }

  lemma OrderIsComplete(k: Key)
    ensures k in CANONICAL_KEY_ORDER
  {
  }

  lemma OrderIsDistinct()
    ensures forall i, j :: 0 <= i < j < |CANONICAL_KEY_ORDER| ==> CANONICAL_KEY_ORDER[i] != CANONICAL_KEY_ORDER[j]
  {
  }

  /** Printing a release and reading the text back gives its values. */
  lemma PrintedReleaseReads(r: Release)
    requires Sound(r)
    ensures ReadAll(SplitLines(CanonicalText(r))) == Values(AllValues(r, r.profiles))
  {
    var values, order := AllValues(r, r.profiles), CANONICAL_KEY_ORDER;
    SoundIsPrintable(r);
    OrderIsDistinct();
    PrintThenRead(order, values);
    hide Printable, AllValues, Sound, Print, ReadAll, SplitLines, Restrict;
    RestrictToAll(values);
  }

  lemma RestrictToAll(values: map<Key, string>)
    ensures Restrict(CANONICAL_KEY_ORDER, values) == values
  {
    var order := CANONICAL_KEY_ORDER;
    forall k | k in values
      ensures k in order
    {
      OrderIsComplete(k);
    }
    assert Restrict(order, values).Keys == values.Keys;
  }

  /** The release a file describes, when it is read and checked against an expected commit. */
  function Meaning(text: string, expected: string): Option<Release>
  {
    match ReadAll(SplitLines(text))
    case Failed(_, _) => None
    case Values(values) =>
      match Validate(values, expected)
      case Refused(_) => None
      case Ok(r) => Some(r)
  }

  /** What a text describes is a sound release, of the expected commit if there is one. */
  lemma MeaningIsSound(text: string, expected: string)
    ensures Meaning(text, expected).Some? ==>
      Sound(Meaning(text, expected).value) && (expected == "" || expected == Meaning(text, expected).value.commit)
  {
    var parsed := ReadAll(SplitLines(text));
    hide ReadAll, SplitLines, Validate, Sound;
    if Meaning(text, expected).Some? {
      ValidatedValues(parsed.values, expected, Meaning(text, expected).value);
    }
  }

  /** The canonical text of a release means that release. */
  lemma PrintedReleaseMeansItself(r: Release, expected: string)
    requires Sound(r) && (expected == "" || expected == r.commit)
    ensures Meaning(CanonicalText(r), expected) == Some(r)
  {
    PrintedReleaseReads(r);
    hide ReadAll, SplitLines, Validate, Sound, CanonicalText, AllValues;
    assert multiset(r.profiles) == multiset(r.profiles);
    ValidatedValues(AllValues(r, r.profiles), expected, r);
  }

  /** How each script begins: reading its environment file and checking it. */
  method ReadRelease(text: string, expected: string) returns (r: Option<Release>)
    ensures r == Meaning(text, expected)
  {
    hide ReadAll, SplitLines, Validate;
    var parsed := ParseEnvFile(text);
    if parsed.Failed? { return None; }
    var checked := ValidateReleaseValues(parsed.values, expected);
    r := if checked.Ok? then Some(checked.value) else None;
  }

  /** `sanitize-production-images.py`: the canonical text of an accepted file. */
  method Sanitize(text: string, expected: string) returns (r: Option<string>)
    ensures r.Some? <==> Meaning(text, expected).Some?
    ensures r.Some? ==> r.value == CanonicalText(Meaning(text, expected).value)
    ensures r.Some? ==> Meaning(r.value, expected) == Meaning(text, expected)
  {
    hide Meaning, CanonicalText;
    var release := ReadRelease(text, expected);
    if release.None? { return None; }
    MeaningIsSound(text, expected);
    PrintedReleaseMeansItself(release.value, expected);
    r := Some(CanonicalText(release.value));
  }

  /** Two accepted files have the same canonical text exactly when they describe the same release. */
  lemma SameTextIffSameRelease(a: Release, b: Release)
    requires Sound(a) && Sound(b)
    ensures CanonicalText(a) == CanonicalText(b) <==> a == b
  {
    PrintedReleaseMeansItself(a, "");
    PrintedReleaseMeansItself(b, "");
  }

  /** Line order, comments and blank lines make no difference to what a file means. */
  lemma LineOrderMakesNoDifference(a: string, b: string, expected: string)
    requires Bag(SplitLines(a)) == Bag(SplitLines(b))
    ensures Meaning(a, expected) == Meaning(b, expected)
  {
    OrderMakesNoDifference(SplitLines(a), SplitLines(b));
  }

  /** Neither does the order in which the profiles are listed. */
  lemma ListingOrderMakesNoDifference(a: string, b: string, values: map<Key, string>, listed: seq<string>,
    relisted: seq<string>, expected: string)
    requires multiset(listed) == multiset(relisted) && forall p :: p in listed ==> ',' !in p
    requires ReadAll(SplitLines(a)) == Values(values[ComposeProfiles := Join(listed, ',')])
    requires ReadAll(SplitLines(b)) == Values(values[ComposeProfiles := Join(relisted, ',')])
    ensures Meaning(a, expected) == Meaning(b, expected)
  {
    hide ReadAll, SplitLines, Validate;
    ProfileOrderMakesNoDifference(listed, relisted);
    SameValidation(values[ComposeProfiles := Join(listed, ',')], values[ComposeProfiles := Join(relisted, ',')],
      expected);
  }

  lemma SameValidation(v: map<Key, string>, w: map<Key, string>, expected: string)
    requires v.Keys == w.Keys && ComposeProfiles in v
    requires ParseProfiles(v[ComposeProfiles]) == ParseProfiles(w[ComposeProfiles])
    requires forall k :: k != ComposeProfiles ==> Get(v, k) == Get(w, k)
    ensures Validate(v, expected) == Validate(w, expected)
  {
    hide ParseProfiles, IsHex, ValidateImages;
    if ParseProfiles(v[ComposeProfiles]).Ok? {
      var commit := if expected != "" then expected else Get(v, ReleaseCommit);
      SameImages(commit, ParseProfiles(v[ComposeProfiles]).value, v, w);
    }
  }

  lemma SameImages(commit: string, profiles: seq<string>, v: map<Key, string>, w: map<Key, string>)
    requires v.Keys == w.Keys && forall k :: k != ComposeProfiles ==> Get(v, k) == Get(w, k)
    ensures ValidateImages(commit, profiles, v) == ValidateImages(commit, profiles, w)
  {
    assert ComposeProfiles !in Required(profiles) by { hide ProfileImages; }
    hide ProfileImages, Required, Mismatched, Picked;
    SamePicks(Required(profiles), v, w);
  }

  lemma SamePicks(required: set<Key>, v: map<Key, string>, w: map<Key, string>)
    requires ComposeProfiles !in required && forall k :: k != ComposeProfiles ==> Get(v, k) == Get(w, k)
    ensures Mismatched(required, v) == Mismatched(required, w) && Picked(required, v) == Picked(required, w)
  {
  }
}
