/** The narrow release environment file: reading it, checking it, and printing it canonically. */
module ReleaseEnv {
  import opened Text

  datatype Key =
    | ReleaseCommit | ComposeProfiles
    | ApiImage | WorkerImage | WebImage | SelfhostWorkerImage | PolicyImageDigest
    | PostgresImage | RedisImage | NginxImage | MeiliImage | EuroofficeImage | SeaweedfsImage

  function KeyName(k: Key): string
  {
    match k
    case ReleaseCommit => "RELEASE_COMMIT"
    case ComposeProfiles => "COMPOSE_PROFILES"
    case ApiImage => "API_IMAGE"
    case WorkerImage => "WORKER_IMAGE"
    case WebImage => "WEB_IMAGE"
    case SelfhostWorkerImage => "SELFHOST_WORKER_IMAGE"
    case PolicyImageDigest => "POLICY_IMAGE_DIGEST"
    case PostgresImage => "POSTGRES_IMAGE"
    case RedisImage => "REDIS_IMAGE"
    case NginxImage => "NGINX_IMAGE"
    case MeiliImage => "MEILI_IMAGE"
    case EuroofficeImage => "EUROOFFICE_IMAGE"
    case SeaweedfsImage => "SEAWEEDFS_IMAGE"
  }

  const CANONICAL_KEY_ORDER: seq<Key> := [
    ReleaseCommit, ComposeProfiles, ApiImage, WorkerImage, WebImage, SelfhostWorkerImage, PolicyImageDigest,
    PostgresImage, RedisImage, NginxImage, MeiliImage, EuroofficeImage, SeaweedfsImage]

  /** The key a supported variable name stands for. */
  function KeyOf(s: string): Option<Key>
  {
    if s == "RELEASE_COMMIT" then Some(ReleaseCommit)
    else if s == "COMPOSE_PROFILES" then Some(ComposeProfiles)
    else if s == "API_IMAGE" then Some(ApiImage)
    else if s == "WORKER_IMAGE" then Some(WorkerImage)
    else if s == "WEB_IMAGE" then Some(WebImage)
    else if s == "SELFHOST_WORKER_IMAGE" then Some(SelfhostWorkerImage)
    else if s == "POLICY_IMAGE_DIGEST" then Some(PolicyImageDigest)
    else if s == "POSTGRES_IMAGE" then Some(PostgresImage)
    else if s == "REDIS_IMAGE" then Some(RedisImage)
    else if s == "NGINX_IMAGE" then Some(NginxImage)
    else if s == "MEILI_IMAGE" then Some(MeiliImage)
    else if s == "EUROOFFICE_IMAGE" then Some(EuroofficeImage)
    else if s == "SEAWEEDFS_IMAGE" then Some(SeaweedfsImage)
    else None
  }

  lemma KeyNamesAreDistinct(k: Key)
    ensures KeyOf(KeyName(k)) == Some(k)
  {
  }

  lemma OnlyKeyNamesAreSupported(s: string)
    ensures KeyOf(s).Some? ==> s == KeyName(KeyOf(s).value)
  {
  }

  // ---- Characters and lines ----

  /** The characters at which `str.splitlines` ends a line. */
  predicate LineEnd(c: char)
  {
    var n := c as int;
    0x0A <= n <= 0x0D || 0x1C <= n <= 0x1E || n == 0x85 || n == 0x2028 || n == 0x2029
  }

  function SplitLines(s: string): seq<string>
  {
    if s == "" then []
    else if LineEnd(s[0]) then
      [""] + SplitLines(if s[0] == '\r' && |s| > 1 && s[1] == '\n' then s[2..] else s[1..])
    else
      var rest := SplitLines(s[1..]);
      if rest == [] then [[s[0]]] else [[s[0]] + rest[0]] + rest[1..]
  }

  /** `line.split("=", 1)` and its like: what stands before and after the first separator. */
  function Cut(s: string, sep: char): (r: (string, string))
    requires sep in s
    ensures sep !in r.0 && s == r.0 + [sep] + r.1
  {
    if s[0] == sep then
      assert s == "" + [sep] + s[1..];
      ("", s[1..])
    else
      var (a, b) := Cut(s[1..], sep);
      assert s == [s[0]] + a + [sep] + b;
      ([s[0]] + a, b)
  }

  predicate Upper(c: char)
  {
    'A' <= c <= 'Z'
  }

  /** A full match of `[A-Z][A-Z0-9_]*`. */
  predicate VariableName(s: string)
  {
    s != "" && Upper(s[0]) && forall i :: 0 <= i < |s| ==> Upper(s[i]) || '0' <= s[i] <= '9' || s[i] == '_'
  }

  predicate Quote(c: char)
  {
    c == '"' || c == '\''
  }

  predicate Spaced(s: string)
  {
    exists i :: 0 <= i < |s| && Space(s[i])
  }

  datatype LineError = Padding | Export | NoAssignment | BadName | Unsupported | Duplicate | Empty | Quoted | InnerSpace

  datatype Line = Skip | Assign(key: Key, value: string) | Bad(error: LineError)

  /** What one line says when the variables in `taken` have been assigned already. */
  function ReadLine(line: string, taken: set<Key>): Line
  {
    if line == "" || line[0] == '#' then Skip
    else if Space(line[0]) || Space(line[|line| - 1]) then Bad(Padding)
    else if "export " <= line then Bad(Export)
    else if '=' !in line then Bad(NoAssignment)
    else
      var (name, value) := Cut(line, '=');
      if !VariableName(name) then Bad(BadName)
      else if KeyOf(name).None? then Bad(Unsupported)
      else
        var key := KeyOf(name).value;
        if key in taken then Bad(Duplicate)
        else if key != ComposeProfiles && value == "" then Bad(Empty)
        else if value != "" && (Quote(value[0]) || Quote(value[|value| - 1])) then Bad(Quoted)
        else if Spaced(value) then Bad(InnerSpace)
        else Assign(key, value)
  }

  /** What each check refuses, on its own. */
  predicate Breaks(line: string, taken: set<Key>, e: LineError)
    requires line != ""
  {
    var (name, value) := if '=' in line then Cut(line, '=') else (line, "");
    match e
    case Padding => Space(line[0]) || Space(line[|line| - 1])
    case Export => "export " <= line
    case NoAssignment => '=' !in line
    case BadName => !VariableName(name)
    case Unsupported => KeyOf(name).None?
    case Duplicate => KeyOf(name).Some? && KeyOf(name).value in taken
    case Empty => value == "" && KeyOf(name) != Some(ComposeProfiles)
    case Quoted => value != "" && (Quote(value[0]) || Quote(value[|value| - 1]))
    case InnerSpace => Spaced(value)
  }

  /** The order in which the checks are made. */
  function Rank(e: LineError): nat
  {
    match e
    case Padding => 0
    case Export => 1
    case NoAssignment => 2
    case BadName => 3
    case Unsupported => 4
    case Duplicate => 5
    case Empty => 6
    case Quoted => 7
    case InnerSpace => 8
  }

  /** A refused line is reported with the first check it fails; an assignment fails none. */
  lemma FirstErrorIsReported(line: string, taken: set<Key>, e: LineError)
    requires line != "" && line[0] != '#'
    ensures var r := ReadLine(line, taken);
      && !r.Skip? && (r.Bad? ==> Breaks(line, taken, r.error))
      && (Breaks(line, taken, e) ==> r.Bad? && Rank(r.error) <= Rank(e))
  {
    hide KeyOf, VariableName, Cut, Space, Quote, Spaced;
  }

  // ---- Reading a whole file ----

  datatype Parsed = Values(values: map<Key, string>) | Failed(line: nat, error: LineError)

  /** All lines in turn; the first bad one is reported with its number. */
  function ReadAll(lines: seq<string>): Parsed
  {
    if lines == [] then Values(map[]) else
      var n := |lines|;
      match ReadAll(lines[..n - 1])
      case Failed(at, error) => Failed(at, error)
      case Values(values) =>
        match ReadLine(lines[n - 1], values.Keys)
        case Skip => Values(values)
        case Assign(key, value) => Values(values[key := value])
        case Bad(error) => Failed(n, error)
  }

  lemma {:induction false} FailureStays(lines: seq<string>, i: nat)
    requires i <= |lines| && ReadAll(lines[..i]).Failed?
    ensures ReadAll(lines) == ReadAll(lines[..i])
  {
    if i == |lines| {
      assert lines[..i] == lines;
    } else {
      assert lines[..|lines| - 1][..i] == lines[..i];
      FailureStays(lines[..|lines| - 1], i);
    }
  }

  /** `parse_env_file`. */
  method ParseEnvFile(text: string) returns (r: Parsed)
    ensures r == ReadAll(SplitLines(text))
  {
    var values := map[];
    var lines := SplitLines(text);
    for i := 0 to |lines|
      invariant ReadAll(lines[..i]) == Values(values)
    {
      assert lines[..i + 1][..i] == lines[..i];
      match ReadLine(lines[i], values.Keys)
      case Skip =>
      case Assign(key, value) => values := values[key := value];
      case Bad(error) =>
        FailureStays(lines, i + 1);
        return Failed(i + 1, error);
    }
    assert lines[..|lines|] == lines;
    r := Values(values);
  }

  // ---- What a file means ----

  /** The lines that say something, without their order. */
  function Bag(lines: seq<string>): multiset<string>
  {
    if lines == [] then multiset{} else
      var last := lines[|lines| - 1];
      Bag(lines[..|lines| - 1]) + if ReadLine(last, {}).Skip? then multiset{} else multiset{last}
  }

  /** Every line is an assignment and no variable is assigned twice. */
  ghost predicate Fine(bag: multiset<string>)
  {
    && (forall line :: line in bag ==> ReadLine(line, {}).Assign? && bag[line] == 1)
    && (forall a, b :: a in bag && b in bag && a != b ==> ReadLine(a, {}).key != ReadLine(b, {}).key)
  }

  ghost predicate Says(bag: multiset<string>, key: Key, value: string)
  {
    exists line :: line in bag && ReadLine(line, {}) == Assign(key, value)
  }

  /** The values are exactly those the lines assign. */
  ghost predicate Denotes(bag: multiset<string>, values: map<Key, string>)
  {
    forall k, v :: Says(bag, k, v) <==> k in values && values[k] == v
  }

  lemma TakenOnlyAddsDuplicates(line: string, taken: set<Key>)
    ensures ReadLine(line, taken).Skip? <==> ReadLine(line, {}).Skip?
    ensures forall k, v :: ReadLine(line, taken) == Assign(k, v) <==> ReadLine(line, {}) == Assign(k, v) && k !in taken
  {
  }

  lemma FewerLinesAreFine(bag: multiset<string>, line: string)
    requires Fine(bag + multiset{line})
    ensures Fine(bag)
  {
  }

  lemma OneMoreLine(bag: multiset<string>, line: string)
    requires Fine(bag)
    ensures Fine(bag + multiset{line}) <==>
      ReadLine(line, {}).Assign? && forall a :: a in bag ==> ReadLine(a, {}).key != ReadLine(line, {}).key
  {
  }

  lemma OneMoreSaid(bag: multiset<string>, line: string, k: Key, v: string)
    ensures Says(bag + multiset{line}, k, v) <==> Says(bag, k, v) || ReadLine(line, {}) == Assign(k, v)
  {
  }

  /** Reading succeeds exactly on fine files, and gives each variable the value some line assigns. */
  lemma {:induction false} ReadingGivesTheMeaning(lines: seq<string>)
    ensures ReadAll(lines).Values? <==> Fine(Bag(lines))
    ensures ReadAll(lines).Values? ==> Denotes(Bag(lines), ReadAll(lines).values)
  {
    hide ReadLine, Fine, Denotes;
    if lines == [] {
      NothingSaid();
    } else {
      var init, last := lines[..|lines| - 1], lines[|lines| - 1];
      ReadingGivesTheMeaning(init);
      ReadingOneMore(Bag(init), last, ReadAll(init));
      assert Bag(lines) == if ReadLine(last, {}).Skip? then Bag(init) else Bag(init) + multiset{last};
    }
  }

  lemma ReadingOneMore(bag: multiset<string>, line: string, before: Parsed)
    requires before.Values? <==> Fine(bag)
    requires before.Values? ==> Denotes(bag, before.values)
    ensures before.Failed? && !ReadLine(line, {}).Skip? ==> !Fine(bag + multiset{line})
    ensures before.Values? && !ReadLine(line, {}).Skip? ==>
      (Fine(bag + multiset{line}) <==> ReadLine(line, before.values.Keys).Assign?)
    ensures before.Values? && ReadLine(line, before.values.Keys).Assign? ==>
      var Assign(key, value) := ReadLine(line, before.values.Keys);
      Denotes(bag + multiset{line}, before.values[key := value])
    ensures before.Values? ==> (ReadLine(line, before.values.Keys).Skip? <==> ReadLine(line, {}).Skip?)
  {
    if before.Failed? {
      if Fine(bag + multiset{line}) { FewerLinesAreFine(bag, line); }
    } else {
      var values := before.values;
      TakenOnlyAddsDuplicates(line, values.Keys);
      hide ReadLine;
      OneMoreLine(bag, line);
      forall k, v
        ensures Says(bag + multiset{line}, k, v) <==> Says(bag, k, v) || ReadLine(line, {}) == Assign(k, v)
      {
        OneMoreSaid(bag, line, k, v);
      }
      KeysAreSaid(bag, values);
      assert ReadLine(line, {}).Assign? ==>
        Assign(ReadLine(line, {}).key, ReadLine(line, {}).value) == ReadLine(line, {});
    }
  }

  lemma NothingSaid()
    ensures Fine(multiset{}) && Denotes(multiset{}, map[])
  {
  }

  lemma KeysAreSaid(bag: multiset<string>, values: map<Key, string>)
    requires Fine(bag)
    requires Denotes(bag, values)
    ensures forall k :: k in values <==> exists a :: a in bag && ReadLine(a, {}).key == k
  {
    hide ReadLine;
    forall a | a in bag
      ensures ReadLine(a, {}).Assign? && ReadLine(a, {}).key in values
    {
      assert Says(bag, ReadLine(a, {}).key, ReadLine(a, {}).value);
    }
    forall k | k in values
      ensures exists a :: a in bag && ReadLine(a, {}).Assign? && ReadLine(a, {}).key == k
    {
      assert Says(bag, k, values[k]);
    }
  }

  /** The order of the lines, comments and blank lines make no difference. */
  lemma OrderMakesNoDifference(a: seq<string>, b: seq<string>)
    requires Bag(a) == Bag(b)
    ensures ReadAll(a).Values? <==> ReadAll(b).Values?
    ensures ReadAll(a).Values? ==> ReadAll(a) == ReadAll(b)
  {
    ReadingGivesTheMeaning(a);
    ReadingGivesTheMeaning(b);
    if ReadAll(a).Values? {
      SameAssignments(ReadAll(a).values, ReadAll(b).values, Bag(a));
    }
  }

  lemma SameAssignments(m: map<Key, string>, n: map<Key, string>, bag: multiset<string>)
    requires Denotes(bag, m)
    requires Denotes(bag, n)
    ensures m == n
  {
    hide Says;
    forall k
      ensures k in m <==> k in n
      ensures k in m ==> m[k] == n[k]
    {
      assert k in m ==> Says(bag, k, m[k]);
      assert k in n ==> Says(bag, k, n[k]);
    }
  }
}
