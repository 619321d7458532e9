/** Naming the members of a directory download: validation of archive paths and de-duplication. */
module ZipNames {
  import opened Text

  // ---- The validator ----

  predicate Trimmed(c: char)
  {
    c == ' ' || c == '.'
  }

  /** `part.rstrip(" .")` */
  function StripRight(part: string): (r: string)
    ensures r <= part
    ensures forall i :: 0 <= i < |part| && !Trimmed(part[i]) ==> i < |r|
  {
    if part != "" && Trimmed(part[|part| - 1]) then StripRight(part[..|part| - 1]) else part
  }

  predicate Letter(c: char)
  {
    'A' <= c <= 'Z' || 'a' <= c <= 'z'
  }

  predicate DrivePrefix(s: string)
  {
    |s| >= 2 && Letter(s[0]) && s[1] == ':'
  }

  predicate SafePart(part: string)
  {
    part != "" && StripRight(part) !in {"", ".", ".."}
  }

  /** What `_validate_zip_arcname` accepts. */
  predicate ValidArcname(name: string)
  {
    && name != "" && '\0' !in name && '\\' !in name && name[0] != '/'
    && (var parts := Split(name, '/');
        (forall i :: 0 <= i < |parts| ==> SafePart(parts[i])) && !DrivePrefix(StripRight(parts[0])))
  }

  lemma {:induction false} StripRightIsEmpty(part: string)
    ensures StripRight(part) == "" <==> forall c :: c in part ==> Trimmed(c)
    ensures StripRight(part) != "" ==> !Trimmed(StripRight(part)[|StripRight(part)| - 1])
  {
    if part != "" && Trimmed(part[|part| - 1]) {
      StripRightIsEmpty(part[..|part| - 1]);
      assert part == part[..|part| - 1] + [part[|part| - 1]];
    }
  }

  /** The validator in terms of the name alone: no component is made of dots and spaces only, and no drive is named. */
  lemma ValidIffItStaysInside(name: string)
    ensures ValidArcname(name) <==>
      && '\0' !in name && '\\' !in name && !DrivePrefix(name)
      && (forall p :: p in Split(name, '/') ==> exists c :: c in p && !Trimmed(c))
  {
    var parts := Split(name, '/');
    forall p | p in parts
      ensures SafePart(p) <==> exists c :: c in p && !Trimmed(c)
    {
      StripRightIsEmpty(p);
    }
    assert forall i :: 0 <= i < |parts| ==> parts[i] in parts;
    FirstPart(name);
    if name == "" {
      assert parts[0] in parts && parts[0] == "";
    }
  }

  /** A name and its first component begin with the same drive prefix, or with none. */
  lemma FirstPart(name: string)
    ensures var first := Split(name, '/')[0];
      && first <= name && (name != "" && name[0] == '/' <==> name != "" && first == "")
      && (DrivePrefix(StripRight(first)) <==> DrivePrefix(name))
  {
    if |name| >= 1 && name[0] != '/' {
      var rest := Split(name[1..], '/');
      assert Split(name, '/')[0] == [name[0]] + rest[0];
      FirstPart(name[1..]);
      assert name == [name[0]] + name[1..];
      if |name| >= 2 && name[1] != '/' {
        assert rest[0] != "" && rest[0][0] == name[1];
      }
    }
  }

  // ---- Candidate names ----

  /** `original.rpartition(".")` without the separator; no dot leaves everything on the right. */
  function Partition(s: string): (r: (string, string))
    ensures '.' in s ==> s == r.0 + "." + r.1
    ensures '.' !in s ==> r == ("", s)
  {
    if s == "" then ("", s)
    else
      var n := |s| - 1;
      if s[n] == '.' then (s[..n], "")
      else
        assert s == s[..n] + [s[n]];
        var (a, b) := Partition(s[..n]);
        (a, b + [s[n]])
  }

  /** The n-th name tried for a member: its own, then with a number put before the extension. */
  function Candidate(original: string, n: nat): string
  {
    if n == 0 then original
    else
      var (base, ext) := Partition(original);
      if ext != "" then base + ("_" + Decimal(n) + ".") + ext else original + ("_" + Decimal(n))
  }

  lemma MiddleIsRead(base: string, a: string, b: string, ext: string)
    ensures base + ("_" + a + ".") + ext == base + ("_" + b + ".") + ext ==> a == b
    ensures base + ("_" + a) == base + ("_" + b) ==> a == b
  {
    var x, y := base + ("_" + a + ".") + ext, base + ("_" + b + ".") + ext;
    assert |x| == |base| + |a| + |ext| + 2 && |y| == |base| + |b| + |ext| + 2;
    assert |a| == |b| ==> x[|base| + 1..|base| + 1 + |a|] == a && y[|base| + 1..|base| + 1 + |a|] == b;
    assert (base + ("_" + a))[|base| + 1..] == a && (base + ("_" + b))[|base| + 1..] == b;
  }

  lemma CandidatesDiffer(original: string, m: nat, n: nat)
    requires original != "" && Candidate(original, m) == Candidate(original, n)
    ensures m == n
  {
    var (base, ext) := Partition(original);
    hide Partition, Decimal;
    if m > 0 && n > 0 {
      MiddleIsRead(base, Decimal(m), Decimal(n), ext);
      MiddleIsRead(original, Decimal(m), Decimal(n), "");
      DecimalInjective(m, n);
    }
  }

  /** Putting a separator-free text in front of another one lengthens its first part. */
  lemma {:induction false} SplitAfter(mid: string, b: string, sep: char)
    requires sep !in mid
    ensures Split(mid + b, sep) == [mid + Split(b, sep)[0]] + Split(b, sep)[1..]
  {
    var y := Split(b, sep);
    if mid == "" {
      assert mid + b == b && mid + y[0] == y[0];
    } else {
      assert (mid + b)[1..] == mid[1..] + b && (mid + b)[0] == mid[0];
      SplitAfter(mid[1..], b, sep);
      assert [mid[0]] + (mid[1..] + y[0]) == mid + y[0];
    }
  }

  /** The last part on the left continued by the first part on the right. */
  function Glue(x: seq<string>, y: seq<string>): (r: seq<string>)
    requires x != [] && y != []
    ensures |r| == |x| + |y| - 1
  {
    if |x| == 1 then [x[0] + y[0]] + y[1..] else [x[0]] + Glue(x[1..], y)
  }

  lemma {:induction false} GlueAt(x: seq<string>, y: seq<string>, i: nat)
    requires x != [] && y != [] && i < |x| + |y| - 1
    ensures Glue(x, y)[i] ==
      if i < |x| - 1 then x[i] else if i == |x| - 1 then x[i] + y[0] else y[i - |x| + 1]
  {
    if |x| > 1 && i > 0 { GlueAt(x[1..], y, i - 1); }
  }

  /** Splitting a concatenation glues the parts of its two halves. */
  lemma {:induction false} SplitGlue(a: string, c: string, sep: char)
    ensures Split(a + c, sep) == Glue(Split(a, sep), Split(c, sep))
  {
    var y := Split(c, sep);
    if a == "" {
      assert a + c == c && "" + y[0] == y[0];
    } else {
      var x := Split(a[1..], sep);
      assert (a + c)[1..] == a[1..] + c && (a + c)[0] == a[0];
      SplitGlue(a[1..], c, sep);
      if a[0] != sep {
        assert [a[0]] + (x[0] + y[0]) == ([a[0]] + x[0]) + y[0];
      }
    }
  }

  lemma NumberedPartIsSafe(part: string, i: nat)
    requires i < |part| && part[i] == '_'
    ensures SafePart(part)
  {
  }

  /** How the parts of a name change when its middle is replaced. */
  lemma PartsAround(a: string, old_: string, mid: string, b: string)
    requires '/' !in old_ && '/' !in mid
    ensures var before, after, k := Split(a + old_ + b, '/'), Split(a + mid + b, '/'), |Split(a, '/')| - 1;
      && |before| == |after| > k && (forall i :: 0 <= i < |after| && i != k ==> after[i] == before[i])
      && before[k] == Split(a, '/')[k] + (old_ + Split(b, '/')[0])
      && after[k] == Split(a, '/')[k] + (mid + Split(b, '/')[0])
  {
    hide Glue;
    var x := Split(a, '/');
    SplitAfter(old_, b, '/');
    SplitAfter(mid, b, '/');
    SplitGlue(a, old_ + b, '/');
    SplitGlue(a, mid + b, '/');
    assert a + old_ + b == a + (old_ + b) && a + mid + b == a + (mid + b);
    forall i | 0 <= i < |Split(a + mid + b, '/')|
      ensures Split(a + mid + b, '/')[i] == Glue(x, Split(mid + b, '/'))[i]
      ensures i != |x| - 1 ==> Split(a + mid + b, '/')[i] == Split(a + old_ + b, '/')[i]
    {
      GlueAt(x, Split(old_ + b, '/'), i);
      GlueAt(x, Split(mid + b, '/'), i);
    }
    GlueAt(x, Split(old_ + b, '/'), |x| - 1);
    GlueAt(x, Split(mid + b, '/'), |x| - 1);
  }

  /** Replacing a dot or nothing by a numbered middle keeps a name valid. */
  lemma NumberedNameIsValid(a: string, old_: string, mid: string, b: string)
    requires ValidArcname(a + old_ + b) && '/' !in old_
    requires mid != "" && mid[0] == '_' && '/' !in mid && '\\' !in mid && '\0' !in mid
    ensures ValidArcname(a + mid + b)
  {
    hide SafePart;
    PartsAround(a, old_, mid, b);
    var before, after := Split(a + old_ + b, '/'), Split(a + mid + b, '/');
    var k := |Split(a, '/')| - 1;
    var head, tail := Split(a, '/')[k], Split(b, '/')[0];
    assert after[k][|head|] == '_';
    NumberedPartIsSafe(after[k], |head|);
    assert forall i :: 0 <= i < |after| && i != k ==> SafePart(before[i]) && after[i] == before[i];
    NewNameStart(a, old_, mid, b);
    if k == 0 {
      NoNewDrive(head, old_ + tail, mid + tail);
    }
    assert !DrivePrefix(StripRight(after[0]));
  }

  lemma NewNameStart(a: string, old_: string, mid: string, b: string)
    requires mid != "" && mid[0] == '_' && (a + old_ + b == "" || (a + old_ + b)[0] != '/')
    ensures a + mid + b != "" && (a + mid + b)[0] != '/'
  {
  }

  lemma NoNewDrive(head: string, tail: string, numbered: string)
    requires !DrivePrefix(StripRight(head + tail)) && numbered != "" && numbered[0] == '_'
    ensures !DrivePrefix(StripRight(head + numbered))
  {
    if |head| >= 2 {
      assert (head + tail)[0] == head[0] && (head + tail)[1] == head[1];
      assert (head + numbered)[0] == head[0] && (head + numbered)[1] == head[1];
    } else if |head| == 1 {
      assert (head + numbered)[1] == '_';
    } else {
      assert (head + numbered)[0] == '_';
    }
  }

  /** Every candidate of a valid name is valid, although only the first one is checked. */
  lemma CandidateIsValid(original: string, n: nat)
    requires ValidArcname(original)
    ensures ValidArcname(Candidate(original, n))
  {
    if n > 0 {
      var (base, ext) := Partition(original);
      if ext == "" {
        assert original + "" + "" == original;
        NumberedNameIsValid(original, "", "_" + Decimal(n), "");
        assert Candidate(original, n) == original + ("_" + Decimal(n)) + "";
      } else if '.' in original {
        NumberedNameIsValid(base, ".", "_" + Decimal(n) + ".", ext);
      } else {
        assert original == "" + "" + ext;
        NumberedNameIsValid("", "", "_" + Decimal(n) + ".", ext);
      }
    }
  }

  // ---- Building the entries ----

  datatype Entry = Entry(name: string, fileKey: string)

  /** `k` numbers the first candidate that is not taken yet. */
  ghost predicate FirstFree(taken: set<string>, original: string, k: nat)
  {
    Candidate(original, k) !in taken && forall j: nat :: j < k ==> Candidate(original, j) in taken
  }

  /** Taken names that are still ahead in the sequence of candidates. */
  ghost function Ahead(taken: set<string>, original: string, n: nat): set<string>
  {
    set c | c in taken && exists m: nat :: m >= n && c == Candidate(original, m)
  }

  class Namer {
    var seen: set<string>
    var entries: seq<Entry>

    constructor ()
      ensures seen == {} && entries == []
    {
      seen, entries := {}, [];
    }

    /** The nested function `_add_entry`; `k` is the number of renamings it took. */
    method AddEntry(wanted: string, fileKey: string) returns (ok: bool, ghost k: nat)
      modifies this
      ensures ok <==> ValidArcname(wanted)
      ensures !ok ==> seen == old(seen) && entries == old(entries)
      ensures ok ==> FirstFree(old(seen), wanted, k) && ValidArcname(Candidate(wanted, k))
      ensures ok ==> entries == old(entries) + [Entry(Candidate(wanted, k), fileKey)]
      ensures ok ==> seen == old(seen) + {Candidate(wanted, k)}
    {
      k := 0;
      if !ValidArcname(wanted) { return false, 0; }
      var name, n := wanted, 1;
      while name in seen
        invariant n >= 1 && name == Candidate(wanted, n - 1)
        invariant forall j: nat :: j < n - 1 ==> Candidate(wanted, j) in seen
        invariant seen == old(seen) && entries == old(entries)
        decreases Ahead(seen, wanted, n - 1)
      {
        AheadShrinks(seen, wanted, n - 1);
        var (base, ext) := Partition(wanted);
        name := if ext != "" then base + ("_" + Decimal(n) + ".") + ext else wanted + ("_" + Decimal(n));
        n := n + 1;
      }
      k := n - 1;
      CandidateIsValid(wanted, k);
      seen := seen + {name};
      entries := entries + [Entry(name, fileKey)];
      ok := true;
    }
  }

  lemma AheadShrinks(taken: set<string>, original: string, n: nat)
    requires original != "" && Candidate(original, n) in taken
    ensures Ahead(taken, original, n + 1) < Ahead(taken, original, n)
  {
    assert Candidate(original, n) in Ahead(taken, original, n);
    if Candidate(original, n) in Ahead(taken, original, n + 1) {
      var m: nat :| m >= n + 1 && Candidate(original, n) == Candidate(original, m);
      CandidatesDiffer(original, n, m);
    }
  }

  datatype Row = Row(relPath: string, parentName: string, fileKey: string, fileName: string, size: nat)

  function FileName(r: Row): string
  {
    if r.fileName == "" then "file" else r.fileName
  }

  function Under(folder: string, name: string): string
  {
    if folder == "" then name else folder + "/" + name
  }

  /** The member name a material's row asks for. */
  function MaterialName(r: Row): string
  {
    Under(r.relPath, FileName(r))
  }

  /** An attachment goes into a folder named after its parent file without the extension. */
  function AttachmentName(r: Row): string
  {
    var parent := if r.parentName == "" then "attachments" else r.parentName;
    var stem := if '.' in parent then Partition(parent).0 else parent;
    Under(r.relPath, stem) + "/" + FileName(r)
  }

  /** The components of a folder; the top of the download has none. */
  function PartsOf(folder: string): seq<string>
  {
    if folder == "" then [] else Split(folder, '/')
  }

  lemma UnderParts(folder: string, name: string)
    ensures Split(Under(folder, name), '/') == PartsOf(folder) + Split(name, '/')
  {
    SplitTwo(folder, name, '/');
  }

  /** A material lies directly in its folder, under its own file name. */
  lemma MaterialLiesInItsFolder(r: Row)
    ensures Split(MaterialName(r), '/')
      == PartsOf(r.relPath) + Split(if r.fileName != "" then r.fileName else "file", '/')
  {
    UnderParts(r.relPath, FileName(r));
  }

  lemma {:induction false} PartitionAtLastDot(stem: string, ext: string)
    requires '.' !in ext
    ensures Partition(stem + "." + ext) == (stem, ext)
  {
    var s := stem + "." + ext;
    if ext != "" {
      var n := |ext| - 1;
      assert ext == ext[..n] + [ext[n]] && s[|s| - 1] == ext[n] && s[..|s| - 1] == stem + "." + ext[..n];
      PartitionAtLastDot(stem, ext[..n]);
    } else {
      assert s[..|s| - 1] == stem;
    }
  }

  /** An attachment lies beside its parent file, in a folder that has the parent's name up to the last dot. */
  lemma AttachmentLiesBesideItsParent(r: Row, stem: string, ext: string)
    requires '.' !in ext
    requires r.parentName == stem + "." + ext
      || ('.' !in stem && stem == if r.parentName != "" then r.parentName else "attachments")
    ensures Split(AttachmentName(r), '/')
      == PartsOf(r.relPath) + Split(stem, '/') + Split(if r.fileName != "" then r.fileName else "file", '/')
  {
    if r.parentName == stem + "." + ext {
      assert '.' in r.parentName;
      PartitionAtLastDot(stem, ext);
    }
    UnderParts(r.relPath, stem);
    SplitTwo(Under(r.relPath, stem), FileName(r), '/');
  }

  const DOWNLOAD_MAX_FILES := 500
  const DOWNLOAD_MAX_BYTES := 500 * 1024 * 1024

  function TotalSize(rows: seq<Row>): nat
  {
    if rows == [] then 0 else rows[0].size + TotalSize(rows[1..])
  }

  /** The total is the sum of the sizes, so the order of the rows makes no difference to the limit. */
  lemma {:induction false} TotalSizeOfBoth(a: seq<Row>, b: seq<Row>, r: Row)
    ensures TotalSize(a + [r] + b) == TotalSize(a + b) + r.size
  {
    if a == [] {
      assert [r] + b == a + [r] + b && ([r] + b)[1..] == b && a + b == b;
    } else {
      TotalSizeOfBoth(a[1..], b, r);
      assert (a + [r] + b)[1..] == a[1..] + [r] + b && (a + b)[1..] == a[1..] + b;
    }
  }

  function Wanted(rows: seq<Row>, attachments: seq<Row>): (w: seq<Entry>)
    ensures |w| == |rows| + |attachments|
  {
    seq(|rows|, i requires 0 <= i < |rows| => Entry(MaterialName(rows[i]), rows[i].fileKey))
    + seq(|attachments|, i requires 0 <= i < |attachments| =>
        Entry(AttachmentName(attachments[i]), attachments[i].fileKey))
  }

  ghost function NamesOf(entries: seq<Entry>): set<string>
  {
    set e | e in entries :: e.name
  }

  /** One entry per wanted member, in order, each under the first free candidate of its own name. */
  ghost predicate NamedInOrder(wanted: seq<Entry>, entries: seq<Entry>)
  {
    |entries| == |wanted| && forall i :: 0 <= i < |entries| ==> NamedAt(wanted, entries, i)
  }

  ghost predicate NamedAt(wanted: seq<Entry>, entries: seq<Entry>, i: nat)
    requires i < |entries| && i < |wanted|
  {
    && entries[i].fileKey == wanted[i].fileKey && ValidArcname(entries[i].name)
    && exists k: nat ::
         FirstFree(NamesOf(entries[..i]), wanted[i].name, k) && entries[i].name == Candidate(wanted[i].name, k)
  }

  lemma NamedEntriesAreDistinct(wanted: seq<Entry>, entries: seq<Entry>)
    requires NamedInOrder(wanted, entries)
    ensures forall i, j :: 0 <= i < j < |entries| ==> entries[i].name != entries[j].name
  {
    forall i, j | 0 <= i < j < |entries|
      ensures entries[i].name != entries[j].name
    {
      assert NamedAt(wanted, entries, j);
      assert entries[..j][i] == entries[i];
      assert entries[i].name in NamesOf(entries[..j]);
    }
  }

  /** The two loops that add the members; nothing comes back when some wanted name is refused. */
  method NameAll(wanted: seq<Entry>) returns (r: Option<seq<Entry>>)
    ensures r.Some? <==> (forall e :: e in wanted ==> ValidArcname(e.name))
    ensures r.Some? ==> NamedInOrder(wanted, r.value)
  {
    hide NamedInOrder, ValidArcname, FirstFree, NamesOf, Candidate;
    var namer := new Namer();
    NothingNamed(wanted[..0]);
    for i := 0 to |wanted|
      invariant namer.seen == NamesOf(namer.entries)
      invariant NamedInOrder(wanted[..i], namer.entries)
      invariant forall j :: 0 <= j < i ==> ValidArcname(wanted[j].name)
    {
      ghost var before := namer.entries;
      var ok, k := namer.AddEntry(wanted[i].name, wanted[i].fileKey);
      if !ok {
        assert wanted[i] in wanted;
        return None;
      }
      OneMoreNamed(wanted, before, i, k);
    }
    assert wanted[..|wanted|] == wanted;
    r := Some(namer.entries);
  }

  /** `_build_zip_entries` after its queries. */
  method BuildZipEntries(rows: seq<Row>, attachments: seq<Row>) returns (r: Option<seq<Entry>>)
    ensures r.Some? <==>
      (&& |rows| + |attachments| <= DOWNLOAD_MAX_FILES
       && TotalSize(rows) + TotalSize(attachments) <= DOWNLOAD_MAX_BYTES
       && forall e :: e in Wanted(rows, attachments) ==> ValidArcname(e.name))
    ensures r.Some? ==> NamedInOrder(Wanted(rows, attachments), r.value)
    ensures r.Some? ==> forall i, j :: 0 <= i < j < |r.value| ==> r.value[i].name != r.value[j].name
  {
    if |rows| + |attachments| > DOWNLOAD_MAX_FILES { return None; }
    if TotalSize(rows) + TotalSize(attachments) > DOWNLOAD_MAX_BYTES { return None; }
    hide NamedInOrder, ValidArcname, Wanted;
    r := NameAll(Wanted(rows, attachments));
    if r.Some? {
      NamedEntriesAreDistinct(Wanted(rows, attachments), r.value);
    }
  }

  lemma NothingNamed(wanted: seq<Entry>)
    requires wanted == []
    ensures NamedInOrder(wanted, []) && NamesOf([]) == {}
  {
  }

  lemma OneMoreName(entries: seq<Entry>, e: Entry)
    ensures NamesOf(entries + [e]) == NamesOf(entries) + {e.name}
  {
  }

  lemma StillNamed(wanted: seq<Entry>, entries: seq<Entry>, i: nat, e: Entry, j: nat)
    requires j < i < |wanted| && |entries| == i && NamedAt(wanted[..i], entries, j)
    ensures NamedAt(wanted[..i + 1], entries + [e], j)
  {
    assert (entries + [e])[..j] == entries[..j];
  }

  lemma OneMoreNamed(wanted: seq<Entry>, entries: seq<Entry>, i: nat, k: nat)
    requires i < |wanted| && NamedInOrder(wanted[..i], entries)
    requires FirstFree(NamesOf(entries), wanted[i].name, k) && ValidArcname(Candidate(wanted[i].name, k))
    ensures var entries' := entries + [Entry(Candidate(wanted[i].name, k), wanted[i].fileKey)];
      NamedInOrder(wanted[..i + 1], entries') && NamesOf(entries') == NamesOf(entries) + {Candidate(wanted[i].name, k)}
  {
    hide FirstFree, ValidArcname, NamesOf, Candidate;
    var e := Entry(Candidate(wanted[i].name, k), wanted[i].fileKey);
    OneMoreName(entries, e);
    assert (entries + [e])[..i] == entries;
    assert NamedAt(wanted[..i + 1], entries + [e], i);
    assert |entries| == i && forall j {:trigger entries[j]} :: 0 <= j < i ==> NamedAt(wanted[..i], entries, j);
    hide NamedAt;
    forall j {:trigger (entries + [e])[j]} | 0 <= j < i
      ensures NamedAt(wanted[..i + 1], entries + [e], j)
    {
      StillNamed(wanted, entries, i, e, j);
    }
  }
}
