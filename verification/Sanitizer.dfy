/** Bounding and cleaning a JSON value with one budget shared by the whole recursion. */
module Sanitizer {
  import opened Text

  /** `Scalar` stands for numbers, booleans and null; an object keeps the order of its keys. */
  datatype Json = Str(text: string) | Scalar(value: int) | List(items: seq<Json>) | Object(members: seq<Member>)

  datatype Member = Member(key: string, value: Json)

  const MAX_DEPTH: int := 20
  const MAX_NODES: nat := 2000
  const MAX_ITEMS: nat := 200

  // ---- What is measured ----

  /** Values and keys. */
  function Nodes(v: Json): (n: nat)
    ensures n >= 1
  {
    match v
    case List(items) => 1 + NodesIn(items)
    case Object(members) => 1 + NodesOf(members)
    case _ => 1
  }

  function NodesIn(items: seq<Json>): nat
  {
    if items == [] then 0 else NodesIn(items[..|items| - 1]) + Nodes(items[|items| - 1])
  }

  function NodesOf(members: seq<Member>): nat
  {
    if members == [] then 0 else NodesOf(members[..|members| - 1]) + 1 + Nodes(members[|members| - 1].value)
  }

  /** No value lies deeper than the given number of levels. */
  predicate Within(v: Json, levels: int)
  {
    && levels >= 0
    && match v
       case List(items) => forall i :: 0 <= i < |items| ==> Within(items[i], levels - 1)
       case Object(members) => forall i :: 0 <= i < |members| ==> Within(members[i].value, levels - 1)
       case _ => true
  }

  /** No container holds too many items. */
  predicate Narrow(v: Json)
  {
    match v
    case List(items) => |items| <= MAX_ITEMS && forall i :: 0 <= i < |items| ==> Narrow(items[i])
    case Object(members) => |members| <= MAX_ITEMS && forall i :: 0 <= i < |members| ==> Narrow(members[i].value)
    case _ => true
  }

  /** Cleaning makes no two keys of one object equal. */
  predicate Clear(v: Json, clean: string -> string)
  {
    match v
    case List(items) => forall i :: 0 <= i < |items| ==> Clear(items[i], clean)
    case Object(members) =>
      && (forall i, j :: 0 <= i < j < |members| ==> clean(members[i].key) != clean(members[j].key))
      && forall i :: 0 <= i < |members| ==> Clear(members[i].value, clean)
    case _ => true
  }

  /** The same shape with every string and every key cleaned. */
  function Cleaned(v: Json, clean: string -> string): Json
  {
    match v
    case Str(text) => Str(clean(text))
    case Scalar(_) => v
    case List(items) => List(seq(|items|, i requires 0 <= i < |items| => Cleaned(items[i], clean)))
    case Object(members) => Object(CleanedMembers(members, clean))
  }

  function CleanedMembers(members: seq<Member>, clean: string -> string): (r: seq<Member>)
    ensures |r| == |members|
    ensures forall i :: 0 <= i < |r| ==> r[i] == Member(clean(members[i].key), Cleaned(members[i].value, clean))
  {
    if members == [] then [] else
      var last := members[|members| - 1];
      CleanedMembers(members[..|members| - 1], clean) + [Member(clean(last.key), Cleaned(last.value, clean))]
  }

  // ---- What is accepted ----

  predicate Acceptable(v: Json, levels: int, clean: string -> string)
  {
    Within(v, levels) && Narrow(v) && Clear(v, clean)
  }

  predicate AllAcceptable(items: seq<Json>, levels: int, clean: string -> string)
  {
    forall i :: 0 <= i < |items| ==> Acceptable(items[i], levels, clean)
  }

  predicate DistinctKeys(members: seq<Member>, clean: string -> string)
  {
    forall i, j :: 0 <= i < j < |members| ==> clean(members[i].key) != clean(members[j].key)
  }

  predicate AllMembersAcceptable(members: seq<Member>, levels: int, clean: string -> string)
  {
    DistinctKeys(members, clean) && forall i :: 0 <= i < |members| ==> Acceptable(members[i].value, levels, clean)
  }

  lemma AcceptableList(items: seq<Json>, levels: int, clean: string -> string)
    ensures Acceptable(List(items), levels, clean) <==>
      levels >= 0 && |items| <= MAX_ITEMS && AllAcceptable(items, levels - 1, clean)
  {
  }

  lemma AcceptableObject(members: seq<Member>, levels: int, clean: string -> string)
    ensures Acceptable(Object(members), levels, clean) <==>
      levels >= 0 && |members| <= MAX_ITEMS && AllMembersAcceptable(members, levels - 1, clean)
  {
  }

  lemma {:induction false} FewerItemsFewerNodes(items: seq<Json>, i: nat)
    requires i <= |items|
    ensures NodesIn(items[..i]) <= NodesIn(items)
  {
    if i < |items| {
      FewerItemsFewerNodes(items[..|items| - 1], i);
      assert items[..|items| - 1][..i] == items[..i];
    } else {
      assert items[..i] == items;
    }
  }

  lemma {:induction false} FewerMembersFewerNodes(members: seq<Member>, i: nat)
    requires i <= |members|
    ensures NodesOf(members[..i]) <= NodesOf(members)
  {
    if i < |members| {
      FewerMembersFewerNodes(members[..|members| - 1], i);
      assert members[..|members| - 1][..i] == members[..i];
    } else {
      assert members[..i] == members;
    }
  }

  lemma OneMoreItem(items: seq<Json>, i: nat)
    requires i < |items|
    ensures NodesIn(items[..i + 1]) == NodesIn(items[..i]) + Nodes(items[i]) <= NodesIn(items)
  {
    FewerItemsFewerNodes(items, i + 1);
    assert items[..i + 1][..i] == items[..i];
  }

  lemma OneMoreMember(members: seq<Member>, i: nat)
    requires i < |members|
    ensures NodesOf(members[..i + 1]) == NodesOf(members[..i]) + 1 + Nodes(members[i].value) <= NodesOf(members)
  {
    FewerMembersFewerNodes(members, i + 1);
    assert members[..i + 1][..i] == members[..i];
  }

  // ---- The recursion ----

  class Budget {
    var used: nat

    constructor ()
      ensures used == 0
    {
      used := 0;
    }

    /** `_consume_json_budget` */
    method Consume() returns (ok: bool)
      modifies this
      ensures used == old(used) + 1 && (ok <==> used <= MAX_NODES)
    {
      used := used + 1;
      ok := used <= MAX_NODES;
    }

    /** `_sanitize_json_value`: what it accepts, what it spends, and what it returns. */
    method Sanitize(v: Json, depth: int, clean: string -> string) returns (r: Option<Json>)
      modifies this
      ensures r.Some? <==> Acceptable(v, MAX_DEPTH - depth, clean) && old(used) + Nodes(v) <= MAX_NODES
      ensures r.Some? ==> used == old(used) + Nodes(v) && r.value == Cleaned(v, clean)
      decreases v, 1
    {
      if depth > MAX_DEPTH { return None; }
      var ok := Consume();
      if !ok { return None; }
      match v
      case Str(text) => r := Some(Str(clean(text)));
      case Scalar(_) => r := Some(v);
      case List(items) =>
        AcceptableList(items, MAX_DEPTH - depth, clean);
        if |items| > MAX_ITEMS { return None; }
        r := SanitizeItems(items, depth + 1, clean);
      case Object(members) =>
        AcceptableObject(members, MAX_DEPTH - depth, clean);
        if |members| > MAX_ITEMS { return None; }
        r := SanitizeMembers(members, depth + 1, clean);
    }

    method SanitizeItems(items: seq<Json>, depth: int, clean: string -> string) returns (r: Option<Json>)
      requires used <= MAX_NODES
      modifies this
      ensures r.Some? <==> AllAcceptable(items, MAX_DEPTH - depth, clean) && old(used) + NodesIn(items) <= MAX_NODES
      ensures r.Some? ==> used == old(used) + NodesIn(items) && r.value == Cleaned(List(items), clean)
      decreases items, 0
    {
      hide Acceptable, Cleaned, NodesIn, Nodes;
      var cleaned := [];
      NoItems();
      for i := 0 to |items|
        invariant |cleaned| == i && used == old(used) + NodesIn(items[..i]) <= MAX_NODES
        invariant forall j :: 0 <= j < i ==>
          Acceptable(items[j], MAX_DEPTH - depth, clean) && cleaned[j] == Cleaned(items[j], clean)
      {
        OneMoreItem(items, i);
        var item := Sanitize(items[i], depth, clean);
        if item.None? { return None; }
        cleaned := cleaned + [item.value];
      }
      assert items[..|items|] == items;
      CleanedList(items, cleaned, clean);
      r := Some(List(cleaned));
    }

    method SanitizeMembers(members: seq<Member>, depth: int, clean: string -> string) returns (r: Option<Json>)
      requires used <= MAX_NODES
      modifies this
      ensures r.Some? <==>
        AllMembersAcceptable(members, MAX_DEPTH - depth, clean) && old(used) + NodesOf(members) <= MAX_NODES
      ensures r.Some? ==> used == old(used) + NodesOf(members) && r.value == Cleaned(Object(members), clean)
      decreases members, 0
    {
      hide Acceptable, Cleaned, NodesOf, Nodes;
      var cleaned: seq<Member> := [];
      var keys: set<string> := {};
      NoItems();
      for i := 0 to |members|
        invariant |cleaned| == i && used == old(used) + NodesOf(members[..i]) <= MAX_NODES
        invariant keys == CleanKeys(members[..i], clean) && DistinctKeys(members[..i], clean)
        invariant forall j :: 0 <= j < i ==> Acceptable(members[j].value, MAX_DEPTH - depth, clean)
        invariant forall j :: 0 <= j < i ==>
          cleaned[j] == Member(clean(members[j].key), Cleaned(members[j].value, clean))
      {
        OneMoreMember(members, i);
        OneMoreKey(members, i, clean);
        var ok := Consume();
        if !ok { return None; }
        var key := clean(members[i].key);
        if key in keys { return None; }
        var value := Sanitize(members[i].value, depth, clean);
        if value.None? { return None; }
        keys := keys + {key};
        cleaned := cleaned + [Member(key, value.value)];
      }
      assert members[..|members|] == members;
      CleanedObject(members, cleaned, clean);
      r := Some(Object(cleaned));
    }
  }

  function CleanKeys(members: seq<Member>, clean: string -> string): set<string>
  {
    set m | m in members :: clean(m.key)
  }

  /** One more key collides exactly when its cleaned form is there already. */
  lemma OneMoreKey(members: seq<Member>, i: nat, clean: string -> string)
    requires i < |members| && DistinctKeys(members[..i], clean)
    ensures CleanKeys(members[..i + 1], clean) == CleanKeys(members[..i], clean) + {clean(members[i].key)}
    ensures DistinctKeys(members[..i + 1], clean) <==> clean(members[i].key) !in CleanKeys(members[..i], clean)
    ensures DistinctKeys(members, clean) ==> DistinctKeys(members[..i + 1], clean)
  {
  }

  lemma NoItems()
    ensures NodesIn([]) == 0 && NodesOf([]) == 0
  {
  }

  lemma CleanedList(items: seq<Json>, cleaned: seq<Json>, clean: string -> string)
    requires |cleaned| == |items| && forall j :: 0 <= j < |items| ==> cleaned[j] == Cleaned(items[j], clean)
    ensures Cleaned(List(items), clean) == List(cleaned)
  {
  }

  lemma CleanedObject(members: seq<Member>, cleaned: seq<Member>, clean: string -> string)
    requires |cleaned| == |members|
    requires forall j :: 0 <= j < |members| ==>
      cleaned[j] == Member(clean(members[j].key), Cleaned(members[j].value, clean))
    ensures Cleaned(Object(members), clean) == Object(cleaned)
  {
  }

  /** `strip_null_chars` */
  method StripNullChars(v: Json, clean: string -> string) returns (r: Option<Json>)
    ensures r.Some? <==> Within(v, MAX_DEPTH) && Narrow(v) && Clear(v, clean) && Nodes(v) <= MAX_NODES
    ensures r.Some? ==> r.value == Cleaned(v, clean)
  {
    var budget := new Budget();
    r := budget.Sanitize(v, 0, clean);
  }

  // ---- Cleaning keeps the shape ----

  lemma {:induction false} NodesKept(v: Json, clean: string -> string)
    ensures Nodes(Cleaned(v, clean)) == Nodes(v)
    decreases v, 1
  {
    match v
    case Str(_) =>
    case Scalar(_) =>
    case List(items) =>
      NodesInKept(items, Cleaned(v, clean).items, clean);
    case Object(members) =>
      NodesOfKept(members, clean);
  }

  lemma {:induction false} NodesInKept(items: seq<Json>, cleaned: seq<Json>, clean: string -> string)
    requires |cleaned| == |items| && forall i :: 0 <= i < |items| ==> cleaned[i] == Cleaned(items[i], clean)
    ensures NodesIn(cleaned) == NodesIn(items)
    decreases items, 0
  {
    if items != [] {
      NodesInKept(items[..|items| - 1], cleaned[..|items| - 1], clean);
      NodesKept(items[|items| - 1], clean);
    }
  }

  lemma {:induction false} NodesOfKept(members: seq<Member>, clean: string -> string)
    ensures NodesOf(CleanedMembers(members, clean)) == NodesOf(members)
    decreases members, 0
  {
    if members != [] {
      NodesOfKept(members[..|members| - 1], clean);
      NodesKept(members[|members| - 1].value, clean);
      var r := CleanedMembers(members, clean);
      assert r[..|members| - 1] == CleanedMembers(members[..|members| - 1], clean);
    }
  }

  lemma {:induction false} ShapeKept(v: Json, levels: int, clean: string -> string)
    ensures Within(Cleaned(v, clean), levels) <==> Within(v, levels)
    ensures Narrow(Cleaned(v, clean)) <==> Narrow(v)
  {
    match v
    case Str(_) =>
    case Scalar(_) =>
    case List(items) =>
      var cleaned := Cleaned(v, clean).items;
      forall i | 0 <= i < |items|
        ensures Within(cleaned[i], levels - 1) <==> Within(items[i], levels - 1)
        ensures Narrow(cleaned[i]) <==> Narrow(items[i])
      {
        ShapeKept(items[i], levels - 1, clean);
      }
    case Object(members) =>
      forall i | 0 <= i < |members|
        ensures Within(Cleaned(members[i].value, clean), levels - 1) <==> Within(members[i].value, levels - 1)
        ensures Narrow(Cleaned(members[i].value, clean)) <==> Narrow(members[i].value)
      {
        ShapeKept(members[i].value, levels - 1, clean);
      }
  }

  // ---- Sanitizing again ----

  /** Cleaning changes no text and no key. */
  predicate Fixed(v: Json, clean: string -> string)
  {
    match v
    case Str(text) => clean(text) == text
    case Scalar(_) => true
    case List(items) => forall i :: 0 <= i < |items| ==> Fixed(items[i], clean)
    case Object(members) =>
      forall i :: 0 <= i < |members| ==> clean(members[i].key) == members[i].key && Fixed(members[i].value, clean)
  }

  lemma {:induction false} FixedIffUnchanged(v: Json, clean: string -> string)
    ensures Fixed(v, clean) <==> Cleaned(v, clean) == v
  {
    match v
    case Str(_) =>
    case Scalar(_) =>
    case List(items) =>
      var cleaned := Cleaned(v, clean).items;
      forall i | 0 <= i < |items|
        ensures cleaned[i] == items[i] <==> Fixed(items[i], clean)
      {
        FixedIffUnchanged(items[i], clean);
      }
      assert cleaned == items <==> forall i :: 0 <= i < |items| ==> cleaned[i] == items[i];
    case Object(members) =>
      var cleaned := CleanedMembers(members, clean);
      forall i | 0 <= i < |members|
        ensures cleaned[i] == members[i] <==> clean(members[i].key) == members[i].key && Fixed(members[i].value, clean)
      {
        FixedIffUnchanged(members[i].value, clean);
      }
      assert cleaned == members <==> forall i :: 0 <= i < |members| ==> cleaned[i] == members[i];
  }

  /**
   A sanitized value passes again exactly when cleaning its keys once more makes no two of one object equal, and comes
   back unchanged exactly when cleaning changes none of its texts and keys.
   */
  lemma SanitizedPassesAgain(v: Json, clean: string -> string)
    requires Acceptable(v, MAX_DEPTH, clean) && Nodes(v) <= MAX_NODES
    ensures var again := Cleaned(v, clean);
      && (Acceptable(again, MAX_DEPTH, clean) && Nodes(again) <= MAX_NODES <==> Clear(again, clean))
      && (Cleaned(again, clean) == again <==> Fixed(again, clean))
  {
    NodesKept(v, clean);
    ShapeKept(v, MAX_DEPTH, clean);
    FixedIffUnchanged(Cleaned(v, clean), clean);
  }

  // ---- The cleaner itself ----

  /** The characters `_DANGEROUS_CHARS_RE` strips. */
  predicate Dangerous(c: char)
  {
    var n := c as int;
    || 0x00 <= n <= 0x08 || n == 0x0B || n == 0x0C || 0x0E <= n <= 0x1F || 0x7F <= n <= 0x9F
    || 0x0300 <= n <= 0x036F || 0x1DC0 <= n <= 0x1DFF || 0x20D0 <= n <= 0x20FF || 0xFE20 <= n <= 0xFE2F
    || 0x200B <= n <= 0x200F || 0x2028 <= n <= 0x2029 || 0x202A <= n <= 0x202E || 0x2060 <= n <= 0x2064
    || 0x206A <= n <= 0x206F || n == 0xFEFF || 0xFFF9 <= n <= 0xFFFB
  }

  function Strip(s: string): (r: string)
    ensures forall c :: c in r <==> c in s && !Dangerous(c)
  {
    if s == "" then "" else (if Dangerous(s[0]) then "" else [s[0]]) + Strip(s[1..])
  }

  /** Ordinary text, line breaks and precomposed letters included, is never stripped. */
  lemma OrdinaryTextIsKept(s: string)
    requires forall c :: c in s ==> c == '\t' || c == '\n' || c == '\r' || ' ' <= c <= '~' || 0xA0 <= c as int < 0x300
    ensures Strip(s) == s
  {
    StripKeepsHarmless(s);
  }

  /** `clean_text`: strip, then normalize; the normalization form C is a parameter. */
  function CleanText(s: string, nfc: string -> string): string
  {
    nfc(Strip(s))
  }

  lemma {:induction false} StripKeepsHarmless(s: string)
    ensures Strip(s) == s <==> forall c :: c in s ==> !Dangerous(c)
  {
    if s != "" {
      StripKeepsHarmless(s[1..]);
      assert s == [s[0]] + s[1..];
      assert Dangerous(s[0]) ==> s[0] !in Strip(s) && s[0] in s;
    }
  }

  /** A cleaned text stays as it is when normalizing brought no stripped character back and is settled. */
  lemma CleanedTextIsFixed(s: string, nfc: string -> string)
    requires nfc(CleanText(s, nfc)) == CleanText(s, nfc)
    requires forall c :: c in CleanText(s, nfc) ==> !Dangerous(c)
    ensures CleanText(CleanText(s, nfc), nfc) == CleanText(s, nfc)
  {
    StripKeepsHarmless(CleanText(s, nfc));
  }

  /** FORKING (U+2ADC), which normalizes to NONFORKING (U+2ADD) and a stripped combining solidus (U+0338). */
  const FORKING := "\U{2ADC}"
  const NONFORKING := "\U{2ADD}"
  const SOLIDUS := "\U{0338}"

  lemma ForkingTexts()
    ensures Strip(FORKING) == FORKING && Strip(NONFORKING) == NONFORKING && Strip(NONFORKING + SOLIDUS) == NONFORKING
    ensures NONFORKING + SOLIDUS != NONFORKING
  {
    var both := NONFORKING + SOLIDUS;
    assert both[0] == NONFORKING[0] && both[1..] == SOLIDUS;
    assert SOLIDUS[1..] == "" && NONFORKING[1..] == "" && FORKING[1..] == "" && Strip("") == "";
    assert Strip(SOLIDUS) == "" && [NONFORKING[0]] == NONFORKING;
  }

  /** Keys that cleaning keeps apart once, but not twice. */
  lemma TwiceCleanedKeysCollide(a: string, b: string, clean: string -> string)
    requires clean(a) != clean(b) && clean(clean(a)) == clean(clean(b))
    ensures var v := Object([Member(a, Scalar(1)), Member(b, Scalar(2))]);
      && Acceptable(v, MAX_DEPTH, clean) && Nodes(v) <= MAX_NODES
      && !Acceptable(Cleaned(v, clean), MAX_DEPTH, clean)
  {
    var members := [Member(a, Scalar(1)), Member(b, Scalar(2))];
    assert NodesOf(members) == NodesOf(members[..1]) + 2 && NodesOf(members[..1]) == NodesOf(members[..1][..0]) + 2;
    var again := CleanedMembers(members, clean);
    assert again[0].key == clean(a) && again[1].key == clean(b);
    AcceptableObject(again, MAX_DEPTH, clean);
  }

  /** So an object can be accepted although its sanitized form is refused. */
  lemma SanitizedCanBeRefused(nfc: string -> string)
    requires nfc(FORKING) == NONFORKING + SOLIDUS && nfc(NONFORKING) == NONFORKING
    ensures var clean := (s: string) => CleanText(s, nfc);
      var v := Object([Member(FORKING, Scalar(1)), Member(NONFORKING, Scalar(2))]);
      && Acceptable(v, MAX_DEPTH, clean) && Nodes(v) <= MAX_NODES
      && !Acceptable(Cleaned(v, clean), MAX_DEPTH, clean)
  {
    var clean := (s: string) => CleanText(s, nfc);
    ForkingTexts();
    hide Acceptable, Cleaned, Nodes, Strip;
    TwiceCleanedKeysCollide(FORKING, NONFORKING, clean);
  }
}
