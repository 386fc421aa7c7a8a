// JSON values, `JSON.stringify`, and the key-sorting printer `canonical` used as an equality test.
module Json {
  import opened Prelude
  import opened Sorting
  import opened Merge

  /** The text ECMA-262 prints for a finite number other than -0; two such numbers print alike only when equal. */
  predicate IsNumberText(s: string) {
    s != "" && (forall c | c in s :: NumberChar(c))
  }

  predicate NumberChar(c: char) {
    '0' <= c <= '9' || c == '-' || c == '+' || c == '.' || c == 'e'
  }

  type NumberText = s: string | IsNumberText(s) witness "0"

  /** A parsed value. Members keep their insertion order; `Overflow` is a number like 1e999, read as an infinity. */
  datatype Json =
    | Null
    | Bool(b: bool)
    | Number(text: NumberText)
    | NegativeZero
    | Overflow(positive: bool)
    | String(s: string)
    | Array(items: seq<Json>)
    | Object(members: seq<Member>)

  datatype Member = Member(key: string, value: Json)

  function MemberKey(): Member -> string {
    (m: Member) => m.key
  }

  /** `JSON.parse` gives each object distinct keys. */
  ghost predicate WellFormed(v: Json)
    decreases v
  {
    match v
    case Array(items) => forall i :: 0 <= i < |items| ==> WellFormed(items[i])
    case Object(members) =>
      DistinctKeys(members, MemberKey()) && forall i :: 0 <= i < |members| ==> WellFormed(members[i].value)
    case _ => true
  }

  /** `v[key]` of an object's own keys. */
  function Get(entry: Json, key: string): Option<Json> {
    if !entry.Object? then None
    else match Find(entry.members, MemberKey(), key)
      case Some(m) => Some(m.value)
      case None => None
  }

  function Str(entry: Json, key: string): Option<string> {
    match Get(entry, key)
    case Some(String(s)) => Some(s)
    case _ => None
  }

  lemma GetWellFormed(v: Json, key: string)
    requires WellFormed(v)
    ensures Get(v, key).Some? ==> WellFormed(Get(v, key).value)
  {
    if v.Object? { FindSound(v.members, MemberKey(), key); }
  }

  /** The object has this member. */
  ghost predicate Holds(v: Json, key: string, value: Json) {
    v.Object? && Member(key, value) in v.members
  }

  ghost predicate Lacks(v: Json, key: string) {
    forall value :: !Holds(v, key, value)
  }

  lemma GetHolds(v: Json, key: string, value: Json)
    requires WellFormed(v)
    ensures Get(v, key) == Some(value) <==> Holds(v, key, value)
  {
    if v.Object? {
      FindSound(v.members, MemberKey(), key);
      if Holds(v, key, value) { FindDistinct(v.members, MemberKey(), Member(key, value)); }
    }
  }

  /** What reading a member of a parsed value gives, in terms of the members it has. */
  lemma GetMeans(v: Json, key: string)
    requires WellFormed(v)
    ensures Get(v, key).None? <==> Lacks(v, key)
    ensures Get(v, key).Some? ==> Holds(v, key, Get(v, key).value)
    ensures forall value :: Get(v, key) == Some(value) <==> Holds(v, key, value)
    ensures forall text :: Str(v, key) == Some(text) <==> Holds(v, key, String(text))
  {
    hide Holds, WellFormed;
    forall value ensures Get(v, key) == Some(value) <==> Holds(v, key, value) {
      GetHolds(v, key, value);
    }
  }

  // ---- Printing ----

  function HexDigit(n: int): char
    requires 0 <= n < 16
  {
    if n < 10 then (n + '0' as int) as char else (n - 10 + 'a' as int) as char
  }

  /** One character inside a JSON string. */
  function EscapeChar(c: char): (r: string)
    ensures r != "" && r[0] != '"'
  {
    var n := c as int;
    if c == '"' then "\\\"" else if c == '\\' then "\\\\"
    else if n == 8 then "\\b" else if n == 9 then "\\t" else if n == 10 then "\\n"
    else if n == 12 then "\\f" else if n == 13 then "\\r"
    else if n < 32 then "\\u00" + [HexDigit(n / 16), HexDigit(n % 16)]
    else [c]
  }

  function Escape(s: string): string {
    if s == "" then "" else EscapeChar(s[0]) + Escape(s[1..])
  }

  function Quoted(s: string): string {
    "\"" + Escape(s) + "\""
  }

  function ByKey(): (Member, Member) -> bool {
    (a: Member, b: Member) => StrLeq(a.key, b.key)
  }

  lemma SortedMembers(members: seq<Member>)
    ensures forall m | m in Sort(ByKey(), members) :: m in members
  {
    forall m | m in Sort(ByKey(), members) ensures m in members {
      assert m in multiset(Sort(ByKey(), members));
    }
  }

  /** `canonical`: as `JSON.stringify`, with every object's keys sorted; an infinity prints as null. */
  function Canonical(v: Json): string
    decreases v, 1
  {
    match v
    case Null => "null"
    case Bool(b) => if b then "true" else "false"
    case Number(text) => text
    case NegativeZero => "0"
    case Overflow(_) => "null"
    case String(s) => Quoted(s)
    case Array(items) => "[" + JoinCommas(CanonicalItems(items)) + "]"
    case Object(members) =>
      SortedMembers(members);
      "{" + JoinCommas(CanonicalMembers(v, Sort(ByKey(), members))) + "}"
  }

  function CanonicalItems(items: seq<Json>): (r: seq<string>)
    ensures |r| == |items| && forall i :: 0 <= i < |items| ==> r[i] == Canonical(items[i])
    decreases items, 0
  {
    if items == [] then [] else [Canonical(items[0])] + CanonicalItems(items[1..])
  }

  /** The members of `v` in the order given, each printed as a key and its canonical value. */
  function CanonicalMembers(v: Json, members: seq<Member>): (r: seq<string>)
    requires v.Object? && forall m | m in members :: m in v.members
    ensures |r| == |members|
    ensures forall i :: 0 <= i < |members| ==>
              members[i] in v.members && r[i] == Quoted(members[i].key) + ":" + Canonical(members[i].value)
    decreases v, 0, |members|
  {
    if members == [] then []
    else
      assert members[0] in v.members && forall m | m in members[1..] :: m in members;
      [Quoted(members[0].key) + ":" + Canonical(members[0].value)] + CanonicalMembers(v, members[1..])
  }

  // ---- Trees: values as their text tells them apart ----

  /** A value without -0 or infinities whose members stand in the order they are printed. */
  datatype Tree =
    | NullLeaf
    | BoolLeaf(b: bool)
    | NumberLeaf(text: NumberText)
    | StringLeaf(s: string)
    | List(items: seq<Tree>)
    | Record(fields: seq<Field>)

  datatype Field = Field(key: string, value: Tree)

  function PrintAll(items: seq<Tree>): (r: seq<string>)
    ensures |r| == |items| && forall i :: 0 <= i < |items| ==> r[i] == Print(items[i])
    decreases items, 0
  {
    if items == [] then [] else [Print(items[0])] + PrintAll(items[1..])
  }

  function PrintFields(fields: seq<Field>): (r: seq<string>)
    ensures |r| == |fields|
    ensures forall i :: 0 <= i < |fields| ==> r[i] == Quoted(fields[i].key) + ":" + Print(fields[i].value)
    decreases fields, 0
  {
    if fields == [] then [] else [Quoted(fields[0].key) + ":" + Print(fields[0].value)] + PrintFields(fields[1..])
  }

  /** `JSON.stringify`. */
  function Print(t: Tree): string
    decreases t, 1
  {
    match t
    case NullLeaf => "null"
    case BoolLeaf(b) => if b then "true" else "false"
    case NumberLeaf(text) => text
    case StringLeaf(s) => Quoted(s)
    case List(items) => "[" + JoinCommas(PrintAll(items)) + "]"
    case Record(fields) => "{" + JoinCommas(PrintFields(fields)) + "}"
  }

  function FieldKey(): Field -> string {
    (f: Field) => f.key
  }

  function ByFieldKey(): (Field, Field) -> bool {
    (a: Field, b: Field) => StrLeq(a.key, b.key)
  }

  function NormalFields(members: seq<Member>): (r: seq<Field>)
    ensures |r| == |members|
    ensures forall i :: 0 <= i < |members| ==> r[i] == Field(members[i].key, Normal(members[i].value))
    decreases members, 0
  {
    if members == [] then [] else [Field(members[0].key, Normal(members[0].value))] + NormalFields(members[1..])
  }

  function NormalItems(items: seq<Json>): (r: seq<Tree>)
    ensures |r| == |items| && forall i :: 0 <= i < |items| ==> r[i] == Normal(items[i])
    decreases items, 0
  {
    if items == [] then [] else [Normal(items[0])] + NormalItems(items[1..])
  }

  /** The value with its keys sorted throughout, -0 read as 0 and an infinity as null. */
  function Normal(v: Json): Tree
    decreases v, 1
  {
    match v
    case Null => NullLeaf
    case Bool(b) => BoolLeaf(b)
    case Number(text) => NumberLeaf(text)
    case NegativeZero => NumberLeaf("0")
    case Overflow(_) => NullLeaf
    case String(s) => StringLeaf(s)
    case Array(items) => List(NormalItems(items))
    case Object(members) => Record(Sort(ByFieldKey(), NormalFields(members)))
  }

  // ---- The printer is injective ----

  lemma CodeUnique(c: char, d: char, x: string, y: string)
    requires EscapeChar(c) + x == EscapeChar(d) + y
    ensures c == d && x == y
  {
    var p, q := EscapeChar(c) + x, EscapeChar(d) + y;
    assert p[0] == EscapeChar(c)[0] && q[0] == EscapeChar(d)[0];
    assert |EscapeChar(c)| > 1 ==> p[1] == EscapeChar(c)[1];
    assert |EscapeChar(d)| > 1 ==> q[1] == EscapeChar(d)[1];
    if |EscapeChar(c)| > 2 && |EscapeChar(d)| > 2 {
      assert p[4] == EscapeChar(c)[4] && p[5] == EscapeChar(c)[5];
      assert q[4] == EscapeChar(d)[4] && q[5] == EscapeChar(d)[5];
      HexUnique(c as int / 16, d as int / 16);
      HexUnique(c as int % 16, d as int % 16);
    }
    assert c == d;
    assert x == p[|EscapeChar(c)|..] && y == q[|EscapeChar(d)|..];
  }

  lemma HexUnique(m: int, n: int)
    requires 0 <= m < 16 && 0 <= n < 16 && HexDigit(m) == HexDigit(n)
    ensures m == n
  {
  }

  lemma {:induction false} EscapeUnique(a: string, b: string, s: string, t: string)
    requires Escape(a) + "\"" + s == Escape(b) + "\"" + t
    ensures a == b && s == t
  {
    hide EscapeChar;
    var p, q := Escape(a) + "\"" + s, Escape(b) + "\"" + t;
    assert p[0] == (if a == "" then '"' else EscapeChar(a[0])[0]);
    assert q[0] == (if b == "" then '"' else EscapeChar(b[0])[0]);
    if a == "" {
      assert s == p[1..] && t == q[1..];
    } else {
      var x, y := Escape(a[1..]) + "\"" + s, Escape(b[1..]) + "\"" + t;
      assert p == EscapeChar(a[0]) + x && q == EscapeChar(b[0]) + y;
      CodeUnique(a[0], b[0], x, y);
      EscapeUnique(a[1..], b[1..], s, t);
      assert a == [a[0]] + a[1..] && b == [b[0]] + b[1..];
    }
  }

  lemma QuotedUnique(a: string, b: string, s: string, t: string)
    requires Quoted(a) + s == Quoted(b) + t
    ensures a == b && s == t
  {
    var x, y := Escape(a) + "\"" + s, Escape(b) + "\"" + t;
    assert Quoted(a) + s == ['"'] + x && Quoted(b) + t == ['"'] + y;
    assert (['"'] + x)[1..] == x && (['"'] + y)[1..] == y;
    EscapeUnique(a, b, s, t);
  }

  /** What may follow a value inside a larger text. */
  predicate Ends(s: string) {
    s == "" || s[0] == ',' || s[0] == ']' || s[0] == '}'
  }

  lemma {:induction false} NumberUnique(a: string, b: string, s: string, t: string)
    requires (forall c | c in a :: NumberChar(c)) && (forall c | c in b :: NumberChar(c))
    requires Ends(s) && Ends(t) && a + s == b + t
    ensures a == b && s == t
  {
    var p, q := a + s, b + t;
    if a == "" && b == "" {
      assert p == s && q == t;
    } else {
      assert a != "" ==> p[0] == a[0] && a[0] in a;
      assert b != "" ==> q[0] == b[0] && b[0] in b;
      assert a == "" ==> p == s;
      assert b == "" ==> q == t;
      assert p[1..] == a[1..] + s && q[1..] == b[1..] + t;
      NumberUnique(a[1..], b[1..], s, t);
      assert a == [a[0]] + a[1..] && b == [b[0]] + b[1..];
    }
  }

  /** The first character tells the kind of value. */
  lemma FirstChar(t: Tree, s: string)
    ensures Print(t) != "" && (Print(t) + s)[0] == Print(t)[0] && Print(t)[0] !in {',', ']', '}'}
    ensures t.NullLeaf? <==> Print(t)[0] == 'n'
    ensures t.BoolLeaf? <==> Print(t)[0] == 't' || Print(t)[0] == 'f'
    ensures t.NumberLeaf? <==> NumberChar(Print(t)[0])
    ensures t.StringLeaf? <==> Print(t)[0] == '"'
    ensures t.List? <==> Print(t)[0] == '['
    ensures t.Record? <==> Print(t)[0] == '{'
  {
    if t.NumberLeaf? {
      assert t.text[0] in t.text;
    }
  }

  lemma JoinCons(parts: seq<string>, s: string)
    requires parts != []
    ensures JoinCommas(parts) + s
         == parts[0] + (if |parts| == 1 then s else "," + (JoinCommas(parts[1..]) + s))
  {
  }

  /** Two trees that start the same text are the same tree: the printer is injective. */
  lemma {:induction false} PrintUnique(a: Tree, b: Tree, s: string, t: string)
    requires Print(a) + s == Print(b) + t && Ends(s) && Ends(t)
    ensures a == b && s == t
    decreases a, 1
  {
    hide Print, Quoted, ItemsText, FieldsText, NumberChar;
    FirstChar(a, s);
    FirstChar(b, t);
    PrintForms(a, s);
    PrintForms(b, t);
    match a
    case NullLeaf => Tail("null", s, t);
    case BoolLeaf(x) => Tail(Print(a), s, t);
    case NumberLeaf(x) => NumberUnique(x, b.text, s, t);
    case StringLeaf(x) => QuotedUnique(x, b.s, s, t);
    case List(items) =>
      Tail("[", ItemsText(items, s), ItemsText(b.items, t));
      ItemsUnique(items, b.items, s, t);
    case Record(fields) =>
      Tail("{", FieldsText(fields, s), FieldsText(b.fields, t));
      FieldsUnique(fields, b.fields, s, t);
  }

  lemma PrintForms(t: Tree, s: string)
    ensures t.NullLeaf? ==> Print(t) == "null"
    ensures t.BoolLeaf? ==> Print(t) == (if t.b then "true" else "false") && (t.b <==> Print(t)[0] == 't')
    ensures t.NumberLeaf? ==> Print(t) == t.text
    ensures t.StringLeaf? ==> Print(t) == Quoted(t.s)
    ensures t.List? ==> Print(t) + s == "[" + ItemsText(t.items, s)
    ensures t.Record? ==> Print(t) + s == "{" + FieldsText(t.fields, s)
  {
    if t.List? {
      Regroup("[", JoinCommas(PrintAll(t.items)), "]", s);
    } else if t.Record? {
      Regroup("{", JoinCommas(PrintFields(t.fields)), "}", s);
    }
  }

  lemma Regroup(a: string, b: string, c: string, d: string)
    ensures a + b + c + d == a + (b + (c + d))
  {
  }

  lemma Tail(head: string, x: string, y: string)
    requires head + x == head + y
    ensures x == y
  {
    assert x == (head + x)[|head|..] && y == (head + y)[|head|..];
  }

  /** A list's text after its opening bracket. */
  function ItemsText(items: seq<Tree>, s: string): string {
    JoinCommas(PrintAll(items)) + ("]" + s)
  }

  function FieldsText(fields: seq<Field>, s: string): string {
    JoinCommas(PrintFields(fields)) + ("}" + s)
  }

  lemma ItemsTextCut(items: seq<Tree>, s: string)
    ensures items == [] ==> ItemsText(items, s) == "]" + s
    ensures items != [] ==>
              var rest := if |items| == 1 then "]" + s else "," + ItemsText(items[1..], s);
              ItemsText(items, s) == Print(items[0]) + rest && Ends(rest)
  {
    hide Print;
    if items != [] {
      JoinCons(PrintAll(items), "]" + s);
      assert PrintAll(items)[1..] == PrintAll(items[1..]);
    }
  }

  lemma FieldsTextCut(fields: seq<Field>, s: string)
    ensures fields == [] ==> FieldsText(fields, s) == "}" + s
    ensures fields != [] ==>
              var rest := if |fields| == 1 then "}" + s else "," + FieldsText(fields[1..], s);
              FieldsText(fields, s) == Quoted(fields[0].key) + (":" + (Print(fields[0].value) + rest)) && Ends(rest)
  {
    hide Print, Quoted;
    if fields != [] {
      JoinCons(PrintFields(fields), "}" + s);
      assert PrintFields(fields)[1..] == PrintFields(fields[1..]);
    }
  }

  lemma {:induction false} ItemsUnique(a: seq<Tree>, b: seq<Tree>, s: string, t: string)
    requires ItemsText(a, s) == ItemsText(b, t)
    ensures a == b && s == t
    decreases a, 0
  {
    hide Print, ItemsText;
    ItemsTextCut(a, s);
    ItemsTextCut(b, t);
    if a != [] { FirstChar(a[0], if |a| == 1 then "]" + s else "," + ItemsText(a[1..], s)); }
    if b != [] { FirstChar(b[0], if |b| == 1 then "]" + t else "," + ItemsText(b[1..], t)); }
    if a == [] || b == [] {
      assert ItemsText(a, s)[0] == ItemsText(b, t)[0];
      Tail("]", s, t);
    } else {
      var u := if |a| == 1 then "]" + s else "," + ItemsText(a[1..], s);
      var v := if |b| == 1 then "]" + t else "," + ItemsText(b[1..], t);
      PrintUnique(a[0], b[0], u, v);
      assert u[0] == v[0];
      if |a| == 1 {
        Tail("]", s, t);
      } else {
        Tail(",", ItemsText(a[1..], s), ItemsText(b[1..], t));
        ItemsUnique(a[1..], b[1..], s, t);
      }
      assert a == [a[0]] + a[1..] && b == [b[0]] + b[1..];
    }
  }

  lemma {:induction false} FieldsUnique(a: seq<Field>, b: seq<Field>, s: string, t: string)
    requires FieldsText(a, s) == FieldsText(b, t)
    ensures a == b && s == t
    decreases a, 0
  {
    hide Print, FieldsText, Escape;
    FieldsTextCut(a, s);
    FieldsTextCut(b, t);
    if a == [] || b == [] {
      assert FieldsText(a, s)[0] == (if a == [] then '}' else '"');
      assert FieldsText(b, t)[0] == (if b == [] then '}' else '"');
      Tail("}", s, t);
    } else {
      var u := if |a| == 1 then "}" + s else "," + FieldsText(a[1..], s);
      var v := if |b| == 1 then "}" + t else "," + FieldsText(b[1..], t);
      var x, y := Print(a[0].value) + u, Print(b[0].value) + v;
      QuotedUnique(a[0].key, b[0].key, ":" + x, ":" + y);
      Tail(":", x, y);
      PrintUnique(a[0].value, b[0].value, u, v);
      assert u[0] == v[0];
      if |a| == 1 {
        Tail("}", s, t);
      } else {
        Tail(",", FieldsText(a[1..], s), FieldsText(b[1..], t));
        FieldsUnique(a[1..], b[1..], s, t);
      }
      assert a == [a[0]] + a[1..] && b == [b[0]] + b[1..];
    }
  }

  lemma PrintInjective(a: Tree, b: Tree)
    requires Print(a) == Print(b)
    ensures a == b
  {
    assert Print(a) + "" == Print(a) && Print(b) + "" == Print(b);
    PrintUnique(a, b, "", "");
  }
}
