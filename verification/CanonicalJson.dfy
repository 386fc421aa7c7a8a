// What equal canonical texts mean: the same value with its object keys reordered.
module CanonicalJson {
  import opened Prelude
  import opened Sorting
  import opened Merge
  import opened Json

  /** `canonical` prints the key-sorted tree, so it is a function of that tree. */
  lemma {:induction false} CanonicalIsPrint(v: Json)
    ensures Canonical(v) == Print(Normal(v))
    decreases v, 1
  {
    match v
    case Array(items) =>
      forall i | 0 <= i < |items| ensures Canonical(items[i]) == Print(Normal(items[i])) {
        CanonicalIsPrint(items[i]);
      }
      assert CanonicalItems(items) == PrintAll(NormalItems(items));
    case Object(members) => CanonicalObject(v);
    case _ =>
  }

  lemma {:induction false} CanonicalObject(v: Json)
    requires v.Object?
    ensures Canonical(v) == Print(Normal(v))
    decreases v, 0, 1
  {
    hide Canonical, Normal, Print, CanonicalMembers, NormalFields, PrintFields;
    var sorted := Sort(ByKey(), v.members);
    SortedMembers(v.members);
    CanonicalMembersPrint(v, sorted);
    SortNormal(v.members);
    ObjectForms(v);
    NormalOfObject(v);
    RecordForm(Sort(ByFieldKey(), NormalFields(v.members)));
  }

  lemma ObjectForms(v: Json)
    requires v.Object?
    ensures forall m | m in Sort(ByKey(), v.members) :: m in v.members
    ensures Canonical(v) == "{" + JoinCommas(CanonicalMembers(v, Sort(ByKey(), v.members))) + "}"
  {
    hide CanonicalMembers;
    SortedMembers(v.members);
  }

  lemma RecordForm(fields: seq<Field>)
    ensures Print(Record(fields)) == "{" + JoinCommas(PrintFields(fields)) + "}"
  {
    hide PrintFields;
  }

  lemma {:induction false} CanonicalMembersPrint(v: Json, members: seq<Member>)
    requires v.Object? && forall m | m in members :: m in v.members
    ensures CanonicalMembers(v, members) == PrintFields(NormalFields(members))
    decreases v, 0, 0
  {
    hide Canonical, Print, Normal;
    forall i | 0 <= i < |members| ensures Canonical(members[i].value) == Print(Normal(members[i].value)) {
      assert members[i] in v.members;
      CanonicalIsPrint(members[i].value);
    }
  }

  lemma NormalCons(m: Member, s: seq<Member>)
    ensures NormalFields([m] + s) == [Field(m.key, Normal(m.value))] + NormalFields(s)
  {
    hide Normal;
    assert ([m] + s)[1..] == s;
  }

  lemma {:induction false} InsertNormal(m: Member, s: seq<Member>)
    ensures NormalFields(Insert(ByKey(), m, s))
         == Insert(ByFieldKey(), Field(m.key, Normal(m.value)), NormalFields(s))
  {
    hide Normal, NormalFields, StrLeq;
    NormalCons(m, s);
    if s != [] {
      var rest := s[1..];
      assert s == [s[0]] + rest;
      NormalCons(s[0], rest);
      var f := Field(s[0].key, Normal(s[0].value));
      assert NormalFields(s)[0] == f && NormalFields(s)[1..] == NormalFields(rest);
      if !ByKey()(m, s[0]) {
        InsertNormal(m, rest);
        NormalCons(s[0], Insert(ByKey(), m, rest));
      }
    }
  }

  lemma {:induction false} SortNormal(s: seq<Member>)
    ensures NormalFields(Sort(ByKey(), s)) == Sort(ByFieldKey(), NormalFields(s))
  {
    hide Normal, StrLeq;
    if s != [] {
      SortNormal(s[1..]);
      InsertNormal(s[0], Sort(ByKey(), s[1..]));
      assert NormalFields(s)[1..] == NormalFields(s[1..]);
    }
  }

  // ---- Equality up to key order ----

  /** The same parsed tree with object keys in any order; -0 counts as 0. */
  ghost predicate SameTree(a: Json, b: Json)
    decreases a
  {
    match a
    case Null => b.Null?
    case Bool(x) => b == a
    case Number(x) => b == a || (x == "0" && b.NegativeZero?)
    case NegativeZero => b.NegativeZero? || b == Number("0")
    case Overflow(x) => b == a
    case String(x) => b == a
    case Array(items) =>
      b.Array? && |items| == |b.items| && forall i :: 0 <= i < |items| ==> SameTree(items[i], b.items[i])
    case Object(members) =>
      && b.Object?
      && (forall m | m in members :: Matched(m, b.members))
      && (forall m | m in b.members :: HasKey(members, m.key))
  }

  ghost predicate Matched(m: Member, others: seq<Member>)
    decreases m
  {
    exists o | o in others :: o.key == m.key && SameTree(m.value, o.value)
  }

  /** No number of the value overflowed. */
  ghost predicate Finite(v: Json)
    decreases v
  {
    match v
    case Overflow(_) => false
    case Array(items) => forall i :: 0 <= i < |items| ==> Finite(items[i])
    case Object(members) => forall i :: 0 <= i < |members| ==> Finite(members[i].value)
    case _ => true
  }

  /** The value with every overflowed number replaced by null, as the text shows it. */
  function Settled(v: Json): Json
    decreases v, 1
  {
    match v
    case Overflow(_) => Null
    case Array(items) => Array(SettledItems(items))
    case Object(members) => Object(SettledMembers(members))
    case _ => v
  }

  function SettledItems(items: seq<Json>): (r: seq<Json>)
    ensures |r| == |items| && forall i :: 0 <= i < |items| ==> r[i] == Settled(items[i])
    decreases items, 0
  {
    if items == [] then [] else [Settled(items[0])] + SettledItems(items[1..])
  }

  function SettledMembers(members: seq<Member>): (r: seq<Member>)
    ensures |r| == |members|
    ensures forall i :: 0 <= i < |members| ==> r[i] == Member(members[i].key, Settled(members[i].value))
    decreases members, 0
  {
    if members == [] then [] else [Member(members[0].key, Settled(members[0].value))] + SettledMembers(members[1..])
  }

  /** What the text can tell: the same tree once overflowed numbers are read as null. */
  ghost predicate Equivalent(a: Json, b: Json) {
    SameTree(Settled(a), Settled(b))
  }

  lemma {:induction false} SettledIsFinite(v: Json)
    requires WellFormed(v)
    ensures WellFormed(Settled(v)) && Finite(Settled(v)) && Normal(Settled(v)) == Normal(v)
    ensures Finite(v) ==> Settled(v) == v
    decreases v
  {
    match v
    case Array(items) =>
      forall i | 0 <= i < |items|
        ensures WellFormed(Settled(items[i])) && Finite(Settled(items[i]))
        ensures Normal(Settled(items[i])) == Normal(items[i])
        ensures Finite(items[i]) ==> Settled(items[i]) == items[i]
      {
        SettledIsFinite(items[i]);
      }
      assert NormalItems(SettledItems(items)) == NormalItems(items);
    case Object(members) =>
      forall i | 0 <= i < |members|
        ensures WellFormed(Settled(members[i].value)) && Finite(Settled(members[i].value))
        ensures Normal(Settled(members[i].value)) == Normal(members[i].value)
        ensures Finite(members[i].value) ==> Settled(members[i].value) == members[i].value
      {
        SettledIsFinite(members[i].value);
      }
      SettledObject(v);
    case _ =>
  }

  lemma SettledObject(v: Json)
    requires v.Object? && WellFormed(v)
    requires forall i :: 0 <= i < |v.members| ==>
               var w := v.members[i].value;
               WellFormed(Settled(w)) && Finite(Settled(w)) && Normal(Settled(w)) == Normal(w)
    requires forall i :: 0 <= i < |v.members| ==>
               Finite(v.members[i].value) ==> Settled(v.members[i].value) == v.members[i].value
    ensures WellFormed(Settled(v)) && Finite(Settled(v)) && Normal(Settled(v)) == Normal(v)
    ensures Finite(v) ==> Settled(v) == v
  {
    var members, settled := v.members, SettledMembers(v.members);
    assert NormalFields(settled) == NormalFields(members);
    forall i, j | 0 <= i < j < |settled| ensures MemberKey()(settled[i]) != MemberKey()(settled[j]) {
      assert MemberKey()(members[i]) != MemberKey()(members[j]);
    }
    if Finite(v) {
      assert settled == members;
    }
  }

  predicate HasKey(members: seq<Member>, key: string) {
    exists m | m in members :: m.key == key
  }

  lemma ByFieldKeyTotal()
    ensures TotalPreorder(ByFieldKey())
  {
    forall x: Field, y: Field, z: Field
      ensures ByFieldKey()(x, y) || ByFieldKey()(y, x)
      ensures ByFieldKey()(x, y) && ByFieldKey()(y, z) ==> ByFieldKey()(x, z)
    {
      StrLeqOrder(x.key, y.key, z.key);
    }
  }

  lemma NormalDistinct(members: seq<Member>)
    requires DistinctKeys(members, MemberKey())
    ensures DistinctKeys(NormalFields(members), FieldKey())
    ensures DistinctKeys(Sort(ByFieldKey(), NormalFields(members)), FieldKey())
  {
    hide Normal;
    var f := NormalFields(members);
    forall i, j | 0 <= i < j < |f| ensures FieldKey()(f[i]) != FieldKey()(f[j]) {
      assert MemberKey()(members[i]) != MemberKey()(members[j]);
    }
    PermutedDistinct(f, Sort(ByFieldKey(), f), FieldKey());
  }

  /** Fields with the same keys and values sort to the same sequence. */
  lemma SortedFieldsEqual(f: seq<Field>, g: seq<Field>)
    requires DistinctKeys(f, FieldKey()) && DistinctKeys(g, FieldKey())
    requires forall x :: x in f <==> x in g
    ensures Sort(ByFieldKey(), f) == Sort(ByFieldKey(), g)
  {
    var a, b := Sort(ByFieldKey(), f), Sort(ByFieldKey(), g);
    ByFieldKeyTotal();
    SortSorts(ByFieldKey(), f);
    SortSorts(ByFieldKey(), g);
    forall k ensures Find(a, FieldKey(), k) == Find(b, FieldKey(), k) {
      SortFinds(ByFieldKey(), f, FieldKey(), k);
      SortFinds(ByFieldKey(), g, FieldKey(), k);
      FindSound(f, FieldKey(), k);
      FindSound(g, FieldKey(), k);
      if Find(f, FieldKey(), k).Some? { FindDistinct(g, FieldKey(), Find(f, FieldKey(), k).value); }
    }
    SortFinds(ByFieldKey(), f, FieldKey(), "");
    SortFinds(ByFieldKey(), g, FieldKey(), "");
    forall x, y | x in a && y in a && ByFieldKey()(x, y) && ByFieldKey()(y, x) ensures x == y {
      StrLeqOrder(x.key, y.key, "");
      FindDistinct(a, FieldKey(), x);
      FindDistinct(a, FieldKey(), y);
    }
    SameFinds(ByFieldKey(), a, b, FieldKey());
  }

  lemma {:induction false} SameTreeNormal(a: Json, b: Json)
    requires WellFormed(a) && WellFormed(b) && SameTree(a, b)
    ensures Normal(a) == Normal(b)
    decreases a, 1
  {
    match a
    case Array(items) =>
      forall i | 0 <= i < |items| ensures Normal(items[i]) == Normal(b.items[i]) {
        SameTreeNormal(items[i], b.items[i]);
      }
      assert NormalItems(items) == NormalItems(b.items);
    case Object(members) => SameTreeFields(a, b);
    case _ =>
  }

  lemma ObjectWellFormed(v: Json)
    requires v.Object? && WellFormed(v)
    ensures DistinctKeys(v.members, MemberKey())
    ensures forall m | m in v.members :: WellFormed(m.value)
  {
  }

  lemma NormalFieldsHold(members: seq<Member>)
    ensures forall m | m in members :: Field(m.key, Normal(m.value)) in NormalFields(members)
    ensures forall f | f in NormalFields(members) ::
              exists m :: m in members && f == Field(m.key, Normal(m.value))
  {
    hide Normal;
    var fs := NormalFields(members);
    forall m | m in members ensures Field(m.key, Normal(m.value)) in fs {
      var i :| 0 <= i < |members| && members[i] == m;
      assert fs[i] == Field(m.key, Normal(m.value));
    }
    forall f | f in fs ensures exists m :: m in members && f == Field(m.key, Normal(m.value)) {
      var i :| 0 <= i < |fs| && fs[i] == f;
      assert members[i] in members;
    }
  }

  lemma {:induction false} SameTreeFields(a: Json, b: Json)
    requires a.Object? && b.Object? && WellFormed(a) && WellFormed(b) && SameTree(a, b)
    ensures Normal(a) == Normal(b)
    decreases a, 0
  {
    var f, g := NormalFields(a.members), NormalFields(b.members);
    ObjectWellFormed(a);
    ObjectWellFormed(b);
    NormalDistinct(a.members);
    NormalDistinct(b.members);
    NormalFieldsHold(a.members);
    NormalFieldsHold(b.members);
    forall x | x in f ensures x in g {
      var m :| m in a.members && x == Field(m.key, Normal(m.value));
      assert Matched(m, b.members);
      var o :| o in b.members && o.key == m.key && SameTree(m.value, o.value);
      SameTreeNormal(m.value, o.value);
    }
    forall y | y in g ensures y in f {
      var o :| o in b.members && y == Field(o.key, Normal(o.value));
      assert HasKey(a.members, o.key);
      var m :| m in a.members && m.key == o.key;
      var x := Field(m.key, Normal(m.value));
      FindDistinct(g, FieldKey(), x);
      FindDistinct(g, FieldKey(), y);
    }
    SortedFieldsEqual(f, g);
    NormalOfObject(a);
    NormalOfObject(b);
  }

  lemma NormalOfObject(v: Json)
    requires v.Object?
    ensures Normal(v) == Record(Sort(ByFieldKey(), NormalFields(v.members)))
  {
  }

  lemma {:induction false} NormalSameTree(a: Json, b: Json)
    requires WellFormed(a) && WellFormed(b) && Finite(a) && Finite(b) && Normal(a) == Normal(b)
    ensures SameTree(a, b)
    decreases a, 1
  {
    match a
    case Array(items) =>
      var f, g := NormalItems(items), NormalItems(b.items);
      forall i | 0 <= i < |items| ensures SameTree(items[i], b.items[i]) {
        assert f[i] == g[i];
        NormalSameTree(items[i], b.items[i]);
      }
    case Object(members) => NormalFieldsSameTree(a, b);
    case _ =>
  }

  lemma {:induction false} NormalFieldsSameTree(a: Json, b: Json)
    requires a.Object? && b.Object? && WellFormed(a) && WellFormed(b)
    requires Finite(a) && Finite(b) && Normal(a) == Normal(b)
    ensures SameTree(a, b)
    decreases a, 0
  {
    ObjectWellFormed(a);
    ObjectWellFormed(b);
    SameFieldsOfNormal(a, b);
    NormalFieldsHold(a.members);
    NormalFieldsHold(b.members);
    forall m | m in a.members ensures Matched(m, b.members) {
      assert Field(m.key, Normal(m.value)) in NormalFields(b.members);
      var o :| o in b.members && Field(m.key, Normal(m.value)) == Field(o.key, Normal(o.value));
      NormalSameTree(m.value, o.value);
    }
    forall o | o in b.members ensures HasKey(a.members, o.key) {
      assert Field(o.key, Normal(o.value)) in NormalFields(a.members);
    }
  }

  lemma SameFieldsOfNormal(a: Json, b: Json)
    requires a.Object? && b.Object? && Normal(a) == Normal(b)
    ensures forall f :: f in NormalFields(a.members) <==> f in NormalFields(b.members)
  {
    SameSorted(NormalFields(a.members), NormalFields(b.members));
  }

  lemma SameSorted(f: seq<Field>, g: seq<Field>)
    requires Sort(ByFieldKey(), f) == Sort(ByFieldKey(), g)
    ensures forall x :: x in f <==> x in g
  {
    hide Sort, ByFieldKey;
    assert multiset(f) == multiset(Sort(ByFieldKey(), f)) == multiset(Sort(ByFieldKey(), g)) == multiset(g);
    assert forall x :: x in f <==> x in multiset(f);
    assert forall x :: x in g <==> x in multiset(g);
  }

  /** Two parsed values print alike exactly when they are the same tree with keys reordered, overflows read as null. */
  lemma CanonicalIffEquivalent(a: Json, b: Json)
    requires WellFormed(a) && WellFormed(b)
    ensures Canonical(a) == Canonical(b) <==> Equivalent(a, b)
  {
    hide Canonical, Settled, Print, Normal, SameTree, Finite, WellFormed;
    var x, y := Settled(a), Settled(b);
    CanonicalIsPrint(a);
    CanonicalIsPrint(b);
    SettledIsFinite(a);
    SettledIsFinite(b);
    if Canonical(a) == Canonical(b) {
      PrintInjective(Normal(a), Normal(b));
      NormalSameTree(x, y);
    }
    if SameTree(x, y) {
      SameTreeNormal(x, y);
    }
  }

  /** The same tree always has the same text, and between finite values nothing else has. */
  lemma SameTreeText(a: Json, b: Json)
    requires WellFormed(a) && WellFormed(b)
    ensures SameTree(a, b) ==> Canonical(a) == Canonical(b)
    ensures Finite(a) && Finite(b) ==> (Canonical(a) == Canonical(b) <==> SameTree(a, b))
  {
    hide Canonical, Settled, Print, Normal, SameTree, Finite, WellFormed;
    CanonicalIsPrint(a);
    CanonicalIsPrint(b);
    if SameTree(a, b) {
      SameTreeNormal(a, b);
    }
    if Finite(a) && Finite(b) {
      CanonicalIffEquivalent(a, b);
      SettledIsFinite(a);
      SettledIsFinite(b);
    }
  }

  lemma OneMember(members: seq<Member>, i: int, j: int)
    requires DistinctKeys(members, MemberKey()) && 0 <= i < |members| && 0 <= j < |members|
    requires members[i].key == members[j].key
    ensures i == j
  {
    assert !(i < j) && !(j < i);
  }

  /** An overflowed number makes a value another tree than the one its text shows. */
  lemma {:induction false} OverflowIsAnotherTree(v: Json)
    requires WellFormed(v) && !Finite(v)
    ensures !SameTree(v, Settled(v))
    decreases v
  {
    match v
    case Array(items) =>
      var i :| 0 <= i < |items| && !Finite(items[i]);
      OverflowIsAnotherTree(items[i]);
      assert Settled(v).items[i] == Settled(items[i]);
    case Object(members) =>
      var i :| 0 <= i < |members| && !Finite(members[i].value);
      OverflowIsAnotherTree(members[i].value);
      var settled := SettledMembers(members);
      forall o | o in settled && o.key == members[i].key ensures !SameTree(members[i].value, o.value) {
        var j :| 0 <= j < |settled| && settled[j] == o;
        OneMember(members, i, j);
      }
      assert members[i] in members && !Matched(members[i], settled);
    case _ =>
  }

  lemma {:induction false} SameTreeFinite(a: Json, b: Json)
    requires WellFormed(b) && SameTree(a, b) && Finite(a)
    ensures Finite(b)
    decreases a
  {
    match a
    case Array(items) =>
      forall i | 0 <= i < |b.items| ensures Finite(b.items[i]) {
        SameTreeFinite(items[i], b.items[i]);
      }
    case Object(members) =>
      forall j | 0 <= j < |b.members| ensures Finite(b.members[j].value) {
        var key := b.members[j].key;
        assert b.members[j] in b.members && HasKey(members, key);
        var m :| m in members && m.key == key;
        assert Matched(m, b.members);
        var o :| o in b.members && o.key == m.key && SameTree(m.value, o.value);
        var i :| 0 <= i < |members| && members[i] == m;
        var k :| 0 <= k < |b.members| && b.members[k] == o;
        OneMember(b.members, k, j);
        SameTreeFinite(m.value, o.value);
      }
    case _ =>
  }

  /** The exact condition: a value's text tells it apart from every finite value iff no number of it overflowed. */
  lemma TextDecidesIffFinite(a: Json)
    requires WellFormed(a)
    ensures Finite(a) <==> forall b :: WellFormed(b) && Finite(b) && Canonical(a) == Canonical(b) ==> SameTree(a, b)
  {
    hide Canonical, SameTree, Finite, WellFormed, Settled, Normal, Print;
    forall b | WellFormed(b) && Finite(b) && Canonical(a) == Canonical(b) && Finite(a) ensures SameTree(a, b) {
      SameTreeText(a, b);
    }
    if !Finite(a) {
      var b := Settled(a);
      SettledIsFinite(a);
      CanonicalIsPrint(a);
      CanonicalIsPrint(b);
      OverflowIsAnotherTree(a);
    }
  }

  /** So equivalence up to key order is an equivalence relation. */
  lemma EquivalentLaws(a: Json, b: Json, c: Json)
    requires WellFormed(a) && WellFormed(b) && WellFormed(c)
    ensures Equivalent(a, a)
    ensures Equivalent(a, b) <==> Equivalent(b, a)
    ensures Equivalent(a, b) && Equivalent(b, c) ==> Equivalent(a, c)
  {
    CanonicalIffEquivalent(a, a);
    CanonicalIffEquivalent(a, b);
    CanonicalIffEquivalent(b, a);
    CanonicalIffEquivalent(b, c);
    CanonicalIffEquivalent(a, c);
  }

  /** No value prints as the text `canonical` gives a missing one. */
  lemma NeverUndefined(v: Json)
    ensures Canonical(v) != "undefined"
  {
    CanonicalIsPrint(v);
    FirstChar(Normal(v), "");
    PrintForms(Normal(v), "");
  }
}
