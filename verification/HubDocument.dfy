// What the directory hub stores and how it hashes it: validated documents, and digests of their fixed-order JSON.
module HubDocument {
  import opened Prelude
  import opened Sorting
  import opened Merge
  import opened Json

  datatype Visibility = Public | Request

  datatype Space = Space(id: string, name: string, description: Option<string>, icon: Option<string>,
                         banner: Option<string>, avatarColor: Option<string>, visibility: Visibility,
                         memberCount: nat, createdAt: nat)

  datatype Document = Document(instanceName: string, federatedRegistrationOpen: bool, version: Option<string>,
                               spaces: seq<Space>)

  /** SHA-256, taken as injective: a digest is told apart by the text that was hashed. */
  datatype Digest = Sha256(text: string)

  function IdOf(): Space -> string {
    (s: Space) => s.id
  }

  ghost predicate UniqueIds(doc: Document) {
    DistinctKeys(doc.spaces, IdOf())
  }

  // ---- Decimal integers ----

  function NatText(n: nat): (s: string)
    ensures IsNumberText(s)
    ensures forall c | c in s :: '0' <= c <= '9'
  {
    if n < 10 then [('0' as int + n) as char] else NatText(n / 10) + [('0' as int + n % 10) as char]
  }

  function NatValue(s: string): int {
    if s == "" then 0 else 10 * NatValue(s[..|s| - 1]) + (s[|s| - 1] as int - '0' as int)
  }

  lemma {:induction false} NatTextValue(n: nat)
    ensures NatValue(NatText(n)) == n
  {
    if n >= 10 {
      NatTextValue(n / 10);
      assert NatText(n)[..|NatText(n)| - 1] == NatText(n / 10);
    } else {
      assert NatText(n)[..0] == "";
    }
  }

  // ---- Hashes ----

  function TextOrNull(s: Option<string>): Tree {
    if s.Some? then StringLeaf(s.value) else NullLeaf
  }

  /** `canonicalSpace`: the nine fields in their one order. */
  function SpaceTree(s: Space): Tree {
    Record([Field("id", StringLeaf(s.id)), Field("name", StringLeaf(s.name)),
            Field("description", TextOrNull(s.description)), Field("icon", TextOrNull(s.icon)),
            Field("banner", TextOrNull(s.banner)), Field("avatarColor", TextOrNull(s.avatarColor)),
            Field("visibility", StringLeaf(if s.visibility.Public? then "public" else "request")),
            Field("memberCount", NumberLeaf(NatText(s.memberCount))),
            Field("createdAt", NumberLeaf(NatText(s.createdAt)))])
  }

  function RowHash(s: Space): Digest {
    Sha256(Print(SpaceTree(s)))
  }

  function ById(): (Space, Space) -> bool {
    (a: Space, b: Space) => StrLeq(a.id, b.id)
  }

  function SpaceTrees(spaces: seq<Space>): (r: seq<Tree>)
    ensures |r| == |spaces| && forall i :: 0 <= i < |spaces| ==> r[i] == SpaceTree(spaces[i])
  {
    seq(|spaces|, i requires 0 <= i < |spaces| => SpaceTree(spaces[i]))
  }

  function DocumentTree(doc: Document): Tree {
    Record([Field("instanceName", StringLeaf(doc.instanceName)),
            Field("federatedRegistrationOpen", BoolLeaf(doc.federatedRegistrationOpen)),
            Field("version", TextOrNull(doc.version)),
            Field("spaces", List(SpaceTrees(Sort(ById(), doc.spaces))))])
  }

  function DocumentHash(doc: Document): Digest {
    Sha256(Print(DocumentTree(doc)))
  }

  lemma SpaceTreeInjective(a: Space, b: Space)
    requires SpaceTree(a) == SpaceTree(b)
    ensures a == b
  {
    hide NatText;
    var f, g := SpaceTree(a).fields, SpaceTree(b).fields;
    assert f[0] == g[0] && f[1] == g[1] && f[2] == g[2] && f[3] == g[3] && f[4] == g[4] && f[5] == g[5]
        && f[6] == g[6] && f[7] == g[7] && f[8] == g[8];
    assert "public"[0] != "request"[0];
    NatTextValue(a.memberCount);
    NatTextValue(b.memberCount);
    NatTextValue(a.createdAt);
    NatTextValue(b.createdAt);
  }

  /** Rows hash alike only when every stored column is equal. */
  lemma RowHashInjective(a: Space, b: Space)
    ensures RowHash(a) == RowHash(b) <==> a == b
  {
    hide Print, SpaceTree;
    if RowHash(a) == RowHash(b) {
      PrintInjective(SpaceTree(a), SpaceTree(b));
      SpaceTreeInjective(a, b);
    }
  }

  lemma ByIdTotal()
    ensures TotalPreorder(ById())
  {
    forall x: Space, y: Space, z: Space
      ensures ById()(x, y) || ById()(y, x)
      ensures ById()(x, y) && ById()(y, z) ==> ById()(x, z)
    {
      StrLeqOrder(x.id, y.id, z.id);
    }
  }

  lemma DistinctTies(s: seq<Space>)
    requires DistinctKeys(s, IdOf())
    ensures forall x, y :: x in s && y in s && ById()(x, y) && ById()(y, x) ==> x == y
  {
    forall x, y | x in s && y in s && ById()(x, y) && ById()(y, x) ensures x == y {
      StrLeqOrder(x.id, y.id, "");
      FindDistinct(s, IdOf(), x);
      FindDistinct(s, IdOf(), y);
    }
  }

  /** With unique ids the sorted list is a function of the set of spaces. */
  lemma SortedSpacesEqual(a: seq<Space>, b: seq<Space>)
    requires DistinctKeys(a, IdOf()) && DistinctKeys(b, IdOf()) && forall s :: s in a <==> s in b
    ensures Sort(ById(), a) == Sort(ById(), b)
  {
    var x, y := Sort(ById(), a), Sort(ById(), b);
    ByIdTotal();
    SortSorts(ById(), a);
    SortSorts(ById(), b);
    forall k ensures Find(x, IdOf(), k) == Find(y, IdOf(), k) {
      SortFinds(ById(), a, IdOf(), k);
      SortFinds(ById(), b, IdOf(), k);
      FindSound(a, IdOf(), k);
      FindSound(b, IdOf(), k);
      if Find(a, IdOf(), k).Some? { FindDistinct(b, IdOf(), Find(a, IdOf(), k).value); }
    }
    SortFinds(ById(), a, IdOf(), "");
    SortFinds(ById(), b, IdOf(), "");
    DistinctTies(x);
    SameFinds(ById(), x, y, IdOf());
  }

  /** The same instance columns and the same set of spaces. */
  ghost predicate SameContent(a: Document, b: Document) {
    && a.instanceName == b.instanceName && a.federatedRegistrationOpen == b.federatedRegistrationOpen
    && a.version == b.version
    && forall s :: s in a.spaces <==> s in b.spaces
  }

  lemma SpaceTreesInjective(a: seq<Space>, b: seq<Space>)
    requires SpaceTrees(a) == SpaceTrees(b)
    ensures a == b
  {
    hide SpaceTree;
    forall i | 0 <= i < |a| ensures a[i] == b[i] {
      assert SpaceTrees(a)[i] == SpaceTrees(b)[i];
      SpaceTreeInjective(a[i], b[i]);
    }
  }

  lemma DocumentTreeParts(a: Document, b: Document)
    requires DocumentTree(a) == DocumentTree(b)
    ensures a.instanceName == b.instanceName && a.federatedRegistrationOpen == b.federatedRegistrationOpen
    ensures a.version == b.version && SpaceTrees(Sort(ById(), a.spaces)) == SpaceTrees(Sort(ById(), b.spaces))
  {
    hide SpaceTree, Sort, SpaceTrees;
    var f, g := DocumentTree(a).fields, DocumentTree(b).fields;
    assert f[0] == g[0] && f[1] == g[1] && f[2] == g[2] && f[3] == g[3];
  }

  lemma TreeOfContent(a: Document, b: Document)
    ensures SameContent(a, b) && Sort(ById(), a.spaces) == Sort(ById(), b.spaces) ==> DocumentTree(a) == DocumentTree(b)
  {
    hide Sort, SpaceTrees;
  }

  lemma SortMembers(s: seq<Space>)
    ensures forall x :: x in s <==> x in Sort(ById(), s)
  {
    assert forall x :: x in s <==> x in multiset(s);
    assert forall x :: x in Sort(ById(), s) <==> x in multiset(Sort(ById(), s));
  }

  /** Documents hash alike exactly when they have the same content, whatever order their spaces came in. */
  lemma DocumentHashIff(a: Document, b: Document)
    requires UniqueIds(a) && UniqueIds(b)
    ensures DocumentHash(a) == DocumentHash(b) <==> SameContent(a, b)
  {
    hide Print, SpaceTrees, DocumentTree, Sort;
    TreeOfContent(a, b);
    if DocumentHash(a) == DocumentHash(b) {
      PrintInjective(DocumentTree(a), DocumentTree(b));
      DocumentTreeParts(a, b);
      SpaceTreesInjective(Sort(ById(), a.spaces), Sort(ById(), b.spaces));
      SortMembers(a.spaces);
      SortMembers(b.spaces);
    }
    if SameContent(a, b) {
      SortedSpacesEqual(a.spaces, b.spaces);
    }
  }
}
