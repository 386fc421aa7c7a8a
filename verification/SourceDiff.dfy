// The pull-request triage: what a new `node-sources.json` or `package.json` adds, changes and removes.
module SourceDiff {
  import opened Prelude
  import opened Merge
  import opened Json
  import opened CanonicalJson

  /** A file's text as `JSON.parse` sees it; Absent is a side without the file. */
  datatype Text = Absent | Malformed | Parsed(value: Json)

  datatype DiffError = NotJson | NotArray | NonObjectEntry | EntryWithoutType | NotObject | ErrorMember(text: string)

  // ---- node-sources.json ----

  function CheckEntries(items: seq<Json>): Option<DiffError> {
    if items == [] then None
    else if !items[0].Object? then Some(NonObjectEntry)
    else if Str(items[0], "type").None? then Some(EntryWithoutType)
    else CheckEntries(items[1..])
  }

  function ParseEntries(text: Text): Result<seq<Json>, DiffError> {
    match text
    case Absent => Ok([])
    case Malformed => Err(NotJson)
    case Parsed(v) =>
      if !v.Array? then Err(NotArray)
      else match CheckEntries(v.items)
        case Some(e) => Err(e)
        case None => Ok(v.items)
  }

  datatype Kind = Known | Data | Foreign | Executable

  predicate StartsWith(s: string, prefix: string) {
    |prefix| <= |s| && s[..|prefix|] == prefix
  }

  predicate EndsWith(s: string, suffix: string) {
    |suffix| <= |s| && s[|s| - |suffix|..] == suffix
  }

  function Lower(s: string): string {
    seq(|s|, i requires 0 <= i < |s| =>
      if 'A' <= s[i] <= 'Z' then (s[i] as int - 'A' as int + 'a' as int) as char else s[i])
  }

  predicate ScriptName(name: string) {
    var l := Lower(name);
    EndsWith(l, ".py") || EndsWith(l, ".sh") || EndsWith(l, ".bash") || EndsWith(l, ".js")
    || EndsWith(l, ".mjs") || EndsWith(l, ".cjs") || EndsWith(l, ".rb") || EndsWith(l, ".pl")
  }

  predicate KnownDownload(u: Url) {
    || u.host == "registry.npmjs.org"
    || (u.host == "github.com" && StartsWith(u.pathname, "/electron/electron/releases/download/"))
    || (u.host == "www.electronjs.org" && StartsWith(u.pathname, "/headers/"))
  }

  predicate HasChecksum(entry: Json) {
    exists k | k in ["sha512", "sha256", "sha1", "md5"] :: Str(entry, k).Some? && Str(entry, k).value != ""
  }

  /** `classify`; `parseUrl` is the URL parser, None where it throws. */
  function Classify(entry: Json, parseUrl: string -> Option<Url>): Kind {
    var kind := Str(entry, "type");
    if kind == Some("file") || kind == Some("archive") then
      match Str(entry, "url")
      case None => Foreign
      case Some(url) =>
        match parseUrl(url)
        case None => Foreign
        case Some(u) =>
          if u.protocol != "https:" || !KnownDownload(u) then Foreign
          else if HasChecksum(entry) then Known else Foreign
    else if kind == Some("inline") then
      var contents := Str(entry, "contents");
      var name := Str(entry, "dest-filename");
      if StartsWith(if contents.Some? then contents.value else "", "#!")
         || ScriptName(if name.Some? then name.value else "") then Executable
      else Data
    else Executable
  }

  function FirstCommand(entry: Json): Option<string> {
    match Get(entry, "commands")
    case Some(Array(items)) => if items != [] && items[0].String? then Some(items[0].s) else None
    case _ => None
  }

  function Label(entry: Json): string {
    var kind := Str(entry, "type");
    var first := OrElse(Str(entry, "dest-filename"), OrElse(Str(entry, "url"), OrElse(Str(entry, "path"),
                 OrElse(FirstCommand(entry), OrElse(Str(entry, "dest"), Some("(unnamed)"))))));
    (if kind.Some? then kind.value else "unknown") + ": " + (if first.Some? then first.value else "")
  }

  datatype Concern = Concern(kind: Kind, text: string)

  function ConcernOf(parseUrl: string -> Option<Url>): Json -> Concern {
    (e: Json) =>
      var kind := Classify(e, parseUrl);
      var url := Str(e, "url");
      Concern(kind, if kind.Foreign? && url.Some? then url.value else Label(e))
  }

  datatype SourcesDiff = SourcesDiff(addedKnown: nat, changedData: nat, removed: nat, concerns: seq<Concern>)

  function CanonicalSet(entries: seq<Json>): set<string> {
    set e | e in entries :: Canonical(e)
  }

  /** Head entries whose canonical text no base entry has. */
  function Unmatched(base: seq<Json>): Json -> bool {
    (e: Json) => Canonical(e) !in CanonicalSet(base)
  }

  datatype Tally = Tally(known: nat, data: nat, concerns: seq<Concern>)

  /** What the head entries add, entry by entry: known downloads, inline data, concerns in file order. */
  function TallyOf(base: seq<Json>, parseUrl: string -> Option<Url>, entries: seq<Json>): Tally {
    if entries == [] then Tally(0, 0, [])
    else
      var n := |entries| - 1;
      var t := TallyOf(base, parseUrl, entries[..n]);
      var kind := Classify(entries[n], parseUrl);
      if !Unmatched(base)(entries[n]) then t
      else if kind.Known? then t.(known := t.known + 1)
      else if kind.Data? then t.(data := t.data + 1)
      else t.(concerns := t.concerns + [ConcernOf(parseUrl)(entries[n])])
  }

  method CountMissing(keys: set<string>, others: set<string>) returns (missing: nat)
    ensures missing == |keys - others|
  {
    missing := 0;
    var left := keys;
    while left != {}
      invariant left <= keys && missing == |(keys - left) - others|
      decreases left
    {
      var key :| key in left;
      ghost var seen := (keys - left) - others;
      left := left - {key};
      if key !in others {
        missing := missing + 1;
        assert (keys - left) - others == seen + {key};
      } else {
        assert (keys - left) - others == seen;
      }
    }
    assert keys - {} == keys;
  }

  method DiffSources(base: Text, head: Text, parseUrl: string -> Option<Url>)
    returns (r: Result<SourcesDiff, DiffError>)
    ensures r.Err? <==> ParseEntries(base).Err? || ParseEntries(head).Err?
    ensures r.Err? ==> r.error == if ParseEntries(base).Err? then ParseEntries(base).error else ParseEntries(head).error
    ensures r.Ok? ==>
              var b, h, d := ParseEntries(base).value, ParseEntries(head).value, r.value;
              && Tally(d.addedKnown, d.changedData, d.concerns) == TallyOf(b, parseUrl, h)
              && d.removed == |CanonicalSet(b) - CanonicalSet(h)|
  {
    hide Canonical, Classify, Label, ParseEntries;
    var baseParsed := ParseEntries(base);
    if baseParsed.Err? { return Err(baseParsed.error); }
    var headParsed := ParseEntries(head);
    if headParsed.Err? { return Err(headParsed.error); }
    var b, h := baseParsed.value, headParsed.value;
    var baseSet, headSet := CanonicalSet(b), CanonicalSet(h);
    var removed := CountMissing(baseSet, headSet);
    var addedKnown, changedData := 0, 0;
    var concerns: seq<Concern> := [];
    for i := 0 to |h|
      invariant Tally(addedKnown, changedData, concerns) == TallyOf(b, parseUrl, h[..i])
    {
      assert h[..i + 1][..i] == h[..i] && h[..i + 1][i] == h[i];
      if Canonical(h[i]) in baseSet { continue; }
      var kind := Classify(h[i], parseUrl);
      if kind.Known? {
        addedKnown := addedKnown + 1;
      } else if kind.Data? {
        changedData := changedData + 1;
      } else {
        concerns := concerns + [ConcernOf(parseUrl)(h[i])];
      }
    }
    assert h[..|h|] == h;
    r := Ok(SourcesDiff(addedKnown, changedData, removed, concerns));
  }

  // ---- What the counts mean ----

  ghost predicate IsNew(base: seq<Json>, e: Json) {
    forall b | b in base :: !Equivalent(b, e)
  }

  lemma UnmatchedIffNew(base: seq<Json>, e: Json)
    requires WellFormed(e) && forall b | b in base :: WellFormed(b)
    ensures Unmatched(base)(e) <==> IsNew(base, e)
  {
    hide Canonical, Equivalent, WellFormed;
    forall b | b in base ensures Canonical(b) == Canonical(e) <==> Equivalent(b, e) {
      CanonicalIffEquivalent(b, e);
    }
  }

  /** The number of entries no base entry is equivalent to. */
  ghost function NewCount(base: seq<Json>, entries: seq<Json>): nat {
    if entries == [] then 0
    else
      var n := |entries| - 1;
      NewCount(base, entries[..n]) + (if IsNew(base, entries[n]) then 1 else 0)
  }

  lemma TallyStep(base: seq<Json>, parseUrl: string -> Option<Url>, entries: seq<Json>)
    requires entries != []
    ensures var n := |entries| - 1;
            var t, u := TallyOf(base, parseUrl, entries[..n]), TallyOf(base, parseUrl, entries);
            u.known + u.data + |u.concerns|
            == t.known + t.data + |t.concerns| + (if Unmatched(base)(entries[n]) then 1 else 0)
  {
    hide Canonical, Classify, Label;
  }

  lemma TallyOfNone(base: seq<Json>, parseUrl: string -> Option<Url>)
    ensures TallyOf(base, parseUrl, []) == Tally(0, 0, []) && NewCount(base, []) == 0
  {
  }

  /** `addedKnown + changedData + concerns.length` is exactly the number of head entries equivalent to no base entry. */
  lemma {:induction false} DiffCountsNew(base: seq<Json>, head: seq<Json>, parseUrl: string -> Option<Url>)
    requires (forall i :: 0 <= i < |head| ==> WellFormed(head[i])) && (forall b | b in base :: WellFormed(b))
    ensures var t := TallyOf(base, parseUrl, head);
            t.known + t.data + |t.concerns| == NewCount(base, head)
  {
    hide TallyOf, Unmatched, IsNew, WellFormed;
    if head == [] {
      TallyOfNone(base, parseUrl);
    } else {
      var n := |head| - 1;
      DiffCountsNew(base, head[..n], parseUrl);
      TallyStep(base, parseUrl, head);
      UnmatchedIffNew(base, head[n]);
    }
  }

  /** The concerns are the new entries that are neither known downloads nor inline data, in file order. */
  function Concerning(base: seq<Json>, parseUrl: string -> Option<Url>): Json -> bool {
    (e: Json) => Unmatched(base)(e) && !Classify(e, parseUrl).Known? && !Classify(e, parseUrl).Data?
  }

  lemma {:induction false} ConcernsInOrder(base: seq<Json>, head: seq<Json>, parseUrl: string -> Option<Url>)
    ensures TallyOf(base, parseUrl, head).concerns == Map(ConcernOf(parseUrl), Filter(Concerning(base, parseUrl), head))
  {
    hide Canonical, Classify, Label;
    if head != [] {
      var n := |head| - 1;
      ConcernsInOrder(base, head[..n], parseUrl);
      assert head[..n + 1] == head;
      FilterStep(Concerning(base, parseUrl), head, n);
    }
  }

  /** Base entries that no head entry and no earlier base entry is equivalent to. */
  ghost function RemovedCount(base: seq<Json>, head: seq<Json>): nat {
    if base == [] then 0
    else
      var n := |base| - 1;
      (if IsNew(head, base[n]) && IsNew(base[..n], base[n]) then 1 else 0) + RemovedCount(base[..n], head)
  }

  lemma CanonicalSetStep(base: seq<Json>)
    requires base != []
    ensures CanonicalSet(base) == CanonicalSet(base[..|base| - 1]) + {Canonical(base[|base| - 1])}
  {
    hide Canonical;
    assert base == base[..|base| - 1] + [base[|base| - 1]];
  }

  lemma CanonicalSetOfNone()
    ensures CanonicalSet([]) == {}
  {
  }

  /** `removed` counts the classes of base entries that are gone at head. */
  lemma {:induction false} RemovedMeans(base: seq<Json>, head: seq<Json>)
    requires (forall e | e in head :: WellFormed(e)) && (forall i :: 0 <= i < |base| ==> WellFormed(base[i]))
    ensures |CanonicalSet(base) - CanonicalSet(head)| == RemovedCount(base, head)
  {
    hide Canonical, WellFormed, IsNew, CanonicalSet;
    if base == [] {
      CanonicalSetOfNone();
    } else {
      var n := |base| - 1;
      var last := Canonical(base[n]);
      RemovedMeans(base[..n], head);
      UnmatchedIffNew(head, base[n]);
      UnmatchedIffNew(base[..n], base[n]);
      var before := CanonicalSet(base[..n]) - CanonicalSet(head);
      CanonicalSetStep(base);
      assert CanonicalSet(base) - CanonicalSet(head) == if last in CanonicalSet(head) then before else before + {last};
      assert IsNew(head, base[n]) <==> last !in CanonicalSet(head);
      assert IsNew(base[..n], base[n]) <==> last !in CanonicalSet(base[..n]);
      if last in CanonicalSet(base[..n]) && last !in CanonicalSet(head) {
        assert before + {last} == before;
      }
    }
  }

  // ---- Overflowed numbers ----

  ghost predicate AllWellFormed(entries: seq<Json>) {
    forall i :: 0 <= i < |entries| ==> WellFormed(entries[i])
  }

  ghost predicate AllFinite(entries: seq<Json>) {
    forall i :: 0 <= i < |entries| ==> Finite(entries[i])
  }

  /** No base entry is the same parsed tree. */
  ghost predicate IsNewTree(base: seq<Json>, e: Json) {
    forall b | b in base :: !SameTree(b, e)
  }

  ghost function NewTreeCount(base: seq<Json>, entries: seq<Json>): nat {
    if entries == [] then 0
    else
      var n := |entries| - 1;
      NewTreeCount(base, entries[..n]) + (if IsNewTree(base, entries[n]) then 1 else 0)
  }

  ghost function RemovedTreeCount(base: seq<Json>, head: seq<Json>): nat {
    if base == [] then 0
    else
      var n := |base| - 1;
      (if IsNewTree(head, base[n]) && IsNewTree(base[..n], base[n]) then 1 else 0) + RemovedTreeCount(base[..n], head)
  }

  /** What the text calls new is a new tree; between finite entries the two agree. */
  lemma NewIsNewTree(base: seq<Json>, e: Json)
    requires WellFormed(e) && AllWellFormed(base)
    ensures IsNew(base, e) ==> IsNewTree(base, e)
    ensures Finite(e) && AllFinite(base) ==> (IsNew(base, e) <==> IsNewTree(base, e))
  {
    hide Canonical, Equivalent, SameTree, WellFormed, Finite;
    forall b | b in base
      ensures SameTree(b, e) ==> Equivalent(b, e)
      ensures Finite(e) && AllFinite(base) ==> (Equivalent(b, e) <==> SameTree(b, e))
    {
      CanonicalIffEquivalent(b, e);
      SameTreeText(b, e);
    }
  }

  /** An entry with an overflowed number hides behind the finite entry its text shows. */
  lemma HiddenBehind(e: Json)
    requires WellFormed(e) && !Finite(e)
    ensures var base := [Settled(e)];
            AllWellFormed(base) && AllFinite(base) && !IsNew(base, e) && IsNewTree(base, e)
  {
    hide Canonical, SameTree, WellFormed, Finite, Settled;
    var s := Settled(e);
    SettledIsFinite(e);
    SettledTwice(e);
    if SameTree(s, e) { SameTreeFinite(s, e); }
  }

  lemma SettledTwice(e: Json)
    requires WellFormed(e)
    ensures Equivalent(Settled(e), e) && Equivalent(Settled(e), Settled(e))
  {
    hide SameTree, WellFormed, Finite, Settled, Canonical;
    SettledIsFinite(e);
    SettledIsFinite(Settled(e));
    EquivalentLaws(Settled(e), Settled(e), e);
  }

  lemma {:induction false} CountsOrdered(base: seq<Json>, entries: seq<Json>)
    requires AllWellFormed(base) && AllWellFormed(entries)
    ensures NewCount(base, entries) <= NewTreeCount(base, entries)
    ensures AllFinite(base) && AllFinite(entries) ==> NewCount(base, entries) == NewTreeCount(base, entries)
    ensures (exists i :: 0 <= i < |entries| && !IsNew(base, entries[i]) && IsNewTree(base, entries[i])) ==>
              NewCount(base, entries) < NewTreeCount(base, entries)
  {
    hide IsNew, IsNewTree, WellFormed, Finite;
    if entries != [] {
      var n := |entries| - 1;
      CountsOrdered(base, entries[..n]);
      NewIsNewTree(base, entries[n]);
      if i :| 0 <= i < n && !IsNew(base, entries[i]) && IsNewTree(base, entries[i]) {
        assert entries[..n][i] == entries[i];
      }
    }
  }

  /** The exact condition: against every finite base, new trees are counted right iff no number overflowed. */
  lemma CountsTreesIff(head: seq<Json>, parseUrl: string -> Option<Url>)
    requires AllWellFormed(head)
    ensures AllFinite(head) <==>
            forall base | AllWellFormed(base) && AllFinite(base) ::
              var t := TallyOf(base, parseUrl, head);
              t.known + t.data + |t.concerns| == NewTreeCount(base, head)
  {
    hide IsNew, IsNewTree, WellFormed, Finite, TallyOf, Settled, SameTree;
    forall base | AllWellFormed(base) && AllFinite(base)
      ensures var t := TallyOf(base, parseUrl, head); t.known + t.data + |t.concerns| == NewCount(base, head)
      ensures AllFinite(head) ==> NewCount(base, head) == NewTreeCount(base, head)
    {
      DiffCountsNew(base, head, parseUrl);
      CountsOrdered(base, head);
    }
    if i :| 0 <= i < |head| && !Finite(head[i]) {
      var base := [Settled(head[i])];
      HiddenBehind(head[i]);
      CountsOrdered(base, head);
    }
  }

  lemma {:induction false} RemovalsOrdered(base: seq<Json>, head: seq<Json>)
    requires AllWellFormed(base) && AllWellFormed(head)
    ensures RemovedCount(base, head) <= RemovedTreeCount(base, head)
    ensures AllFinite(base) && AllFinite(head) ==> RemovedCount(base, head) == RemovedTreeCount(base, head)
    ensures (exists i :: 0 <= i < |base| && !IsNew(head, base[i]) && IsNewTree(head, base[i])
                         && IsNewTree(base[..i], base[i])) ==>
              RemovedCount(base, head) < RemovedTreeCount(base, head)
  {
    hide IsNew, IsNewTree, WellFormed, Finite;
    if base != [] {
      var n := |base| - 1;
      RemovalsOrdered(base[..n], head);
      NewIsNewTree(head, base[n]);
      NewIsNewTree(base[..n], base[n]);
      if i :| 0 <= i < n && !IsNew(head, base[i]) && IsNewTree(head, base[i]) && IsNewTree(base[..i], base[i]) {
        assert base[..n][i] == base[i] && base[..n][..i] == base[..i];
      }
    }
  }

  lemma {:induction false} FirstOverflow(base: seq<Json>) returns (i: int)
    requires AllWellFormed(base) && !AllFinite(base)
    ensures 0 <= i < |base| && !Finite(base[i]) && IsNewTree(base[..i], base[i])
  {
    hide WellFormed, Finite, SameTree;
    var n := |base| - 1;
    if AllFinite(base[..n]) {
      i := n;
      forall b | b in base[..n] ensures !SameTree(b, base[n]) {
        if SameTree(b, base[n]) { SameTreeFinite(b, base[n]); }
      }
    } else {
      i := FirstOverflow(base[..n]);
      assert base[..n][..i] == base[..i];
    }
  }

  /** Removed trees are counted right, whatever finite head the file is compared with, iff no base number overflowed. */
  lemma RemovalsCountTreesIff(base: seq<Json>)
    requires AllWellFormed(base)
    ensures AllFinite(base) <==>
            forall head | AllWellFormed(head) && AllFinite(head) ::
              |CanonicalSet(base) - CanonicalSet(head)| == RemovedTreeCount(base, head)
  {
    hide IsNew, IsNewTree, WellFormed, Finite, Settled, SameTree, CanonicalSet;
    forall head | AllWellFormed(head) && AllFinite(head)
      ensures |CanonicalSet(base) - CanonicalSet(head)| == RemovedCount(base, head)
      ensures AllFinite(base) ==> RemovedCount(base, head) == RemovedTreeCount(base, head)
    {
      RemovedMeans(base, head);
      RemovalsOrdered(base, head);
    }
    if !AllFinite(base) {
      var i := FirstOverflow(base);
      var head := [Settled(base[i])];
      HiddenBehind(base[i]);
      RemovalsOrdered(base, head);
    }
  }

  const SHELL_WITH_NULL := Object([Member("type", String("shell")), Member("x", Null)])
  const SHELL_WITH_OVERFLOW := Object([Member("type", String("shell")), Member("x", Overflow(true))])

  lemma ShellEntry(x: Json)
    requires x.Null? || x.Overflow?
    ensures var e := Object([Member("type", String("shell")), Member("x", x)]);
            && WellFormed(e) && Str(e, "type") == Some("shell")
            && NormalFields(e.members) == [Field("type", StringLeaf("shell")), Field("x", NullLeaf)]
  {
    var kind, other := Member("type", String("shell")), Member("x", x);
    var members := [kind, other];
    assert members[1..] == [other] && [other][1..] == [];
    assert NormalFields([other]) == [Field("x", NullLeaf)];
    assert Find(members, MemberKey(), "type") == Some(kind);
  }

  lemma ShellTexts()
    ensures Canonical(SHELL_WITH_NULL) == Canonical(SHELL_WITH_OVERFLOW)
  {
    hide Canonical, Print, Normal, NormalFields;
    var a, b := SHELL_WITH_NULL, SHELL_WITH_OVERFLOW;
    ShellEntry(Null);
    ShellEntry(Overflow(true));
    CanonicalIsPrint(a);
    CanonicalIsPrint(b);
    NormalOfObject(a);
    NormalOfObject(b);
  }

  lemma ShellTrees()
    ensures !SameTree(SHELL_WITH_NULL, SHELL_WITH_OVERFLOW)
  {
    var a, b := SHELL_WITH_NULL, SHELL_WITH_OVERFLOW;
    assert a.members[1] in a.members && !Matched(a.members[1], b.members);
  }

  lemma OneKnownText(base: seq<Json>, e: Json, parseUrl: string -> Option<Url>)
    requires base != [] && Canonical(base[0]) == Canonical(e)
    ensures TallyOf(base, parseUrl, [e]) == Tally(0, 0, [])
  {
    hide Canonical, Classify, Label;
    assert base[0] in base;
    assert [e][..0] == [];
  }

  lemma OneEntryParses(e: Json)
    requires e.Object? && Str(e, "type").Some?
    ensures ParseEntries(Parsed(Array([e]))) == Ok([e])
  {
    assert CheckEntries([e]) == CheckEntries([e][1..]);
    assert [e][1..] == [];
  }

  /** `{"type":"shell","x":1e999}` added beside `{"type":"shell","x":null}` is a new executable entry nobody reports. */
  lemma OverflowIsOverlooked(parseUrl: string -> Option<Url>)
    ensures var base, head := [SHELL_WITH_NULL], [SHELL_WITH_OVERFLOW];
            && ParseEntries(Parsed(Array(base))) == Ok(base) && ParseEntries(Parsed(Array(head))) == Ok(head)
            && Classify(head[0], parseUrl) == Executable
            && IsNewTree(base, head[0]) && TallyOf(base, parseUrl, head) == Tally(0, 0, [])
  {
    hide Canonical, SameTree, ParseEntries, TallyOf;
    ShellEntry(Null);
    ShellEntry(Overflow(true));
    OneEntryParses(SHELL_WITH_NULL);
    OneEntryParses(SHELL_WITH_OVERFLOW);
    ShellTexts();
    ShellTrees();
    OneKnownText([SHELL_WITH_NULL], SHELL_WITH_OVERFLOW, parseUrl);
  }

  // ---- package.json ----

  /** Names every object inherits; `in` finds them whether or not the object has them. */
  const INHERITED: set<string> :=
    {"constructor", "__defineGetter__", "__defineSetter__", "hasOwnProperty", "__lookupGetter__", "__lookupSetter__",
     "isPrototypeOf", "propertyIsEnumerable", "toString", "valueOf", "__proto__", "toLocaleString"}

  predicate Owns(members: seq<Member>, key: string) {
    Find(members, MemberKey(), key).Some?
  }

  predicate In(members: seq<Member>, key: string) {
    Owns(members, key) || key in INHERITED
  }

  /** `canonical(obj[key])`: an inherited `__proto__` is an object without keys of its own, the rest are functions. */
  function CanonicalAt(members: seq<Member>, key: string): string {
    match Find(members, MemberKey(), key)
    case Some(m) => Canonical(m.value)
    case None => if key == "__proto__" then "{}" else "undefined"
  }

  function KeysOf(members: seq<Member>): seq<string> {
    Map(MemberKey(), members)
  }

  function ChangedFrom(base: seq<Member>, head: seq<Member>): string -> bool {
    (key: string) => !In(head, key) || CanonicalAt(base, key) != CanonicalAt(head, key)
  }

  function MissingIn(base: seq<Member>): string -> bool {
    (key: string) => !In(base, key)
  }

  /** Base keys that changed or went, then head keys that are new, each in object order. */
  function ChangedKeys(base: seq<Member>, head: seq<Member>): seq<string> {
    Filter(ChangedFrom(base, head), KeysOf(base)) + Filter(MissingIn(base), KeysOf(head))
  }

  lemma NothingChanged(base: seq<Member>, head: seq<Member>)
    ensures Filter(ChangedFrom(base, head), KeysOf(base)[..0]) == [] && Filter(MissingIn(base), KeysOf(head)[..0]) == []
  {
  }

  method ChangedSubKeys(base: seq<Member>, head: seq<Member>) returns (keys: seq<string>)
    ensures keys == ChangedKeys(base, head)
  {
    hide Canonical, CanonicalAt, In, Filter;
    NothingChanged(base, head);
    keys := [];
    for i := 0 to |base|
      invariant keys == Filter(ChangedFrom(base, head), KeysOf(base)[..i])
    {
      FilterStep(ChangedFrom(base, head), KeysOf(base), i);
      assert keys + [] == keys;
      var key := base[i].key;
      if !In(head, key) {
        keys := keys + [key];
      } else if CanonicalAt(base, key) != CanonicalAt(head, key) {
        keys := keys + [key];
      }
    }
    assert KeysOf(base)[..|base|] == KeysOf(base);
    ghost var first := keys;
    for i := 0 to |head|
      invariant keys == first + Filter(MissingIn(base), KeysOf(head)[..i])
    {
      FilterStep(MissingIn(base), KeysOf(head), i);
      ghost var added := Filter(MissingIn(base), KeysOf(head)[..i]);
      assert first + (added + [head[i].key]) == keys + [head[i].key] && added + [] == added;
      if !In(base, head[i].key) {
        keys := keys + [head[i].key];
      }
    }
    assert KeysOf(head)[..|head|] == KeysOf(head);
  }

  /** The two objects disagree on `key`: one side lacks it, or the values are not the same tree up to key order. */
  ghost predicate Differs(base: seq<Member>, head: seq<Member>, key: string) {
    var b, h := Find(base, MemberKey(), key), Find(head, MemberKey(), key);
    b.Some? != h.Some? || (b.Some? && !Equivalent(b.value.value, h.value.value))
  }

  ghost predicate ParsedObject(members: seq<Member>) {
    WellFormed(Object(members))
  }

  /**
   * A differing key is reported unless the other side's prototype hides the difference: a key added at head under an
   * inherited name, or a removed `__proto__` that held the empty object.
   */
  lemma ReportedIff(base: seq<Member>, head: seq<Member>, key: string)
    requires ParsedObject(base) && ParsedObject(head)
    ensures key in ChangedKeys(base, head)
       <==> && Differs(base, head, key)
            && !(key in INHERITED && !Owns(base, key))
            && !(key == "__proto__" && !Owns(head, key) && CanonicalAt(base, key) == "{}")
  {
    hide Canonical, Equivalent;
    KeysOwned(base, key);
    KeysOwned(head, key);
    FindSound(base, MemberKey(), key);
    FindSound(head, MemberKey(), key);
    if Owns(base, key) && Owns(head, key) {
      CanonicalIffEquivalent(Find(base, MemberKey(), key).value.value, Find(head, MemberKey(), key).value.value);
    }
    if Owns(base, key) {
      NeverUndefined(Find(base, MemberKey(), key).value.value);
    }
  }

  /** The two objects disagree on `key` as parsed trees. */
  ghost predicate TreesDiffer(base: seq<Member>, head: seq<Member>, key: string) {
    var b, h := Find(base, MemberKey(), key), Find(head, MemberKey(), key);
    b.Some? != h.Some? || (b.Some? && !SameTree(b.value.value, h.value.value))
  }

  ghost predicate FiniteAt(members: seq<Member>, key: string) {
    Owns(members, key) ==> Finite(Find(members, MemberKey(), key).value.value)
  }

  /** Without an overflowed number under the key, differing means differing as parsed trees. */
  lemma DiffersAsTrees(base: seq<Member>, head: seq<Member>, key: string)
    requires ParsedObject(base) && ParsedObject(head)
    ensures Differs(base, head, key) ==> TreesDiffer(base, head, key)
    ensures FiniteAt(base, key) && FiniteAt(head, key) ==> (Differs(base, head, key) <==> TreesDiffer(base, head, key))
  {
    hide Canonical, Equivalent, SameTree, Finite;
    KeysOwned(base, key);
    KeysOwned(head, key);
    if Owns(base, key) && Owns(head, key) {
      var b, h := Find(base, MemberKey(), key).value.value, Find(head, MemberKey(), key).value.value;
      CanonicalIffEquivalent(b, h);
      SameTreeText(b, h);
    }
  }

  /** A setting changed from null to an overflowed number goes unreported. */
  lemma OverflowIsNotReported(key: string)
    ensures var base, head := [Member(key, Null)], [Member(key, Overflow(true))];
            && TreesDiffer(base, head, key)
            && key !in ChangedKeys(base, head)
  {
    var base, head := [Member(key, Null)], [Member(key, Overflow(true))];
    assert Find(base, MemberKey(), key) == Some(base[0]) && Find(head, MemberKey(), key) == Some(head[0]);
    assert Canonical(Null) == Canonical(Overflow(true)) == "null";
  }

  lemma KeysOwned(members: seq<Member>, key: string)
    ensures key in KeysOf(members) <==> Owns(members, key)
    ensures ParsedObject(members) && Owns(members, key) ==> WellFormed(Find(members, MemberKey(), key).value.value)
  {
    FindSound(members, MemberKey(), key);
    if key in KeysOf(members) {
      var i :| 0 <= i < |members| && KeysOf(members)[i] == key;
      assert members[i] in members;
    }
    if m :| m in members && m.key == key {
      var i :| 0 <= i < |members| && members[i] == m;
      assert KeysOf(members)[i] == key;
    }
  }

  /** The family is not empty: a script named `toString` added at head goes unreported. */
  lemma AddedInheritedNameIsMissed()
    ensures var head := [Member("toString", String("run me"))];
            && Differs([], head, "toString")
            && "toString" !in ChangedKeys([], head)
  {
    var head := [Member("toString", String("run me"))];
    assert Find(head, MemberKey(), "toString") == Some(head[0]);
  }

  /** `canonical(obj?.['packageManager'])`, where a missing value prints as `undefined`. */
  function PackageManager(obj: Option<Json>): string {
    match obj
    case None => "undefined"
    case Some(o) => match Get(o, "packageManager") case Some(v) => Canonical(v) case None => "undefined"
  }

  function MembersAt(obj: Option<Json>, key: string): seq<Member> {
    match obj
    case None => []
    case Some(o) => match Get(o, key) case Some(Object(members)) => members case _ => []
  }

  function ParseObject(text: Text): Result<Option<Json>, DiffError> {
    match text
    case Absent => Ok(None)
    case Malformed => Err(NotJson)
    case Parsed(v) =>
      if !v.Object? then Err(NotObject)
      else if IsError(v) then Err(ErrorMember(Str(v, "error").value))
      else Ok(Some(v))
  }

  /** `isError` of a parsed object: it cannot tell the parser's error from a file with a text member of that name. */
  predicate IsError(v: Json) {
    Str(v, "error").Some?
  }

  /** The side that makes the comparison fail. */
  predicate Unreadable(text: Text) {
    text.Malformed? || (text.Parsed? && (!text.value.Object? || Str(text.value, "error").Some?))
  }

  function Prefixed(prefix: string): string -> string {
    (key: string) => prefix + key
  }

  /** `diffPackageJson`: the changed `scripts.*` and `pnpm.*` keys, and whether `packageManager` changed. */
  method DiffPackageJson(base: Text, head: Text) returns (r: Result<seq<string>, DiffError>)
    ensures r.Err? <==> Unreadable(base) || Unreadable(head)
    ensures r.Err? ==> r.error == if Unreadable(base) then ParseObject(base).error else ParseObject(head).error
    ensures r.Ok? ==>
              var b, h := ParseObject(base).value, ParseObject(head).value;
              r.value == Map(Prefixed("scripts."), ChangedKeys(MembersAt(b, "scripts"), MembersAt(h, "scripts")))
                         + Map(Prefixed("pnpm."), ChangedKeys(MembersAt(b, "pnpm"), MembersAt(h, "pnpm")))
                         + (if PackageManager(b) != PackageManager(h) then ["packageManager"] else [])
  {
    hide Canonical;
    var b, h := ParseObject(base), ParseObject(head);
    if b.Err? { return Err(b.error); }
    if h.Err? { return Err(h.error); }
    var scripts := ChangedSubKeys(MembersAt(b.value, "scripts"), MembersAt(h.value, "scripts"));
    var pnpm := ChangedSubKeys(MembersAt(b.value, "pnpm"), MembersAt(h.value, "pnpm"));
    var keys := Map(Prefixed("scripts."), scripts) + Map(Prefixed("pnpm."), pnpm);
    if PackageManager(b.value) != PackageManager(h.value) {
      keys := keys + ["packageManager"];
    }
    r := Ok(keys);
  }

  /** `obj?.[key]`. */
  function At(obj: Option<Json>, key: string): Option<Json> {
    if obj.Some? then Get(obj.value, key) else None
  }

  /** `packageManager` is reported exactly when one side lacks it, with or without the file, or the values differ. */
  lemma PackageManagerIff(a: Option<Json>, b: Option<Json>)
    requires (a.Some? ==> WellFormed(a.value)) && (b.Some? ==> WellFormed(b.value))
    ensures PackageManager(a) != PackageManager(b)
       <==> var x, y := At(a, "packageManager"), At(b, "packageManager");
            x.Some? != y.Some? || (x.Some? && !Equivalent(x.value, y.value))
  {
    hide Canonical, Equivalent, WellFormed;
    if a.Some? { GetWellFormed(a.value, "packageManager"); }
    if b.Some? { GetWellFormed(b.value, "packageManager"); }
    var x, y := At(a, "packageManager"), At(b, "packageManager");
    if x.Some? { NeverUndefined(x.value); }
    if y.Some? { NeverUndefined(y.value); }
    if x.Some? && y.Some? { CanonicalIffEquivalent(x.value, y.value); }
  }

  /** A well-formed `package.json` with a text member `error` is refused like an unreadable one. */
  lemma ErrorMemberIsRefused()
    ensures var file := Object([Member("error", String("x"))]);
            WellFormed(file) && Unreadable(Parsed(file)) && ParseObject(Parsed(file)) == Err(ErrorMember("x"))
  {
    var file := Object([Member("error", String("x"))]);
    assert Find(file.members, MemberKey(), "error") == Some(Member("error", String("x")));
  }
}
