// `parseDocument`: what a fetched directory document must be before the hub stores it.
module HubValidate {
  import opened Prelude
  import opened Merge
  import opened Json
  import opened HubDocument

  const MAX_SPACES := 200
  const MAX_NAME_LENGTH := 100
  const MAX_DESCRIPTION_LENGTH := 200
  const MAX_INSTANCE_NAME_LENGTH := 100
  const MAX_MEMBER_COUNT := 1_000_000_000
  const MAX_SAFE_INTEGER := 9_007_199_254_740_991
  const MAX_DOCUMENT_BYTES := 512 * 1024

  const AVATAR_COLORS := ["mint", "sky", "lavender", "coral", "rose", "teal", "amber"]

  type UrlParser = string -> Option<Url>

  datatype Refusal = Invalid | OriginMismatch

  /** `isNonNegativeInteger`: the number itself when it is an integer in range. */
  function NaturalUpTo(v: Option<Json>, max: nat): Option<nat> {
    match v
    case Some(NegativeZero) => Some(0)
    case Some(Number(text)) =>
      if (forall c | c in text :: '0' <= c <= '9') && 0 <= NatValue(text) <= max then Some(NatValue(text)) else None
    case _ => None
  }

  predicate AssetUrl(v: Option<Json>, origin: string, parseUrl: UrlParser) {
    match v
    case Some(Null) => true
    case Some(String(s)) =>
      (match parseUrl(s)
       case None => false
       case Some(u) => u.protocol == "https:" && u.origin == origin && |u.pathname| > 1)
    case _ => false
  }

  function TextOf(v: Option<Json>): Option<string> {
    match v
    case Some(String(s)) => Some(s)
    case _ => None
  }

  function ParseSpace(raw: Json, origin: string, parseUrl: UrlParser): Option<Space> {
    if !raw.Object? then None
    else
      var id, name := Str(raw, "id"), Str(raw, "name");
      var description := Get(raw, "description");
      var icon, banner := Get(raw, "icon"), Get(raw, "banner");
      var visibility := Str(raw, "visibility");
      var members := NaturalUpTo(Get(raw, "memberCount"), MAX_MEMBER_COUNT);
      var created := NaturalUpTo(Get(raw, "createdAt"), MAX_SAFE_INTEGER);
      var color := Str(raw, "avatarColor");
      if id.None? || id.value == "" then None
      else if name.None? || name.value == "" || |name.value| > MAX_NAME_LENGTH then None
      else if description != Some(Null)
              && (TextOf(description).None? || |TextOf(description).value| > MAX_DESCRIPTION_LENGTH) then None
      else if !AssetUrl(icon, origin, parseUrl) || !AssetUrl(banner, origin, parseUrl) then None
      else if visibility != Some("public") && visibility != Some("request") then None
      else if members.None? || created.None? then None
      else Some(Space(id.value, name.value, TextOf(description), TextOf(icon), TextOf(banner),
                      if color.Some? && color.value in AVATAR_COLORS then color else None,
                      if visibility == Some("public") then Public else Request, members.value, created.value))
  }

  predicate VersionText(s: string) {
    1 <= |s| <= 32 && forall c | c in s ::
      '0' <= c <= '9' || 'A' <= c <= 'Z' || 'a' <= c <= 'z' || c == '.' || c == '+' || c == '-'
  }

  /** Everything `parseDocument` checks before it looks at the spaces. */
  function CheckHead(v: Json, expectedOrigin: string, parseUrl: UrlParser): Result<Document, Refusal> {
    if !v.Object? || Get(v, "schema") != Some(Number("1")) then Err(Invalid)
    else
      var origin := Str(v, "origin");
      if origin.None? || parseUrl(origin.value).None? then Err(Invalid)
      else if parseUrl(origin.value).value.origin != expectedOrigin then Err(OriginMismatch)
      else match Get(v, "instance")
        case Some(Object(members)) =>
          var instance := Object(members);
          var name, open := Str(instance, "name"), Get(instance, "federatedRegistrationOpen");
          var version := Get(instance, "version");
          if name.None? || |name.value| > MAX_INSTANCE_NAME_LENGTH then Err(Invalid)
          else if open.None? || !open.value.Bool? then Err(Invalid)
          else if version.Some? && version != Some(Null)
                  && (TextOf(version).None? || !VersionText(TextOf(version).value)) then Err(Invalid)
          else (match Get(v, "spaces")
                case Some(Array(items)) =>
                  if |items| > MAX_SPACES then Err(Invalid)
                  else Ok(Document(name.value, open.value.b, TextOf(version), []))
                case _ => Err(Invalid))
        case _ => Err(Invalid)
  }

  function RawSpaces(v: Json): seq<Json> {
    match Get(v, "spaces")
    case Some(Array(items)) => items
    case _ => []
  }

  ghost predicate AllParse(items: seq<Json>, origin: string, parseUrl: UrlParser) {
    forall i :: 0 <= i < |items| ==> ParseSpace(items[i], origin, parseUrl).Some?
  }

  ghost predicate DistinctParsedIds(items: seq<Json>, origin: string, parseUrl: UrlParser)
    requires AllParse(items, origin, parseUrl)
  {
    forall i, j :: 0 <= i < j < |items| ==>
      ParseSpace(items[i], origin, parseUrl).value.id != ParseSpace(items[j], origin, parseUrl).value.id
  }

  /** A stored space keeps every bound the feed promises. */
  ghost predicate Bounded(s: Space) {
    && s.id != "" && 1 <= |s.name| <= MAX_NAME_LENGTH
    && (s.description.Some? ==> |s.description.value| <= MAX_DESCRIPTION_LENGTH)
    && s.memberCount <= MAX_MEMBER_COUNT && s.createdAt <= MAX_SAFE_INTEGER
    && (s.avatarColor.Some? ==> s.avatarColor.value in AVATAR_COLORS)
  }

  ghost predicate OnOrigin(url: Option<string>, origin: string, parseUrl: UrlParser) {
    url.Some? ==> parseUrl(url.value).Some? && parseUrl(url.value).value.origin == origin
                  && parseUrl(url.value).value.protocol == "https:"
  }

  lemma ParsedSpaceBounded(raw: Json, origin: string, parseUrl: UrlParser)
    requires ParseSpace(raw, origin, parseUrl).Some?
    ensures Bounded(ParseSpace(raw, origin, parseUrl).value)
    ensures OnOrigin(ParseSpace(raw, origin, parseUrl).value.icon, origin, parseUrl)
    ensures OnOrigin(ParseSpace(raw, origin, parseUrl).value.banner, origin, parseUrl)
  {
  }

  // ---- Acceptance and columns, member by member ----

  ghost predicate Digits(text: string) {
    forall c | c in text :: '0' <= c <= '9'
  }

  ghost predicate HoldsCount(raw: Json, key: string, n: nat) {
    || (n == 0 && Holds(raw, key, NegativeZero))
    || (exists text: NumberText :: Holds(raw, key, Number(text)) && Digits(text) && n == NatValue(text))
  }

  lemma CountMeans(raw: Json, key: string, max: nat, n: nat)
    requires WellFormed(raw)
    ensures NaturalUpTo(Get(raw, key), max) == Some(n) <==> HoldsCount(raw, key, n) && n <= max
  {
    GetMeans(raw, key);
    if HoldsCount(raw, key, n) && !Holds(raw, key, NegativeZero) {
      var text: NumberText :| Holds(raw, key, Number(text)) && Digits(text) && n == NatValue(text);
      assert Get(raw, key) == Some(Number(text));
    }
    if Get(raw, key).Some? && Get(raw, key).value.Number? {
      assert Holds(raw, key, Number(Get(raw, key).value.text));
    }
  }

  ghost predicate HoldsTextOrNull(raw: Json, key: string, text: Option<string>) {
    Holds(raw, key, if text.Some? then String(text.value) else Null)
  }

  /** Null, or the text of an https URL on the origin with a path below it. */
  ghost predicate HoldsAsset(raw: Json, key: string, url: Option<string>, origin: string, parseUrl: UrlParser) {
    && HoldsTextOrNull(raw, key, url)
    && (url.Some? ==>
          exists u :: parseUrl(url.value) == Some(u)
                      && u.protocol == "https:" && u.origin == origin && |u.pathname| >= 2)
  }

  lemma AssetMeans(raw: Json, key: string, url: Option<string>, origin: string, parseUrl: UrlParser)
    requires WellFormed(raw)
    ensures AssetUrl(Get(raw, key), origin, parseUrl) && TextOf(Get(raw, key)) == url <==>
            HoldsAsset(raw, key, url, origin, parseUrl)
  {
    GetMeans(raw, key);
  }

  const COLORS: set<string> := {"mint", "sky", "lavender", "coral", "rose", "teal", "amber"}

  /** One of the seven colors, or none where the member is anything else. */
  ghost predicate ColorOf(raw: Json, color: Option<string>) {
    && (color.Some? ==> color.value in COLORS && Holds(raw, "avatarColor", String(color.value)))
    && (color.None? ==> forall c | c in COLORS :: !Holds(raw, "avatarColor", String(c)))
  }

  lemma ColorMeans(raw: Json, color: Option<string>)
    requires WellFormed(raw)
    ensures ColorOf(raw, color) <==>
            var held := Str(raw, "avatarColor");
            color == if held.Some? && held.value in AVATAR_COLORS then held else None
  {
    GetMeans(raw, "avatarColor");
    assert forall c :: c in COLORS <==> c in AVATAR_COLORS;
  }

  /** The space a raw object stands for: each column is the object's member of that name, within its bounds. */
  ghost predicate SpaceFrom(raw: Json, origin: string, parseUrl: UrlParser, s: Space) {
    && Holds(raw, "id", String(s.id)) && s.id != ""
    && Holds(raw, "name", String(s.name)) && 1 <= |s.name| <= 100
    && HoldsTextOrNull(raw, "description", s.description)
    && (s.description.Some? ==> |s.description.value| <= 200)
    && HoldsAsset(raw, "icon", s.icon, origin, parseUrl)
    && HoldsAsset(raw, "banner", s.banner, origin, parseUrl)
    && ColorOf(raw, s.avatarColor)
    && Holds(raw, "visibility", String(if s.visibility.Public? then "public" else "request"))
    && HoldsCount(raw, "memberCount", s.memberCount) && s.memberCount <= 1_000_000_000
    && HoldsCount(raw, "createdAt", s.createdAt) && s.createdAt <= 9_007_199_254_740_991
  }

  /** A raw space is accepted as `s` iff every column of `s` is what the object holds: nothing else is refused. */
  lemma SpaceIff(raw: Json, origin: string, parseUrl: UrlParser, s: Space)
    requires WellFormed(raw)
    ensures ParseSpace(raw, origin, parseUrl) == Some(s) <==> SpaceFrom(raw, origin, parseUrl, s)
  {
    hide Holds, HoldsCount, HoldsAsset, ColorOf, NaturalUpTo, AssetUrl, Get, WellFormed;
    GetMeans(raw, "id");
    GetMeans(raw, "name");
    GetMeans(raw, "description");
    GetMeans(raw, "visibility");
    AssetMeans(raw, "icon", s.icon, origin, parseUrl);
    AssetMeans(raw, "banner", s.banner, origin, parseUrl);
    ColorMeans(raw, s.avatarColor);
    CountMeans(raw, "memberCount", MAX_MEMBER_COUNT, s.memberCount);
    CountMeans(raw, "createdAt", MAX_SAFE_INTEGER, s.createdAt);
    NotObject(raw);
  }

  ghost predicate HoldsText(raw: Json, key: string, min: nat, max: nat) {
    exists text :: min <= |text| <= max && Holds(raw, key, String(text))
  }

  ghost predicate HoldsSomeAsset(raw: Json, key: string, origin: string, parseUrl: UrlParser) {
    exists url :: HoldsAsset(raw, key, url, origin, parseUrl)
  }

  ghost predicate HoldsCountTo(raw: Json, key: string, max: nat) {
    exists n: nat :: n <= max && HoldsCount(raw, key, n)
  }

  ghost predicate HoldsId(raw: Json) {
    exists id :: id != "" && Holds(raw, "id", String(id))
  }

  /** Every condition of acceptance, each on one member of the object; an unlisted color refuses nothing. */
  ghost predicate Acceptable(raw: Json, origin: string, parseUrl: UrlParser) {
    && HoldsId(raw)
    && HoldsText(raw, "name", 1, 100)
    && (Holds(raw, "description", Null) || HoldsText(raw, "description", 0, 200))
    && HoldsSomeAsset(raw, "icon", origin, parseUrl)
    && HoldsSomeAsset(raw, "banner", origin, parseUrl)
    && (Holds(raw, "visibility", String("public")) || Holds(raw, "visibility", String("request")))
    && HoldsCountTo(raw, "memberCount", 1_000_000_000)
    && HoldsCountTo(raw, "createdAt", 9_007_199_254_740_991)
  }

  lemma SpaceAcceptedIff(raw: Json, origin: string, parseUrl: UrlParser)
    requires WellFormed(raw)
    ensures ParseSpace(raw, origin, parseUrl).Some? <==> Acceptable(raw, origin, parseUrl)
  {
    hide ParseSpace, SpaceFrom, Acceptable, WellFormed;
    var parsed := ParseSpace(raw, origin, parseUrl);
    if parsed.Some? {
      SpaceIff(raw, origin, parseUrl, parsed.value);
      SpaceIsAcceptable(raw, origin, parseUrl, parsed.value);
    }
    if Acceptable(raw, origin, parseUrl) {
      var s := SpaceOf(raw, origin, parseUrl);
      SpaceIff(raw, origin, parseUrl, s);
    }
  }

  lemma SpaceIsAcceptable(raw: Json, origin: string, parseUrl: UrlParser, s: Space)
    requires SpaceFrom(raw, origin, parseUrl, s)
    ensures Acceptable(raw, origin, parseUrl)
  {
    hide Holds, HoldsCount, HoldsAsset, ColorOf;
  }

  lemma SomeColor(raw: Json) returns (color: Option<string>)
    requires WellFormed(raw)
    ensures ColorOf(raw, color)
  {
    var held := Str(raw, "avatarColor");
    color := if held.Some? && held.value in AVATAR_COLORS then held else None;
    ColorMeans(raw, color);
  }

  lemma SomeDescription(raw: Json) returns (d: Option<string>)
    requires Holds(raw, "description", Null) || HoldsText(raw, "description", 0, 200)
    ensures HoldsTextOrNull(raw, "description", d) && (d.Some? ==> |d.value| <= 200)
  {
    hide Holds;
    d := None;
    if !Holds(raw, "description", Null) {
      var text :| 0 <= |text| <= 200 && Holds(raw, "description", String(text));
      d := Some(text);
    }
  }

  lemma SpaceOf(raw: Json, origin: string, parseUrl: UrlParser) returns (s: Space)
    requires WellFormed(raw) && Acceptable(raw, origin, parseUrl)
    ensures SpaceFrom(raw, origin, parseUrl, s)
  {
    hide Holds, HoldsCount, HoldsAsset, WellFormed, ColorOf, HoldsTextOrNull;
    var id :| id != "" && Holds(raw, "id", String(id));
    var name :| 1 <= |name| <= 100 && Holds(raw, "name", String(name));
    var description := SomeDescription(raw);
    var icon :| HoldsAsset(raw, "icon", icon, origin, parseUrl);
    var banner :| HoldsAsset(raw, "banner", banner, origin, parseUrl);
    var members: nat :| members <= 1_000_000_000 && HoldsCount(raw, "memberCount", members);
    var created: nat :| created <= 9_007_199_254_740_991 && HoldsCount(raw, "createdAt", created);
    var color := SomeColor(raw);
    var visibility := if Holds(raw, "visibility", String("public")) then Public else Request;
    s := Space(id, name, description, icon, banner, color, visibility, members, created);
  }

  lemma NotObject(raw: Json)
    ensures forall key, value :: Holds(raw, key, value) ==> raw.Object?
  {
  }

  ghost predicate HoldsVersion(instance: Json, version: Option<string>) {
    if version.None? then Lacks(instance, "version") || Holds(instance, "version", Null)
    else Holds(instance, "version", String(version.value)) && 1 <= |version.value| <= 32 &&
         forall c | c in version.value ::
           '0' <= c <= '9' || 'A' <= c <= 'Z' || 'a' <= c <= 'z' || c in {'.', '+', '-'}
  }

  ghost predicate HoldsOrigin(v: Json, parseUrl: UrlParser, origin: string) {
    exists text, u :: Holds(v, "origin", String(text)) && parseUrl(text) == Some(u) && u.origin == origin
  }

  ghost predicate InstanceFrom(instance: Json, name: string, open: bool, version: Option<string>) {
    && instance.Object?
    && Holds(instance, "name", String(name)) && |name| <= 100
    && Holds(instance, "federatedRegistrationOpen", Bool(open))
    && HoldsVersion(instance, version)
  }

  ghost predicate HoldsInstance(v: Json, doc: Document) {
    exists instance :: Holds(v, "instance", instance)
                       && InstanceFrom(instance, doc.instanceName, doc.federatedRegistrationOpen, doc.version)
  }

  ghost predicate HoldsSpaces(v: Json, items: seq<Json>) {
    Holds(v, "spaces", Array(items)) && |items| <= 200
  }

  /** The instance columns of a document: each is the member of that name, and the feed is schema 1 of this origin. */
  ghost predicate HeadFrom(v: Json, origin: string, parseUrl: UrlParser, doc: Document) {
    && Holds(v, "schema", Number("1"))
    && HoldsOrigin(v, parseUrl, origin)
    && HoldsInstance(v, doc)
    && exists items :: HoldsSpaces(v, items)
  }

  lemma VersionMeans(instance: Json, version: Option<string>)
    requires WellFormed(instance)
    ensures HoldsVersion(instance, version) <==>
            var held := Get(instance, "version");
            && (held.None? || held == Some(Null) || (TextOf(held).Some? && VersionText(TextOf(held).value)))
            && TextOf(held) == version
  {
    hide Holds, Lacks, Get;
    GetMeans(instance, "version");
  }

  lemma InstanceMeans(v: Json, doc: Document)
    requires WellFormed(v)
    ensures HoldsInstance(v, doc) <==>
            Get(v, "instance").Some? &&
            InstanceFrom(Get(v, "instance").value, doc.instanceName, doc.federatedRegistrationOpen, doc.version)
  {
    hide Holds, InstanceFrom;
    GetMeans(v, "instance");
  }

  lemma OriginMeans(v: Json, parseUrl: UrlParser, origin: string)
    requires WellFormed(v)
    ensures HoldsOrigin(v, parseUrl, origin) <==>
            var text := Str(v, "origin");
            text.Some? && parseUrl(text.value).Some? && parseUrl(text.value).value.origin == origin
  {
    hide Holds;
    GetMeans(v, "origin");
  }

  lemma SpacesMean(v: Json)
    requires WellFormed(v)
    ensures (exists items :: HoldsSpaces(v, items)) <==>
            var spaces := Get(v, "spaces");
            spaces.Some? && spaces.value.Array? && |spaces.value.items| <= MAX_SPACES
    ensures forall items :: HoldsSpaces(v, items) ==> RawSpaces(v) == items
  {
    hide Holds;
    forall items ensures HoldsSpaces(v, items) <==> Get(v, "spaces") == Some(Array(items)) && |items| <= MAX_SPACES {
      GetHolds(v, "spaces", Array(items));
    }
    if Get(v, "spaces").Some? && Get(v, "spaces").value.Array? {
      assert Get(v, "spaces") == Some(Array(Get(v, "spaces").value.items));
    }
  }

  lemma InstanceFields(instance: Json, name: string, open: bool, version: Option<string>)
    requires WellFormed(instance)
    ensures InstanceFrom(instance, name, open, version) <==>
            && instance.Object? && Str(instance, "name") == Some(name) && |name| <= MAX_INSTANCE_NAME_LENGTH
            && Get(instance, "federatedRegistrationOpen") == Some(Bool(open)) && HoldsVersion(instance, version)
  {
    hide Holds, HoldsVersion;
    GetMeans(instance, "name");
    GetMeans(instance, "federatedRegistrationOpen");
  }

  /** The checks in a row, read off the members. */
  ghost predicate HeadReads(v: Json, origin: string, parseUrl: UrlParser, doc: Document) {
    var text, instance, spaces := Str(v, "origin"), Get(v, "instance"), Get(v, "spaces");
    && v.Object? && Get(v, "schema") == Some(Number("1"))
    && text.Some? && parseUrl(text.value).Some? && parseUrl(text.value).value.origin == origin
    && instance.Some? && instance.value.Object?
    && Str(instance.value, "name") == Some(doc.instanceName) && |doc.instanceName| <= MAX_INSTANCE_NAME_LENGTH
    && Get(instance.value, "federatedRegistrationOpen") == Some(Bool(doc.federatedRegistrationOpen))
    && (var held := Get(instance.value, "version");
        && (held.None? || held == Some(Null) || (TextOf(held).Some? && VersionText(TextOf(held).value)))
        && TextOf(held) == doc.version)
    && spaces.Some? && spaces.value.Array? && |spaces.value.items| <= MAX_SPACES
  }

  lemma HeadUnfolds(v: Json, origin: string, parseUrl: UrlParser, doc: Document)
    ensures CheckHead(v, origin, parseUrl) == Ok(doc) <==> HeadReads(v, origin, parseUrl, doc) && doc.spaces == []
  {
    hide Get, VersionText;
  }

  /** The head is accepted with these columns iff each is what the parsed text holds. */
  lemma HeadIff(v: Json, origin: string, parseUrl: UrlParser, doc: Document)
    requires WellFormed(v)
    ensures CheckHead(v, origin, parseUrl) == Ok(doc) <==> HeadFrom(v, origin, parseUrl, doc) && doc.spaces == []
  {
    hide Holds, HoldsOrigin, HoldsInstance, HoldsSpaces, InstanceFrom, HoldsVersion, Get, VersionText, WellFormed;
    hide CheckHead, Str, TextOf;
    HeadUnfolds(v, origin, parseUrl, doc);
    HeadMembers(v, origin, parseUrl, doc);
  }

  lemma HeadMembers(v: Json, origin: string, parseUrl: UrlParser, doc: Document)
    requires WellFormed(v)
    ensures HeadReads(v, origin, parseUrl, doc) <==> HeadFrom(v, origin, parseUrl, doc)
  {
    hide Holds, HoldsOrigin, HoldsInstance, HoldsSpaces, Get, VersionText, WellFormed, Str, TextOf;
    GetHolds(v, "schema", Number("1"));
    OriginMeans(v, parseUrl, origin);
    InstanceReads(v, doc);
    SpacesMean(v);
    NotObject(v);
  }

  lemma InstanceReads(v: Json, doc: Document)
    requires WellFormed(v)
    ensures HoldsInstance(v, doc) <==>
            var instance := Get(v, "instance");
            && instance.Some? && instance.value.Object?
            && Str(instance.value, "name") == Some(doc.instanceName) && |doc.instanceName| <= MAX_INSTANCE_NAME_LENGTH
            && Get(instance.value, "federatedRegistrationOpen") == Some(Bool(doc.federatedRegistrationOpen))
            && (var held := Get(instance.value, "version");
                && (held.None? || held == Some(Null) || (TextOf(held).Some? && VersionText(TextOf(held).value)))
                && TextOf(held) == doc.version)
  {
    hide HoldsInstance, InstanceFrom, HoldsVersion, Get, VersionText, WellFormed, Str, TextOf;
    InstanceMeans(v, doc);
    GetWellFormed(v, "instance");
    var instance := Get(v, "instance");
    if instance.Some? {
      InstanceFields(instance.value, doc.instanceName, doc.federatedRegistrationOpen, doc.version);
      VersionMeans(instance.value, doc.version);
    }
  }

  /** Only a document of another origin is refused for it, whatever else is wrong with it. */
  lemma OriginMismatchIff(v: Json, origin: string, parseUrl: UrlParser)
    requires WellFormed(v)
    ensures CheckHead(v, origin, parseUrl) == Err(OriginMismatch) <==>
            && Holds(v, "schema", Number("1"))
            && exists text, u :: Holds(v, "origin", String(text)) && parseUrl(text) == Some(u) && u.origin != origin
  {
    hide Holds, Get, VersionText, WellFormed;
    GetMeans(v, "schema");
    GetMeans(v, "origin");
    NotObject(v);
  }

  ghost predicate SpacesFrom(v: Json, origin: string, parseUrl: UrlParser, spaces: seq<Space>) {
    exists items :: HoldsSpaces(v, items) && EachFrom(items, origin, parseUrl, spaces)
  }

  ghost predicate EachFrom(items: seq<Json>, origin: string, parseUrl: UrlParser, spaces: seq<Space>) {
    |spaces| == |items| && forall i :: 0 <= i < |items| ==> SpaceFrom(items[i], origin, parseUrl, spaces[i])
  }

  /** The document a parsed text stands for: its head, its spaces in order, and no id twice. */
  ghost predicate DocumentFrom(v: Json, origin: string, parseUrl: UrlParser, doc: Document) {
    HeadFrom(v, origin, parseUrl, doc) && SpacesFrom(v, origin, parseUrl, doc.spaces) && UniqueIds(doc)
  }

  ghost predicate EachParsed(items: seq<Json>, origin: string, parseUrl: UrlParser, spaces: seq<Space>) {
    |spaces| == |items| && forall i :: 0 <= i < |items| ==> ParseSpace(items[i], origin, parseUrl) == Some(spaces[i])
  }

  ghost predicate Stored(v: Json, origin: string, parseUrl: UrlParser, doc: Document) {
    && CheckHead(v, origin, parseUrl) == Ok(doc.(spaces := []))
    && EachParsed(RawSpaces(v), origin, parseUrl, doc.spaces)
    && UniqueIds(doc)
  }

  lemma EachIff(items: seq<Json>, origin: string, parseUrl: UrlParser, spaces: seq<Space>)
    requires forall i :: 0 <= i < |items| ==> WellFormed(items[i])
    ensures EachParsed(items, origin, parseUrl, spaces) <==> EachFrom(items, origin, parseUrl, spaces)
  {
    hide ParseSpace, SpaceFrom, WellFormed;
    forall i | 0 <= i < |items| && i < |spaces|
      ensures ParseSpace(items[i], origin, parseUrl) == Some(spaces[i]) <==>
              SpaceFrom(items[i], origin, parseUrl, spaces[i])
    {
      SpaceIff(items[i], origin, parseUrl, spaces[i]);
    }
  }

  lemma RawWellFormed(v: Json)
    requires WellFormed(v)
    ensures forall i :: 0 <= i < |RawSpaces(v)| ==> WellFormed(RawSpaces(v)[i])
  {
    GetWellFormed(v, "spaces");
  }

  lemma StoredIff(v: Json, origin: string, parseUrl: UrlParser, doc: Document)
    requires WellFormed(v)
    ensures Stored(v, origin, parseUrl, doc) <==> DocumentFrom(v, origin, parseUrl, doc)
  {
    hide CheckHead, HoldsSpaces, HoldsOrigin, HoldsInstance, Holds, EachParsed, EachFrom;
    hide UniqueIds, WellFormed, RawSpaces;
    HeadIff(v, origin, parseUrl, doc.(spaces := []));
    HeadIgnoresSpaces(v, origin, parseUrl, doc);
    RawWellFormed(v);
    EachIff(RawSpaces(v), origin, parseUrl, doc.spaces);
    SpacesMean(v);
  }

  lemma HeadIgnoresSpaces(v: Json, origin: string, parseUrl: UrlParser, doc: Document)
    ensures HeadFrom(v, origin, parseUrl, doc.(spaces := [])) <==> HeadFrom(v, origin, parseUrl, doc)
  {
    hide Holds, InstanceFrom;
  }

  lemma DocumentsFrom(v: Json, origin: string, parseUrl: UrlParser)
    ensures WellFormed(v) ==>
              forall doc :: Stored(v, origin, parseUrl, doc) <==> DocumentFrom(v, origin, parseUrl, doc)
  {
    hide Stored, DocumentFrom;
    if WellFormed(v) {
      forall doc ensures Stored(v, origin, parseUrl, doc) <==> DocumentFrom(v, origin, parseUrl, doc) {
        StoredIff(v, origin, parseUrl, doc);
      }
    }
  }

  lemma StoredUnique(v: Json, origin: string, parseUrl: UrlParser, a: Document)
    requires Stored(v, origin, parseUrl, a)
    ensures forall b :: Stored(v, origin, parseUrl, b) ==> a == b
  {
    hide CheckHead, RawSpaces, ParseSpace, UniqueIds;
    forall b | Stored(v, origin, parseUrl, b) ensures a == b {
      assert a.spaces == b.spaces;
    }
  }

  /** `bytes` is the UTF-8 length of the text; `parsed` is None where `JSON.parse` throws. */
  method ParseDocument(bytes: nat, parsed: Option<Json>, expectedOrigin: string, parseUrl: UrlParser)
    returns (r: Result<Document, Refusal>)
    ensures r.Ok? <==> && bytes <= MAX_DOCUMENT_BYTES && parsed.Some?
                       && CheckHead(parsed.value, expectedOrigin, parseUrl).Ok?
                       && AllParse(RawSpaces(parsed.value), expectedOrigin, parseUrl)
                       && DistinctParsedIds(RawSpaces(parsed.value), expectedOrigin, parseUrl)
    ensures r.Ok? ==>
              var items := RawSpaces(parsed.value);
              && r.value.(spaces := []) == CheckHead(parsed.value, expectedOrigin, parseUrl).value
              && |r.value.spaces| == |items| <= MAX_SPACES
              && (forall i :: 0 <= i < |items| ==>
                    ParseSpace(items[i], expectedOrigin, parseUrl) == Some(r.value.spaces[i])
                    && Bounded(r.value.spaces[i]))
              && UniqueIds(r.value)
    ensures r == Err(OriginMismatch) <==>
              bytes <= MAX_DOCUMENT_BYTES && parsed.Some?
              && CheckHead(parsed.value, expectedOrigin, parseUrl) == Err(OriginMismatch)
    ensures parsed.Some? && WellFormed(parsed.value) ==>
              forall doc :: r == Ok(doc) <==>
                bytes <= 524_288 && DocumentFrom(parsed.value, expectedOrigin, parseUrl, doc)
  {
    hide ParseSpace, CheckHead, Bounded, RawSpaces, DocumentFrom, WellFormed;
    if parsed.Some? { DocumentsFrom(parsed.value, expectedOrigin, parseUrl); }
    if bytes > MAX_DOCUMENT_BYTES || parsed.None? { return Err(Invalid); }
    var head := CheckHead(parsed.value, expectedOrigin, parseUrl);
    if head.Err? { return Err(head.error); }
    var items := RawSpaces(parsed.value);
    HeadBoundsSpaces(parsed.value, expectedOrigin, parseUrl);
    var spaces: seq<Space> := [];
    var seen: set<string> := {};
    for i := 0 to |items|
      invariant |spaces| == i
      invariant forall j :: 0 <= j < i ==> ParseSpace(items[j], expectedOrigin, parseUrl) == Some(spaces[j])
      invariant forall j :: 0 <= j < i ==> Bounded(spaces[j])
      invariant forall j :: 0 <= j < i ==> spaces[j].id in seen
      invariant forall id | id in seen :: exists j :: 0 <= j < i && spaces[j].id == id
      invariant forall j, k :: 0 <= j < k < i ==> spaces[j].id != spaces[k].id
    {
      var space := ParseSpace(items[i], expectedOrigin, parseUrl);
      if space.None? { return Err(Invalid); }
      if space.value.id in seen { return Err(Invalid); }
      ParsedSpaceBounded(items[i], expectedOrigin, parseUrl);
      seen := seen + {space.value.id};
      spaces := spaces + [space.value];
    }
    r := Ok(head.value.(spaces := spaces));
    StoredUnique(parsed.value, expectedOrigin, parseUrl, r.value);
  }

  lemma HeadBoundsSpaces(v: Json, expectedOrigin: string, parseUrl: UrlParser)
    requires CheckHead(v, expectedOrigin, parseUrl).Ok?
    ensures |RawSpaces(v)| <= MAX_SPACES && CheckHead(v, expectedOrigin, parseUrl).value.spaces == []
  {
  }
}
