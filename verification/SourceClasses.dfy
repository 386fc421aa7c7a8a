// What the source-list report says of an entry, in terms of its members and the parsed URL.
module SourceClasses {
  import opened Prelude
  import opened Merge
  import opened Json
  import opened SourceDiff

  /** The entry has this text under this key. */
  ghost predicate HasText(e: Json, key: string, text: string) {
    Holds(e, key, String(text))
  }

  lemma TextMember(e: Json, key: string, text: string)
    requires WellFormed(e)
    ensures Str(e, key) == Some(text) <==> HasText(e, key, text)
  {
    GetMeans(e, key);
  }

  /** An https URL on one of the three hosts, under the host's path where it has one. */
  predicate Listed(u: Url) {
    u.protocol == "https:" &&
    match u.host
    case "registry.npmjs.org" => true
    case "github.com" => "/electron/electron/releases/download/" <= u.pathname
    case "www.electronjs.org" => "/headers/" <= u.pathname
    case _ => false
  }

  /** The two characters are the same letter in either case, or the same character. */
  predicate SameLetter(a: char, b: char) {
    a == b || ('A' <= a <= 'Z' && b as int == a as int + 32) || ('A' <= b <= 'Z' && a as int == b as int + 32)
  }

  predicate EndsInAnyCase(name: string, suffix: string) {
    |suffix| <= |name| && forall i :: 0 <= i < |suffix| ==> SameLetter(name[|name| - |suffix| + i], suffix[i])
  }

  const SCRIPT_SUFFIXES: seq<string> := [".py", ".sh", ".bash", ".js", ".mjs", ".cjs", ".rb", ".pl"]

  predicate LowerCase(s: string) {
    forall c | c in s :: !('A' <= c <= 'Z')
  }

  lemma LowerMeans(name: string, suffix: string)
    requires LowerCase(suffix)
    ensures EndsWith(Lower(name), suffix) <==> EndsInAnyCase(name, suffix)
  {
    if |suffix| <= |name| {
      var d := |name| - |suffix|;
      forall i | 0 <= i < |suffix| ensures Lower(name)[d..][i] == suffix[i] <==> SameLetter(name[d + i], suffix[i]) {
        assert suffix[i] in suffix;
        assert Lower(name)[d..][i] == Lower(name)[d + i];
      }
      if EndsInAnyCase(name, suffix) {
        assert Lower(name)[d..] == suffix;
      }
    }
  }

  lemma ScriptNameMeans(name: string)
    ensures ScriptName(name) <==> exists suffix :: suffix in SCRIPT_SUFFIXES && EndsInAnyCase(name, suffix)
  {
    hide EndsWith, EndsInAnyCase, Lower;
    var x := SCRIPT_SUFFIXES;
    forall suffix | suffix in x ensures EndsWith(Lower(name), suffix) <==> EndsInAnyCase(name, suffix) {
      LowerMeans(name, suffix);
    }
    assert x[0] in x && x[1] in x && x[2] in x && x[3] in x && x[4] in x && x[5] in x && x[6] in x && x[7] in x;
  }

  // ---- The four kinds ----

  ghost predicate Download(e: Json) {
    HasText(e, "type", "file") || HasText(e, "type", "archive")
  }

  ghost predicate Checked(e: Json) {
    exists key, sum :: key in ["sha512", "sha256", "sha1", "md5"] && sum != "" && HasText(e, key, sum)
  }

  ghost predicate FromListed(e: Json, parseUrl: string -> Option<Url>) {
    exists url :: HasText(e, "url", url) && parseUrl(url).Some? && Listed(parseUrl(url).value)
  }

  ghost predicate Script(e: Json) {
    || (exists text :: HasText(e, "contents", text) && "#!" <= text)
    || (exists name, suffix ::
          HasText(e, "dest-filename", name) && suffix in SCRIPT_SUFFIXES && EndsInAnyCase(name, suffix))
  }

  lemma CheckedMeans(e: Json)
    requires WellFormed(e)
    ensures HasChecksum(e) <==> Checked(e)
  {
    forall key, sum ensures Str(e, key) == Some(sum) <==> HasText(e, key, sum) {
      TextMember(e, key, sum);
    }
    if HasChecksum(e) {
      var k :| k in ["sha512", "sha256", "sha1", "md5"] && Str(e, k).Some? && Str(e, k).value != "";
      assert HasText(e, k, Str(e, k).value);
    }
    if Checked(e) {
      var k, sum :| k in ["sha512", "sha256", "sha1", "md5"] && sum != "" && HasText(e, k, sum);
      assert Str(e, k) == Some(sum);
    }
  }

  lemma PrefixMeans(s: string, prefix: string)
    ensures StartsWith(s, prefix) <==> prefix <= s
  {
  }

  lemma ListedMeans(u: Url)
    ensures Listed(u) <==> u.protocol == "https:" && KnownDownload(u)
  {
    hide StartsWith;
    PrefixMeans(u.pathname, "/electron/electron/releases/download/");
    PrefixMeans(u.pathname, "/headers/");
  }

  lemma FromListedMeans(e: Json, parseUrl: string -> Option<Url>)
    requires WellFormed(e)
    ensures FromListed(e, parseUrl) <==>
            var url := Str(e, "url");
            url.Some? && parseUrl(url.value).Some? && Listed(parseUrl(url.value).value)
  {
    hide Listed;
    forall text ensures Str(e, "url") == Some(text) <==> HasText(e, "url", text) {
      TextMember(e, "url", text);
    }
  }

  lemma ScriptMeans(e: Json)
    requires WellFormed(e)
    ensures Script(e) <==>
            var contents, name := Str(e, "contents"), Str(e, "dest-filename");
            (contents.Some? && StartsWith(contents.value, "#!")) || (name.Some? && ScriptName(name.value))
  {
    hide ScriptName, EndsInAnyCase;
    forall key, text ensures Str(e, key) == Some(text) <==> HasText(e, key, text) {
      TextMember(e, key, text);
    }
    var contents, name := Str(e, "contents"), Str(e, "dest-filename");
    if contents.Some? { PrefixMeans(contents.value, "#!"); }
    if name.Some? {
      ScriptNameMeans(name.value);
      assert HasText(e, "dest-filename", name.value);
    }
    forall n, suffix | HasText(e, "dest-filename", n) && suffix in SCRIPT_SUFFIXES && EndsInAnyCase(n, suffix)
      ensures name == Some(n)
    {
      assert Str(e, "dest-filename") == Some(n);
    }
  }

  lemma NoName()
    ensures !ScriptName("") && !StartsWith("", "#!")
  {
  }

  /** Each kind, exactly: known downloads, plain inline data, every other download, everything else. */
  lemma KindIff(e: Json, parseUrl: string -> Option<Url>)
    requires WellFormed(e)
    ensures Classify(e, parseUrl).Known? <==> Download(e) && FromListed(e, parseUrl) && Checked(e)
    ensures Classify(e, parseUrl).Foreign? <==> Download(e) && !(FromListed(e, parseUrl) && Checked(e))
    ensures Classify(e, parseUrl).Data? <==> HasText(e, "type", "inline") && !Script(e)
    ensures Classify(e, parseUrl).Executable? <==>
            !Download(e) && (HasText(e, "type", "inline") ==> Script(e))
  {
    hide HasText, HasChecksum, Checked, FromListed, Script, KnownDownload, Listed, ScriptName, StartsWith;
    TextMember(e, "type", "file");
    TextMember(e, "type", "archive");
    TextMember(e, "type", "inline");
    CheckedMeans(e);
    FromListedMeans(e, parseUrl);
    ScriptMeans(e);
    NoName();
    var url := Str(e, "url");
    if url.Some? && parseUrl(url.value).Some? { ListedMeans(parseUrl(url.value).value); }
  }

  // ---- What the report counts and names ----

  ghost function NewOf(base: seq<Json>, head: seq<Json>, counts: Json -> bool): nat {
    if head == [] then 0
    else
      var n := |head| - 1;
      NewOf(base, head[..n], counts) + (if IsNew(base, head[n]) && counts(head[n]) then 1 else 0)
  }

  ghost function IsKnown(parseUrl: string -> Option<Url>): Json -> bool {
    (e: Json) => Download(e) && FromListed(e, parseUrl) && Checked(e)
  }

  ghost function IsData(): Json -> bool {
    (e: Json) => HasText(e, "type", "inline") && !Script(e)
  }

  /** The two counters count the new known downloads and the new plain inline entries. */
  lemma {:induction false} CountersMean(base: seq<Json>, head: seq<Json>, parseUrl: string -> Option<Url>)
    requires AllWellFormed(base) && AllWellFormed(head)
    ensures var t := TallyOf(base, parseUrl, head);
            t.known == NewOf(base, head, IsKnown(parseUrl)) && t.data == NewOf(base, head, IsData())
  {
    hide Classify, IsNew, Download, FromListed, Checked, Script, HasText, WellFormed, Unmatched, ConcernOf;
    if head != [] {
      var n := |head| - 1;
      CountersMean(base, head[..n], parseUrl);
      UnmatchedIffNew(base, head[n]);
      KindIff(head[n], parseUrl);
    }
  }

  /** A new entry is reported iff it is neither: `c` is in the list of concerns iff a new such entry gives it. */
  lemma ConcernIff(base: seq<Json>, head: seq<Json>, parseUrl: string -> Option<Url>, c: Concern)
    requires AllWellFormed(base) && AllWellFormed(head)
    ensures c in TallyOf(base, parseUrl, head).concerns <==>
            exists i :: 0 <= i < |head| && IsNew(base, head[i]) && !IsKnown(parseUrl)(head[i]) && !IsData()(head[i])
                        && c == ConcernOf(parseUrl)(head[i])
  {
    hide Classify, IsNew, IsKnown, IsData, WellFormed, Unmatched, TallyOf, ConcernOf;
    ConcernsInOrder(base, head, parseUrl);
    var concerning := Filter(Concerning(base, parseUrl), head);
    var listed := Map(ConcernOf(parseUrl), concerning);
    forall i | 0 <= i < |head|
      ensures Concerning(base, parseUrl)(head[i]) <==>
              IsNew(base, head[i]) && !IsKnown(parseUrl)(head[i]) && !IsData()(head[i])
    {
      UnmatchedIffNew(base, head[i]);
      KindIff(head[i], parseUrl);
      KnownAndData(head[i], parseUrl);
    }
    if c in listed {
      var k :| 0 <= k < |listed| && listed[k] == c;
      assert concerning[k] in concerning;
      var i :| 0 <= i < |head| && head[i] == concerning[k];
    }
    if i :| 0 <= i < |head| && IsNew(base, head[i]) && !IsKnown(parseUrl)(head[i]) && !IsData()(head[i])
            && c == ConcernOf(parseUrl)(head[i]) {
      assert head[i] in concerning;
      var k :| 0 <= k < |concerning| && concerning[k] == head[i];
      assert listed[k] == c;
    }
  }

  lemma KnownAndData(e: Json, parseUrl: string -> Option<Url>)
    ensures IsKnown(parseUrl)(e) <==> Download(e) && FromListed(e, parseUrl) && Checked(e)
    ensures IsData()(e) <==> HasText(e, "type", "inline") && !Script(e)
  {
  }

  /** A concern carries the entry's kind; a foreign entry with a url is named by that url. */
  lemma ConcernMeans(e: Json, parseUrl: string -> Option<Url>, url: string)
    requires WellFormed(e)
    ensures var c := ConcernOf(parseUrl)(e);
            && (c.kind.Foreign? <==> Download(e) && !(FromListed(e, parseUrl) && Checked(e)))
            && (c.kind.Foreign? && HasText(e, "url", url) ==> c.text == url)
  {
    hide Classify, Download, FromListed, Checked, Script, HasText, Label;
    KindIff(e, parseUrl);
    TextMember(e, "url", url);
  }

  ghost predicate LacksText(e: Json, key: string) {
    forall text :: !HasText(e, key, text)
  }

  /** The first command is a text. */
  ghost predicate Commanded(e: Json, command: string) {
    exists items :: Holds(e, "commands", Array(items)) && items != [] && items[0] == String(command)
  }

  /** What an entry is called: its file name, else its url, path, first command or directory, else nothing. */
  ghost predicate Called(e: Json, name: string) {
    || HasText(e, "dest-filename", name)
    || (LacksText(e, "dest-filename") &&
        (HasText(e, "url", name)
         || (LacksText(e, "url") &&
             (HasText(e, "path", name)
              || (LacksText(e, "path") &&
                  (Commanded(e, name)
                   || ((forall c :: !Commanded(e, c)) &&
                       (HasText(e, "dest", name) || (LacksText(e, "dest") && name == "(unnamed)")))))))))
  }

  lemma TextMeans(e: Json, key: string)
    requires WellFormed(e)
    ensures Str(e, key).None? <==> LacksText(e, key)
    ensures forall text :: Str(e, key) == Some(text) <==> HasText(e, key, text)
  {
    hide HasText;
    forall text ensures Str(e, key) == Some(text) <==> HasText(e, key, text) {
      TextMember(e, key, text);
    }
    if Str(e, key).Some? { assert HasText(e, key, Str(e, key).value); }
  }

  lemma CommandMeans(e: Json)
    requires WellFormed(e)
    ensures forall command :: FirstCommand(e) == Some(command) <==> Commanded(e, command)
    ensures FirstCommand(e).None? <==> forall command :: !Commanded(e, command)
  {
    hide Holds;
    GetMeans(e, "commands");
    forall command ensures FirstCommand(e) == Some(command) <==> Commanded(e, command) {
    }
    if FirstCommand(e).Some? { assert Commanded(e, FirstCommand(e).value); }
  }

  /** A label is the entry's type and what it is called. */
  lemma LabelMeans(e: Json, kind: string, name: string)
    requires WellFormed(e) && HasText(e, "type", kind) && Called(e, name)
    ensures Label(e) == kind + ": " + name
  {
    hide HasText, LacksText, Commanded, FirstCommand, Str;
    TextMeans(e, "type");
    TextMeans(e, "dest-filename");
    TextMeans(e, "url");
    TextMeans(e, "path");
    TextMeans(e, "dest");
    CommandMeans(e);
  }

  /** A reported entry that is executable, or foreign without a url, is named by its label. */
  lemma ConcernLabelled(e: Json, parseUrl: string -> Option<Url>, kind: string, name: string)
    requires WellFormed(e) && HasText(e, "type", kind) && Called(e, name)
    ensures var c := ConcernOf(parseUrl)(e);
            !c.kind.Foreign? || LacksText(e, "url") ==> c.text == kind + ": " + name
  {
    hide Classify, HasText, LacksText, Called, Label;
    TextMeans(e, "url");
    LabelMeans(e, kind, name);
  }

  // ---- Which files can be read ----

  ghost predicate Typed(e: Json) {
    exists kind :: HasText(e, "type", kind)
  }

  /** A source list is read iff it is absent, or an array of objects each with a text `type`; then it is that array. */
  lemma EntriesReadIff(text: Text)
    requires text.Parsed? ==> WellFormed(text.value)
    ensures ParseEntries(text).Ok? <==>
            || text.Absent?
            || (text.Parsed? && text.value.Array? && forall e | e in text.value.items :: Typed(e))
    ensures ParseEntries(text).Ok? ==> ParseEntries(text).value == if text.Absent? then [] else text.value.items
  {
    hide Typed;
    if text.Parsed? && text.value.Array? { CheckedEntries(text.value.items); }
  }

  lemma {:induction false} CheckedEntries(items: seq<Json>)
    requires forall e | e in items :: WellFormed(e)
    ensures CheckEntries(items).None? <==> forall e | e in items :: Typed(e)
  {
    hide Typed, Str, WellFormed;
    if items != [] {
      CheckedEntries(items[1..]);
      TypedEntry(items[0]);
      assert items == [items[0]] + items[1..];
    }
  }

  lemma TypedEntry(e: Json)
    requires WellFormed(e)
    ensures Typed(e) <==> e.Object? && Str(e, "type").Some?
  {
    forall text ensures Str(e, "type") == Some(text) <==> HasText(e, "type", text) {
      TextMember(e, "type", text);
    }
  }

  // ---- Which package files can be read ----

  /** A package file cannot be compared iff it is no JSON, no object, or has a text member `error`. */
  lemma UnreadableIff(text: Text)
    requires text.Parsed? ==> WellFormed(text.value)
    ensures Unreadable(text) <==>
            || text.Malformed?
            || (text.Parsed? && (!text.value.Object? || exists message :: HasText(text.value, "error", message)))
    ensures ParseObject(text).Err? <==> Unreadable(text)
  {
    hide HasText;
    if text.Parsed? { TextMeans(text.value, "error"); }
  }
}
