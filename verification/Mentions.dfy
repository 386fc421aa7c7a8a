// The mention scanner: one left-to-right pass that cuts a message into text and mention parts.
module Mentions {
  import opened Prelude

  datatype Part =
    | Text(text: string)
    | User(userId: string, token: string)
    | Role(roleId: string, token: string)
    | Everyone(keyword: string, token: string)

  /** `text` or `token`: the characters the part stands for. */
  function Raw(p: Part): string {
    if p.Text? then p.text else p.token
  }

  function RawAll(parts: seq<Part>): string {
    if parts == [] then "" else Raw(parts[0]) + RawAll(parts[1..])
  }

  // ---- One match ----

  datatype Kind = Code | UserId(id: string) | RoleId(id: string) | Keyword(word: string)

  /** A match of the scanner's expression, from `start` to before `end`. */
  datatype Match = Match(start: int, end: int, kind: Kind)

  predicate IsWord(c: char) {
    'a' <= c <= 'z' || 'A' <= c <= 'Z' || '0' <= c <= '9' || c == '_'
  }

  predicate IsIdChar(c: char) {
    IsWord(c) || c == '-'
  }

  predicate At(s: string, i: int, word: string) {
    0 <= i && i + |word| <= |s| && s[i..i + |word|] == word
  }

  /** The first index from `i` on where the identifier run stops. */
  function IdEnd(s: string, i: int): (j: int)
    requires 0 <= i <= |s|
    ensures i <= j <= |s| && (j < |s| ==> !IsIdChar(s[j]))
    ensures forall k :: i <= k < j ==> IsIdChar(s[k])
    decreases |s| - i
  {
    if i < |s| && IsIdChar(s[i]) then IdEnd(s, i + 1) else i
  }

  function TickEnd(s: string, i: int): (j: int)
    requires 0 <= i <= |s|
    ensures i <= j <= |s| && (j < |s| ==> s[j] == '`')
    ensures forall k :: i <= k < j ==> s[k] != '`'
    decreases |s| - i
  {
    if i < |s| && s[i] != '`' then TickEnd(s, i + 1) else i
  }

  /** Where the next fence from `i` on starts, or |s| when there is none. */
  function Fence(s: string, i: int): (j: int)
    requires 0 <= i <= |s|
    ensures i <= j <= |s| && (j < |s| ==> At(s, j, "```"))
    ensures forall k :: i <= k < j ==> !At(s, k, "```")
    decreases |s| - i
  {
    if i < |s| && !At(s, i, "```") then Fence(s, i + 1) else i
  }

  function CodeAt(s: string, i: int): Option<Match>
    requires 0 <= i < |s|
  {
    if At(s, i, "```") && Fence(s, i + 3) < |s| then Some(Match(i, Fence(s, i + 3) + 3, Code))
    else if s[i] == '`' && i + 1 < TickEnd(s, i + 1) < |s| then Some(Match(i, TickEnd(s, i + 1) + 1, Code))
    else None
  }

  /** `<@&id>` or `<@id>` at `i`: the prefix, a non-empty identifier run, the closing bracket. */
  function TokenAt(s: string, i: int, prefix: string): Option<Match>
    requires 0 <= i < |s| && |prefix| > 0
  {
    if !At(s, i, prefix) then None
    else
      var from := i + |prefix|;
      var j := IdEnd(s, from);
      if from < j < |s| && s[j] == '>' then
        Some(Match(i, j + 1, if prefix == "<@&" then RoleId(s[from..j]) else UserId(s[from..j])))
      else None
  }

  function KeywordAt(s: string, i: int, word: string): Option<Match>
    requires 0 <= i < |s|
  {
    var end := i + 1 + |word|;
    if s[i] == '@' && At(s, i + 1, word) && (i == 0 || !(IsWord(s[i - 1]) || s[i - 1] == '@'))
       && (end == |s| || !IsIdChar(s[end])) then Some(Match(i, end, Keyword(word)))
    else None
  }

  /** The alternatives in their order: code, role, user, mass mention. */
  function MatchAt(s: string, i: int): Option<Match>
    requires 0 <= i < |s|
  {
    OrElse(CodeAt(s, i), OrElse(TokenAt(s, i, "<@&"), OrElse(TokenAt(s, i, "<@"),
      OrElse(KeywordAt(s, i, "everyone"), KeywordAt(s, i, "here")))))
  }

  lemma MatchShape(s: string, i: int)
    requires 0 <= i < |s| && MatchAt(s, i).Some?
    ensures var m := MatchAt(s, i).value;
            m.start == i && i < m.end <= |s|
            && (!m.kind.Code? ==> forall k :: i < k < m.end ==> s[k] != '<')
  {
    var m := MatchAt(s, i).value;
    if !m.kind.Code? {
      forall k | i < k < m.end ensures s[k] != '<' {
        if TokenAt(s, i, "<@&").Some? {
          Inside(s, i, "<@&", k);
        } else if TokenAt(s, i, "<@").Some? {
          Inside(s, i, "<@", k);
        } else if KeywordAt(s, i, "everyone").Some? {
          assert s[k] == "everyone"[k - i - 1] by { assert s[i + 1..i + 9][k - i - 1] == s[k]; }
        } else {
          assert s[k] == "here"[k - i - 1] by { assert s[i + 1..i + 5][k - i - 1] == s[k]; }
        }
      }
    }
  }

  lemma Inside(s: string, i: int, prefix: string, k: int)
    requires 0 <= i < |s| && (prefix == "<@&" || prefix == "<@")
    requires TokenAt(s, i, prefix).Some? && i < k < TokenAt(s, i, prefix).value.end
    ensures s[k] != '<'
  {
    var from := i + |prefix|;
    if k < from {
      assert s[i..from][k - i] == prefix[k - i];
    } else if k < IdEnd(s, from) {
      assert IsIdChar(s[k]);
    }
  }

  /** The leftmost match that starts at `from` or later. */
  function NextMatch(s: string, from: int): (r: Option<Match>)
    requires 0 <= from <= |s|
    ensures r.Some? ==> from <= r.value.start < |s| && MatchAt(s, r.value.start) == r
    ensures forall k :: from <= k < (if r.Some? then r.value.start else |s|) ==> MatchAt(s, k).None?
    decreases |s| - from
  {
    if from == |s| then None
    else if MatchAt(s, from).Some? then
      MatchShape(s, from);
      MatchAt(s, from)
    else NextMatch(s, from + 1)
  }

  /** `matchAll`: each scan goes on where the last match ended. */
  function Matches(s: string, from: int): seq<Match>
    requires 0 <= from <= |s|
    decreases |s| - from
  {
    match NextMatch(s, from)
    case None => []
    case Some(m) =>
      MatchShape(s, m.start);
      [m] + Matches(s, m.end)
  }

  // ---- Splitting ----

  function TextPart(text: string): seq<Part> {
    if text == "" then [] else [Text(text)]
  }

  function MentionPart(s: string, m: Match): Part
    requires 0 <= m.start <= m.end <= |s| && !m.kind.Code?
  {
    var token := s[m.start..m.end];
    match m.kind
    case RoleId(id) => Role(id, token)
    case UserId(id) => User(id, token)
    case Keyword(word) => Everyone(word, token)
  }

  /** The parts of `s` from `textStart` on, when the scan stands at `from`. */
  function SplitFrom(s: string, textStart: int, from: int): seq<Part>
    requires 0 <= textStart <= from <= |s|
    decreases |s| - from
  {
    match NextMatch(s, from)
    case None => TextPart(s[textStart..])
    case Some(m) =>
      MatchShape(s, m.start);
      if m.kind.Code? then SplitFrom(s, textStart, m.end)
      else TextPart(s[textStart..m.start]) + [MentionPart(s, m)] + SplitFrom(s, m.end, m.end)
  }

  lemma SplitStep(s: string, textStart: int, from: int)
    requires 0 <= textStart <= from <= |s|
    ensures var next := NextMatch(s, from);
            && (next.None? ==> SplitFrom(s, textStart, from) == TextPart(s[textStart..]))
            && (next.Some? ==>
                  var m := next.value;
                  && from <= m.start < m.end <= |s|
                  && SplitFrom(s, textStart, from)
                     == if m.kind.Code? then SplitFrom(s, textStart, m.end)
                        else TextPart(s[textStart..m.start]) + [MentionPart(s, m)] + SplitFrom(s, m.end, m.end))
  {
    hide MatchAt, TextPart, MentionPart;
    if NextMatch(s, from).Some? {
      MatchShape(s, NextMatch(s, from).value.start);
    }
  }

  method SplitMentions(content: string) returns (parts: seq<Part>)
    ensures parts == SplitFrom(content, 0, 0)
  {
    hide MatchAt, SplitFrom, NextMatch;
    parts := [];
    var pending := "";
    var textStart, from := 0, 0;
    var next := NextMatch(content, from);
    while next.Some?
      invariant 0 <= textStart <= from <= |content| && pending == "" && next == NextMatch(content, from)
      invariant parts + SplitFrom(content, textStart, from) == SplitFrom(content, 0, 0)
      decreases |content| - from
    {
      var m := next.value;
      SplitStep(content, textStart, from);
      ghost var before, start := parts, textStart;
      if !m.kind.Code? {
        pending := pending + content[textStart..m.start];
        assert pending == content[start..m.start];
        if pending != "" { parts := parts + [Text(pending)]; }
        pending := "";
        parts := parts + [MentionPart(content, m)];
        textStart := m.end;
        assert parts == before + (TextPart(content[start..m.start]) + [MentionPart(content, m)]);
      }
      from := m.end;
      next := NextMatch(content, from);
    }
    pending := pending + content[textStart..];
    assert pending == content[textStart..];
    SplitStep(content, textStart, from);
    if pending != "" { parts := parts + [Text(pending)]; }
  }

  // ---- Nothing is lost ----

  lemma {:induction false} RawConcat(a: seq<Part>, b: seq<Part>)
    ensures RawAll(a + b) == RawAll(a) + RawAll(b)
  {
    if a == [] {
      assert a + b == b;
    } else {
      assert (a + b)[1..] == a[1..] + b;
      RawConcat(a[1..], b);
    }
  }

  lemma RawTextPart(text: string)
    ensures RawAll(TextPart(text)) == text
  {
  }

  /** Joining every part's text or token gives the content back. */
  lemma {:induction false} SplitJoins(s: string, textStart: int, from: int)
    requires 0 <= textStart <= from <= |s|
    ensures RawAll(SplitFrom(s, textStart, from)) == s[textStart..]
    decreases |s| - from
  {
    hide MatchAt, RawAll;
    match NextMatch(s, from)
    case None => RawTextPart(s[textStart..]);
    case Some(m) =>
      MatchShape(s, m.start);
      if m.kind.Code? {
        SplitJoins(s, textStart, m.end);
      } else {
        SplitJoins(s, m.end, m.end);
        RawConcat(TextPart(s[textStart..m.start]) + [MentionPart(s, m)], SplitFrom(s, m.end, m.end));
        HeadRaw(s, textStart, m);
        assert s[textStart..m.end] + s[m.end..] == s[textStart..];
      }
  }

  ghost predicate Tidy(parts: seq<Part>) {
    && (forall k :: 0 <= k < |parts| && parts[k].Text? ==> parts[k].text != "")
    && (forall k :: 0 <= k < |parts| - 1 ==> !(parts[k].Text? && parts[k + 1].Text?))
  }

  /** No text part is empty and no two text parts stand next to each other. */
  lemma {:induction false} SplitTidy(s: string, textStart: int, from: int)
    requires 0 <= textStart <= from <= |s|
    ensures Tidy(SplitFrom(s, textStart, from))
    decreases |s| - from
  {
    hide MatchAt;
    match NextMatch(s, from)
    case None =>
    case Some(m) =>
      MatchShape(s, m.start);
      if m.kind.Code? {
        SplitTidy(s, textStart, m.end);
      } else {
        SplitTidy(s, m.end, m.end);
      }
  }

  // ---- Mentions are the scanner's matches outside code ----

  /** How many characters stand before part `k`. */
  function Offset(parts: seq<Part>, k: int): int
    requires 0 <= k <= |parts|
  {
    |RawAll(parts[..k])|
  }

  /** Part `k` is the mention that match `m` found, standing where it was found. */
  ghost predicate PartOf(s: string, m: Match, parts: seq<Part>, k: int, base: int) {
    && 0 <= k < |parts| && 0 <= m.start <= m.end <= |s| && !m.kind.Code?
    && parts[k] == MentionPart(s, m) && base + Offset(parts, k) == m.start
  }

  lemma OffsetShift(a: seq<Part>, b: seq<Part>, k: int)
    requires 0 <= k <= |b|
    ensures Offset(a + b, |a| + k) == |RawAll(a)| + Offset(b, k)
  {
    assert (a + b)[..|a| + k] == a + b[..k];
    RawConcat(a, b[..k]);
  }

  /** Every match outside code is a part, in its place. */
  lemma {:induction false} MatchIsPart(s: string, textStart: int, from: int, m: Match) returns (k: int)
    requires 0 <= textStart <= from <= |s| && m in Matches(s, from) && !m.kind.Code?
    ensures PartOf(s, m, SplitFrom(s, textStart, from), k, textStart)
    decreases |s| - from
  {
    hide MatchAt, RawAll;
    var n := NextMatch(s, from).value;
    MatchShape(s, n.start);
    if n.kind.Code? {
      k := MatchIsPart(s, textStart, n.end, m);
    } else {
      var head, rest := TextPart(s[textStart..n.start]) + [MentionPart(s, n)], SplitFrom(s, n.end, n.end);
      HeadRaw(s, textStart, n);
      if m == n {
        k := |head| - 1;
        assert (head + rest)[..k] == TextPart(s[textStart..n.start]);
      } else {
        var j := MatchIsPart(s, n.end, n.end, m);
        k := |head| + j;
        OffsetShift(head, rest, j);
      }
    }
  }

  lemma RawOne(p: Part)
    ensures RawAll([p]) == Raw(p)
  {
    assert RawAll([p]) == Raw(p) + "";
  }

  lemma HeadRaw(s: string, textStart: int, m: Match)
    requires 0 <= textStart <= m.start <= m.end <= |s| && !m.kind.Code?
    ensures RawAll(TextPart(s[textStart..m.start])) == s[textStart..m.start]
    ensures RawAll(TextPart(s[textStart..m.start]) + [MentionPart(s, m)]) == s[textStart..m.end]
  {
    hide RawAll, TextPart;
    RawTextPart(s[textStart..m.start]);
    RawConcat(TextPart(s[textStart..m.start]), [MentionPart(s, m)]);
    RawOne(MentionPart(s, m));
    assert s[textStart..m.start] + s[m.start..m.end] == s[textStart..m.end];
  }

  /** Every mention part is a match outside code, in its place. */
  lemma {:induction false} PartIsMatch(s: string, textStart: int, from: int, k: int) returns (m: Match)
    requires 0 <= textStart <= from <= |s|
    requires 0 <= k < |SplitFrom(s, textStart, from)| && !SplitFrom(s, textStart, from)[k].Text?
    ensures m in Matches(s, from) && PartOf(s, m, SplitFrom(s, textStart, from), k, textStart)
    decreases |s| - from
  {
    hide MatchAt, RawAll;
    var n := NextMatch(s, from).value;
    MatchShape(s, n.start);
    if n.kind.Code? {
      m := PartIsMatch(s, textStart, n.end, k);
    } else {
      var head, rest := TextPart(s[textStart..n.start]) + [MentionPart(s, n)], SplitFrom(s, n.end, n.end);
      HeadRaw(s, textStart, n);
      if k < |head| {
        m := n;
        assert (head + rest)[..k] == TextPart(s[textStart..n.start]);
      } else {
        m := PartIsMatch(s, n.end, n.end, k - |head|);
        OffsetShift(head, rest, k - |head|);
      }
    }
  }

  /** Matches do not overlap: equal, or one ends before the other starts. */
  lemma {:induction false} MatchesApart(s: string, from: int, a: Match, b: Match)
    requires 0 <= from <= |s| && a in Matches(s, from) && b in Matches(s, from)
    ensures from <= a.start < a.end <= |s|
    ensures a == b || a.end <= b.start || b.end <= a.start
    decreases |s| - from
  {
    hide MatchAt;
    var n := NextMatch(s, from).value;
    MatchShape(s, n.start);
    if a != n { MatchesApart(s, n.end, a, a); }
    if b != n { MatchesApart(s, n.end, b, b); }
    if a != n && b != n { MatchesApart(s, n.end, a, b); }
  }

  /** Nothing inside a matched code span becomes a mention. */
  lemma NoMentionInCode(s: string, k: int, code: Match)
    requires 0 <= k < |SplitFrom(s, 0, 0)| && !SplitFrom(s, 0, 0)[k].Text?
    requires code in Matches(s, 0) && code.kind.Code?
    ensures var parts := SplitFrom(s, 0, 0);
            Offset(parts, k) + |Raw(parts[k])| <= code.start || code.end <= Offset(parts, k)
  {
    hide Matches, SplitFrom;
    var m := PartIsMatch(s, 0, 0, k);
    MatchesApart(s, 0, m, code);
  }

  /** Position `p` lies inside a code span the scanner matched. */
  ghost predicate InCode(s: string, from: int, p: int)
    requires 0 <= from <= |s|
  {
    exists code :: code in Matches(s, from) && code.kind.Code? && code.start <= p < code.end
  }

  lemma {:induction false} TokenReached(s: string, from: int, p: int)
    requires 0 <= from <= p < |s| && s[p] == '<' && MatchAt(s, p).Some?
    ensures MatchAt(s, p).value in Matches(s, from) || InCode(s, from, p)
    decreases |s| - from
  {
    hide MatchAt;
    var n := NextMatch(s, from).value;
    MatchShape(s, n.start);
    MatchShape(s, p);
    assert Matches(s, from) == [n] + Matches(s, n.end);
    if n.start < p {
      if n.end <= p {
        TokenReached(s, n.end, p);
        if InCode(s, n.end, p) {
          var code :| code in Matches(s, n.end) && code.kind.Code? && code.start <= p < code.end;
          assert code in Matches(s, from);
        }
      } else {
        assert n in Matches(s, from) && n.kind.Code?;
      }
    }
  }

  /** A well-formed `<@id>` or `<@&id>` at `p`. */
  ghost predicate WellFormedToken(s: string, p: int, m: Match) {
    0 <= p < |s| && (TokenAt(s, p, "<@&") == Some(m) || TokenAt(s, p, "<@") == Some(m))
  }

  lemma TokenIsMatch(s: string, p: int, m: Match)
    requires WellFormedToken(s, p, m)
    ensures s[p] == '<' && MatchAt(s, p) == Some(m) && !m.kind.Code? && m.start == p
  {
    assert At(s, p, "<@&") ==> s[p..p + 3][0] == '<' && s[p..p + 3][2] == '&' && s[p..p + 3][2] == s[p + 2];
    assert At(s, p, "<@") ==> s[p..p + 2][0] == '<';
    CodeStartsWithTick(s, p);
  }

  lemma CodeStartsWithTick(s: string, i: int)
    requires 0 <= i < |s|
    ensures CodeAt(s, i).Some? ==> s[i] == '`'
  {
    if At(s, i, "```") {
      assert s[i..i + 3][0] == '`';
    }
  }

  /** A well-formed token becomes its own part, where it stands, exactly when no code span covers it. */
  lemma TokenIsPartIff(s: string, p: int, m: Match)
    requires WellFormedToken(s, p, m)
    ensures (exists k :: PartOf(s, m, SplitFrom(s, 0, 0), k, 0)) <==> !InCode(s, 0, p)
  {
    hide Matches, SplitFrom, MatchAt;
    TokenIsMatch(s, p, m);
    TokenReached(s, 0, p);
    if !InCode(s, 0, p) {
      var k := MatchIsPart(s, 0, 0, m);
    }
    MatchShape(s, p);
    assert |Raw(MentionPart(s, m))| == m.end - m.start;
    if k :| PartOf(s, m, SplitFrom(s, 0, 0), k, 0) {
      if code :| code in Matches(s, 0) && code.kind.Code? && code.start <= p < code.end {
        NoMentionInCode(s, k, code);
        MatchesApart(s, 0, code, code);
      }
    }
  }

  /** Without backticks there is no code span, so every well-formed token is its own part. */
  lemma EveryTokenIsPart(s: string, p: int, m: Match)
    requires WellFormedToken(s, p, m) && forall c | c in s :: c != '`'
    ensures exists k :: PartOf(s, m, SplitFrom(s, 0, 0), k, 0)
  {
    hide Matches, SplitFrom, MatchAt;
    TokenIsPartIff(s, p, m);
    if code :| code in Matches(s, 0) && code.kind.Code? && code.start <= p < code.end {
      CodeHasTick(s, 0, code);
    }
  }

  lemma CodeIsCode(s: string, i: int)
    requires 0 <= i < |s| && MatchAt(s, i).Some? && MatchAt(s, i).value.kind.Code?
    ensures CodeAt(s, i).Some?
  {
    hide IdEnd, TickEnd, Fence, IsWord;
  }

  lemma {:induction false} CodeHasTick(s: string, from: int, code: Match)
    requires 0 <= from <= |s| && code in Matches(s, from) && code.kind.Code?
    ensures exists c :: c in s && c == '`'
    decreases |s| - from
  {
    hide MatchAt, CodeAt;
    var n := NextMatch(s, from).value;
    MatchShape(s, n.start);
    if code == n {
      CodeIsCode(s, n.start);
      CodeStartsWithTick(s, n.start);
      assert s[n.start] in s;
    } else {
      CodeHasTick(s, n.end, code);
    }
  }

  // ---- What a message mentions ----

  datatype Parsed = Parsed(userIds: set<string>, roleIds: set<string>, everyone: bool)

  /** The content's parts; a missing content has none. */
  function PartsOf(content: Option<string>): seq<Part> {
    if content.None? then [] else SplitFrom(content.value, 0, 0)
  }

  function Users(parts: seq<Part>): set<string> {
    set p | p in parts && p.User? :: p.userId
  }

  function Roles(parts: seq<Part>): set<string> {
    set p | p in parts && p.Role? :: p.roleId
  }

  predicate Mass(parts: seq<Part>) {
    exists p | p in parts :: p.Everyone?
  }

  lemma MassStep(parts: seq<Part>, p: Part)
    ensures Mass(parts + [p]) <==> Mass(parts) || p.Everyone?
  {
    assert p in parts + [p];
    assert forall q | q in parts :: q in parts + [p];
  }

  function Mentioned(content: Option<string>): Parsed {
    var parts := PartsOf(content);
    Parsed(Users(parts), Roles(parts), Mass(parts))
  }

  method ParseMentions(content: Option<string>) returns (r: Parsed)
    ensures r == Mentioned(content)
  {
    hide SplitFrom;
    var userIds, roleIds: set<string>, everyone := {}, {}, false;
    if content.None? { return Parsed(userIds, roleIds, everyone); }
    var parts := SplitMentions(content.value);
    for i := 0 to |parts|
      invariant userIds == Users(parts[..i]) && roleIds == Roles(parts[..i]) && everyone == Mass(parts[..i])
    {
      assert parts[..i + 1] == parts[..i] + [parts[i]];
      MassStep(parts[..i], parts[i]);
      match parts[i] {
        case User(id, _) => userIds := userIds + {id};
        case Role(id, _) => roleIds := roleIds + {id};
        case Everyone(_, _) => everyone := true;
        case Text(_) =>
      }
    }
    assert parts[..|parts|] == parts;
    r := Parsed(userIds, roleIds, everyone);
  }

  method AddsMassMention(before: Option<string>, after: Option<string>) returns (adds: bool)
    ensures adds <==> Adds(before, after)
  {
    hide Mentioned;
    var prior := ParseMentions(before);
    var next := ParseMentions(after);
    if next.everyone && !prior.everyone { return true; }
    adds := !(next.roleIds <= prior.roleIds);
  }

  predicate Adds(before: Option<string>, after: Option<string>) {
    var a, b := Mentioned(before), Mentioned(after);
    (b.everyone && !a.everyone) || exists id | id in b.roleIds :: id !in a.roleIds
  }

  /** Edits that add no mass mention compose, so a chain of permitted edits never adds one. */
  lemma {:induction false} EditsNeverAdd(texts: seq<Option<string>>)
    requires texts != [] && forall i :: 0 <= i < |texts| - 1 ==> !Adds(texts[i], texts[i + 1])
    ensures !Adds(texts[0], texts[|texts| - 1])
  {
    hide Mentioned;
    if |texts| > 1 {
      EditsNeverAdd(texts[1..]);
      assert !Adds(texts[0], texts[1]);
    }
  }
}
