// The scanner's expression read as a grammar over the text, and the parts it makes of a message.
module MentionLaws {
  import opened Prelude
  import opened Mentions

  /** `[A-Za-z0-9_]` by code point. */
  predicate WordChar(c: char) {
    var n := c as int;
    48 <= n <= 57 || 65 <= n <= 90 || n == 95 || 97 <= n <= 122
  }

  lemma CharClasses(c: char)
    ensures IsWord(c) <==> WordChar(c)
    ensures IsIdChar(c) <==> WordChar(c) || c as int == 45
  {
  }

  // ---- The grammar ----

  /** Three backticks, then anything up to the first three backticks after them. */
  ghost predicate FencedSpan(s: string, i: int, end: int) {
    && 0 <= i && i + 6 <= end <= |s|
    && s[i] == s[i + 1] == s[i + 2] == '`'
    && s[end - 3] == s[end - 2] == s[end - 1] == '`'
    && forall k :: i + 3 <= k < end - 3 ==> !(s[k] == '`' && s[k + 1] == '`' && s[k + 2] == '`')
  }

  /** A backtick, at least one other character, a backtick. */
  ghost predicate InlineSpan(s: string, i: int, end: int) {
    && 0 <= i && i + 3 <= end <= |s|
    && s[i] == '`' && s[end - 1] == '`'
    && forall k :: i < k < end - 1 ==> s[k] != '`'
  }

  ghost predicate CodeSpan(s: string, i: int, end: int) {
    FencedSpan(s, i, end) || InlineSpan(s, i, end)
  }

  ghost predicate Identifier(id: string) {
    id != "" && forall c | c in id :: WordChar(c) || c == '-'
  }

  /** `@everyone` or `@here`, not inside a word, an address or `@@`, and not run on. */
  ghost predicate StandsAlone(s: string, i: int, word: string) {
    && At(s, i, "@" + word)
    && (i == 0 || !(WordChar(s[i - 1]) || s[i - 1] == '@'))
    && (i + 1 + |word| == |s| || !(WordChar(s[i + 1 + |word|]) || s[i + 1 + |word|] == '-'))
  }

  function Spelled(kind: Kind): string {
    match kind
    case Code => ""
    case UserId(id) => "<@" + id + ">"
    case RoleId(id) => "<@&" + id + ">"
    case Keyword(word) => "@" + word
  }

  /** The text from `m.start` to `m.end` is what the expression describes. */
  ghost predicate Reads(s: string, m: Match) {
    match m.kind
    case Code => CodeSpan(s, m.start, m.end)
    case UserId(id) => Identifier(id) && At(s, m.start, Spelled(m.kind)) && m.end == m.start + |Spelled(m.kind)|
    case RoleId(id) => Identifier(id) && At(s, m.start, Spelled(m.kind)) && m.end == m.start + |Spelled(m.kind)|
    case Keyword(word) =>
      (word == "everyone" || word == "here") && StandsAlone(s, m.start, word) && m.end == m.start + |Spelled(m.kind)|
  }

  lemma AtChars(s: string, i: int, word: string)
    ensures At(s, i, word) <==>
            0 <= i && i + |word| <= |s| && forall k :: 0 <= k < |word| ==> s[i + k] == word[k]
  {
    if 0 <= i && i + |word| <= |s| {
      assert At(s, i, word) ==> forall k :: 0 <= k < |word| ==> s[i..i + |word|][k] == word[k];
      if forall k :: 0 <= k < |word| ==> s[i + k] == word[k] {
        assert s[i..i + |word|] == word;
      }
    }
  }

  lemma TicksAt(s: string, k: int)
    requires 0 <= k
    ensures At(s, k, "```") <==> k + 3 <= |s| && s[k] == s[k + 1] == s[k + 2] == '`'
  {
    AtChars(s, k, "```");
  }

  lemma CodeAtMeans(s: string, i: int, end: int)
    requires 0 <= i < |s|
    ensures CodeAt(s, i) == Some(Match(i, end, Code)) <==> CodeSpan(s, i, end)
  {
    hide At;
    TicksAt(s, i);
    FenceMeans(s, i, end);
    InlineMeans(s, i, end);
    if At(s, i, "```") {
      assert TickEnd(s, i + 1) == i + 1;
    }
  }

  lemma FenceMeans(s: string, i: int, end: int)
    requires 0 <= i < |s|
    ensures At(s, i, "```") && Fence(s, i + 3) < |s| && end == Fence(s, i + 3) + 3 <==> FencedSpan(s, i, end)
  {
    hide At, Fence;
    TicksAt(s, i);
    if At(s, i, "```") && Fence(s, i + 3) < |s| && end == Fence(s, i + 3) + 3 {
      TicksAt(s, end - 3);
      assert At(s, end - 3, "```");
      forall k | i + 3 <= k < end - 3 ensures !(s[k] == '`' && s[k + 1] == '`' && s[k + 2] == '`') {
        TicksAt(s, k);
        assert !At(s, k, "```");
      }
    }
    if FencedSpan(s, i, end) {
      var f := Fence(s, i + 3);
      TicksAt(s, end - 3);
      assert At(s, end - 3, "```");
      assert !(end - 3 < f);
      TicksAt(s, f);
      assert f < |s| ==> At(s, f, "```");
      assert f == end - 3;
    }
  }

  lemma InlineMeans(s: string, i: int, end: int)
    requires 0 <= i < |s|
    ensures s[i] == '`' && i + 1 < TickEnd(s, i + 1) < |s| && end == TickEnd(s, i + 1) + 1 <==> InlineSpan(s, i, end)
  {
    hide TickEnd;
    if InlineSpan(s, i, end) {
      assert !(end - 1 < TickEnd(s, i + 1));
      assert !(TickEnd(s, i + 1) < end - 1);
    }
  }

  // ---- Tokens and keywords ----

  lemma {:induction false} IdEndIs(s: string, from: int, j: int)
    requires 0 <= from <= j < |s| && !IsIdChar(s[j]) && forall k :: from <= k < j ==> IsIdChar(s[k])
    ensures IdEnd(s, from) == j
  {
    var e := IdEnd(s, from);
    assert !(e < j) && !(j < e);
  }

  lemma SliceChars(s: string, from: int, j: int)
    requires 0 <= from <= j <= |s|
    ensures (forall c | c in s[from..j] :: IsIdChar(c)) <==> forall k :: from <= k < j ==> IsIdChar(s[k])
  {
    if forall c | c in s[from..j] :: IsIdChar(c) {
      forall k | from <= k < j ensures IsIdChar(s[k]) {
        assert s[from..j][k - from] == s[k];
      }
    }
  }

  lemma IdentifierIs(id: string)
    ensures Identifier(id) <==> id != "" && forall c | c in id :: IsIdChar(c)
  {
    forall c | c in id ensures IsIdChar(c) <==> WordChar(c) || c == '-' {
      CharClasses(c);
    }
  }

  lemma AtJoin(s: string, i: int, a: string, b: string)
    requires 0 <= i
    ensures At(s, i, a + b) <==> At(s, i, a) && At(s, i + |a|, b)
  {
    if i + |a| + |b| <= |s| {
      var whole := s[i..i + |a| + |b|];
      assert whole == s[i..i + |a|] + s[i + |a|..i + |a| + |b|];
      assert whole[..|a|] == s[i..i + |a|] && whole[|a|..] == s[i + |a|..i + |a| + |b|];
      assert (a + b)[..|a|] == a && (a + b)[|a|..] == b;
    }
  }

  /** The token's text at `i`, cut into prefix, identifier and bracket. */
  lemma TokenText(s: string, i: int, prefix: string, id: string)
    requires 0 <= i
    ensures At(s, i, prefix + id + ">") <==>
            var from := i + |prefix|;
            At(s, i, prefix) && from + |id| < |s| && s[from..from + |id|] == id && s[from + |id|] == '>'
  {
    var from := i + |prefix|;
    AtJoin(s, i, prefix + id, ">");
    AtJoin(s, i, prefix, id);
    assert At(s, from + |id|, ">") <==> from + |id| < |s| && s[from + |id|] == '>' by {
      AtChars(s, from + |id|, ">");
    }
  }

  function TokenKind(prefix: string, id: string): Kind {
    if prefix == "<@&" then RoleId(id) else UserId(id)
  }

  lemma TokenAtMeans(s: string, i: int, prefix: string, id: string, end: int)
    requires 0 <= i < |s| && (prefix == "<@&" || prefix == "<@")
    ensures TokenAt(s, i, prefix) == Some(Match(i, end, TokenKind(prefix, id)))
       <==> Identifier(id) && At(s, i, prefix + id + ">") && end == i + |prefix + id + ">"|
  {
    hide At, IdEnd, IsIdChar, Identifier;
    var from := i + |prefix|;
    TokenText(s, i, prefix, id);
    IdentifierIs(id);
    Bracket();
    if At(s, i, prefix) {
      assert from <= |s| by { AtChars(s, i, prefix); }
      var j := IdEnd(s, from);
      if Identifier(id) && At(s, i, prefix + id + ">") {
        SliceChars(s, from, from + |id|);
        IdEndIs(s, from, from + |id|);
      }
      if from < j < |s| && s[j] == '>' {
        SliceChars(s, from, j);
        IdentifierIs(s[from..j]);
      }
    }
  }

  lemma Bracket()
    ensures !IsIdChar('>')
  {
  }

  lemma KeywordAtMeans(s: string, i: int, word: string, end: int)
    requires 0 <= i < |s|
    ensures KeywordAt(s, i, word) == Some(Match(i, end, Keyword(word)))
       <==> StandsAlone(s, i, word) && end == i + 1 + |word|
  {
    hide IsWord;
    AtChars(s, i, "@" + word);
    AtChars(s, i + 1, word);
    if At(s, i, "@" + word) {
      forall k | 0 <= k < |word| ensures s[i + 1 + k] == word[k] {
        assert s[i + (k + 1)] == ("@" + word)[k + 1];
      }
      assert s[i + 0] == ("@" + word)[0];
    }
    if s[i] == '@' && At(s, i + 1, word) {
      forall k | 0 <= k < |"@" + word| ensures s[i + k] == ("@" + word)[k] {
        assert k > 0 ==> s[i + 1 + (k - 1)] == word[k - 1];
      }
    }
    if i > 0 { CharClasses(s[i - 1]); }
    if i + 1 + |word| < |s| { CharClasses(s[i + 1 + |word|]); }
  }

  // ---- One match is one reading ----

  /** The first characters tell the alternatives apart, so their order only matters inside code. */
  lemma FirstChars(s: string, i: int, end: int)
    requires 0 <= i < |s|
    ensures CodeSpan(s, i, end) ==> s[i] == '`'
    ensures At(s, i, "<@&") ==> s[i] == '<' && i + 2 < |s| && s[i + 2] == '&'
    ensures At(s, i, "<@") ==> s[i] == '<'
    ensures forall word :: At(s, i, "@" + word) ==> s[i] == '@'
    ensures forall id :: At(s, i, "<@" + id + ">") ==> s[i] == '<' && i + 2 < |s| && s[i + 2] == (id + ">")[0]
    ensures forall id :: At(s, i, "<@&" + id + ">") ==> s[i] == '<' && i + 2 < |s| && s[i + 2] == '&'
  {
    AtChars(s, i, "<@&");
    AtChars(s, i, "<@");
    assert At(s, i, "<@&") ==> s[i + 0] == '<' && s[i + 2] == '&';
    assert At(s, i, "<@") ==> s[i + 0] == '<';
    forall word | At(s, i, "@" + word) ensures s[i] == '@' {
      AtChars(s, i, "@" + word);
      assert s[i + 0] == ("@" + word)[0];
    }
    forall id | At(s, i, "<@" + id + ">") ensures s[i] == '<' && i + 2 < |s| && s[i + 2] == (id + ">")[0] {
      AtChars(s, i, "<@" + id + ">");
      assert s[i + 0] == ("<@" + id + ">")[0] && s[i + 2] == ("<@" + id + ">")[2];
      assert ("<@" + id + ">")[2] == (id + ">")[0];
    }
    forall id | At(s, i, "<@&" + id + ">") ensures s[i] == '<' && i + 2 < |s| && s[i + 2] == '&' {
      AtChars(s, i, "<@&" + id + ">");
      assert s[i + 0] == ("<@&" + id + ">")[0] && s[i + 2] == ("<@&" + id + ">")[2];
    }
  }

  lemma NoAmpersand(id: string)
    requires Identifier(id)
    ensures (id + ">")[0] != '&'
  {
    assert id[0] in id;
  }

  lemma KeywordsDiffer(s: string, i: int)
    requires 0 <= i
    ensures At(s, i, "@" + "everyone") ==> i + 1 < |s| && s[i + 1] == 'e'
    ensures At(s, i, "@" + "here") ==> i + 1 < |s| && s[i + 1] == 'h'
  {
    AtChars(s, i, "@" + "everyone");
    AtChars(s, i, "@" + "here");
    assert ("@" + "everyone")[1] == 'e' && ("@" + "here")[1] == 'h';
  }

  lemma MatchForms(s: string, i: int)
    requires 0 <= i < |s|
    ensures CodeAt(s, i).Some? ==> CodeAt(s, i).value.start == i && CodeAt(s, i).value.kind.Code?
    ensures forall prefix | prefix == "<@&" || prefix == "<@" ::
              TokenAt(s, i, prefix).Some? ==>
                var m := TokenAt(s, i, prefix).value;
                m.start == i && At(s, i, prefix) && exists id :: m.kind == TokenKind(prefix, id)
    ensures forall word :: KeywordAt(s, i, word).Some? ==>
              KeywordAt(s, i, word).value.start == i && KeywordAt(s, i, word).value.kind == Keyword(word) && s[i] == '@'
  {
    hide At, IdEnd, Fence, TickEnd, IsWord;
    forall prefix | prefix == "<@&" || prefix == "<@"
      ensures TokenAt(s, i, prefix).Some? ==>
                var m := TokenAt(s, i, prefix).value;
                m.start == i && At(s, i, prefix) && exists id :: m.kind == TokenKind(prefix, id)
    {
      if TokenAt(s, i, prefix).Some? {
        AtChars(s, i, prefix);
        var from := i + |prefix|;
        assert TokenAt(s, i, prefix).value.kind == TokenKind(prefix, s[from..IdEnd(s, from)]);
      }
    }
  }

  /** The scanner matches `m` at its start exactly when the text there reads as `m`. */
  lemma MatchIsReading(s: string, m: Match)
    requires 0 <= m.start < |s|
    ensures MatchAt(s, m.start) == Some(m) <==> Reads(s, m)
  {
    hide CodeAt, TokenAt, KeywordAt, CodeSpan, At, Identifier, StandsAlone;
    var i := m.start;
    FirstChars(s, i, m.end);
    MatchForms(s, i);
    KeywordsDiffer(s, i);
    CodeStartsWithTick(s, i);
    KeywordAtMeans(s, i, "everyone", m.end);
    KeywordAtMeans(s, i, "here", m.end);
    StandsAt(s, i);
    var e := KeywordAt(s, i, "everyone");
    if e.Some? { KeywordAtMeans(s, i, "everyone", e.value.end); }
    match m.kind
    case Code => CodeAtMeans(s, i, m.end);
    case UserId(id) =>
      TokenAtMeans(s, i, "<@", id, m.end);
      if Identifier(id) { NoAmpersand(id); }
    case RoleId(id) => TokenAtMeans(s, i, "<@&", id, m.end);
    case Keyword(word) =>
  }

  lemma StandsAt(s: string, i: int)
    ensures forall word :: StandsAlone(s, i, word) ==> At(s, i, "@" + word)
  {
  }

  // ---- The scan ----

  /** Readings in text order, without overlap, that leave no reading from `from` on uncovered at its start. */
  ghost predicate ScanFrom(s: string, from: int, ms: seq<Match>) {
    && (forall j :: 0 <= j < |ms| ==> from <= ms[j].start < ms[j].end <= |s| && Reads(s, ms[j]))
    && (forall j, k :: 0 <= j < k < |ms| ==> ms[j].end <= ms[k].start)
    && (forall m: Match :: from <= m.start < |s| && Reads(s, m) ==> Holds(ms, m.start))
  }

  /** Some match of the list covers position `p`. */
  ghost predicate Holds(ms: seq<Match>, p: int) {
    exists j :: 0 <= j < |ms| && ms[j].start <= p < ms[j].end
  }

  /** Some match that began earlier still covers position `p`. */
  ghost predicate Covered(ms: seq<Match>, p: int) {
    exists j :: 0 <= j < |ms| && ms[j].start < p < ms[j].end
  }

  lemma ReadingAt(s: string, i: int)
    requires 0 <= i < |s|
    ensures MatchAt(s, i).Some? ==> Reads(s, MatchAt(s, i).value) && MatchAt(s, i).value.start == i
    ensures MatchAt(s, i).None? ==> forall m: Match :: m.start == i ==> !Reads(s, m)
    ensures forall m: Match :: m.start == i && Reads(s, m) ==> MatchAt(s, i) == Some(m)
  {
    hide MatchAt, Reads;
    if MatchAt(s, i).Some? {
      MatchShape(s, i);
      MatchIsReading(s, MatchAt(s, i).value);
    }
    forall m: Match | m.start == i ensures Reads(s, m) ==> MatchAt(s, i) == Some(m) {
      MatchIsReading(s, m);
    }
  }

  /** The scanner's matches are such a scan. */
  lemma {:induction false} MatchesScan(s: string, from: int)
    requires 0 <= from <= |s|
    ensures ScanFrom(s, from, Matches(s, from))
    decreases |s| - from
  {
    hide MatchAt, Reads;
    var next := NextMatch(s, from);
    if next.None? {
      forall m: Match | from <= m.start < |s| ensures !Reads(s, m) {
        ReadingAt(s, m.start);
      }
    } else {
      var n := next.value;
      MatchShape(s, n.start);
      ReadingAt(s, n.start);
      MatchesScan(s, n.end);
      ScanGrows(s, from, n, Matches(s, n.end));
    }
  }

  lemma ScanGrows(s: string, from: int, n: Match, rest: seq<Match>)
    requires 0 <= from <= n.start < n.end <= |s| && NextMatch(s, from) == Some(n) && Reads(s, n)
    requires ScanFrom(s, n.end, rest)
    ensures ScanFrom(s, from, [n] + rest)
  {
    hide MatchAt, Reads, Holds, NextMatch;
    var ms := [n] + rest;
    forall m: Match | from <= m.start < |s| && Reads(s, m) ensures Holds(ms, m.start) {
      HeldByGrown(s, from, n, rest, m);
    }
    forall j, k | 0 <= j < k < |ms| ensures ms[j].end <= ms[k].start {
      if j > 0 { Apart(s, n.end, rest, j - 1, k - 1); }
    }
  }

  lemma HeldByGrown(s: string, from: int, n: Match, rest: seq<Match>, m: Match)
    requires 0 <= from <= n.start < n.end <= |s| && NextMatch(s, from) == Some(n)
    requires ScanFrom(s, n.end, rest) && from <= m.start < |s| && Reads(s, m)
    ensures Holds([n] + rest, m.start)
  {
    hide MatchAt, Reads;
    var ms := [n] + rest;
    ReadingAt(s, m.start);
    if m.start >= n.end {
      assert Holds(rest, m.start);
      var j :| 0 <= j < |rest| && rest[j].start <= m.start < rest[j].end;
      assert ms[j + 1] == rest[j];
    } else {
      assert ms[0].start <= m.start < ms[0].end;
    }
  }

  /** And there is no other: the grammar and the leftmost rule decide the scan. */
  lemma {:induction false} ScanIsUnique(s: string, from: int, ms: seq<Match>)
    requires 0 <= from <= |s| && ScanFrom(s, from, ms)
    ensures ms == Matches(s, from)
    decreases |s| - from
  {
    hide MatchAt, Reads;
    var next := NextMatch(s, from);
    if ms != [] { ReadingAt(s, ms[0].start); }
    if next.Some? {
      var n := next.value;
      MatchShape(s, n.start);
      ReadingAt(s, n.start);
      FirstIsNext(s, from, ms, n);
      ScanRest(s, from, ms);
      ScanIsUnique(s, n.end, ms[1..]);
      assert ms == [n] + ms[1..];
    }
  }

  lemma FirstIsNext(s: string, from: int, ms: seq<Match>, n: Match)
    requires 0 <= from <= |s| && ScanFrom(s, from, ms) && NextMatch(s, from) == Some(n) && Reads(s, n)
    ensures ms != [] && ms[0] == n
  {
    hide MatchAt, Reads;
    assert Holds(ms, n.start);
    var j :| 0 <= j < |ms| && ms[j].start <= n.start < ms[j].end;
    Apart(s, from, ms, 0, j);
    ReadingAt(s, ms[j].start);
    ReadingAt(s, ms[0].start);
    ReadingAt(s, n.start);
    assert ms[j].start == n.start;
  }

  lemma Apart(s: string, from: int, ms: seq<Match>, j: int, k: int)
    requires ScanFrom(s, from, ms) && 0 <= j < |ms| && 0 <= k < |ms|
    ensures j < k ==> ms[j].end <= ms[k].start
    ensures k < j ==> ms[k].end <= ms[j].start
  {
    hide Reads;
  }

  lemma ScanRest(s: string, from: int, ms: seq<Match>)
    requires ScanFrom(s, from, ms) && ms != []
    ensures ScanFrom(s, ms[0].end, ms[1..])
  {
    hide Reads, Holds;
    var rest, end := ms[1..], ms[0].end;
    RestReads(s, from, ms);
    forall j, k | 0 <= j < k < |rest| ensures rest[j].end <= rest[k].start {
      Apart(s, from, ms, j + 1, k + 1);
    }
    forall m: Match | end <= m.start < |s| && Reads(s, m) ensures Holds(rest, m.start) {
      HeldByRest(s, from, ms, m);
    }
  }

  lemma RestReads(s: string, from: int, ms: seq<Match>)
    requires ScanFrom(s, from, ms) && ms != []
    ensures forall j :: 0 <= j < |ms[1..]| ==>
              ms[0].end <= ms[1..][j].start < ms[1..][j].end <= |s| && Reads(s, ms[1..][j])
  {
    hide Reads, Holds;
    forall j | 0 <= j < |ms[1..]| ensures ms[0].end <= ms[1..][j].start {
      Apart(s, from, ms, 0, j + 1);
    }
  }

  lemma HeldByRest(s: string, from: int, ms: seq<Match>, m: Match)
    requires ScanFrom(s, from, ms) && ms != [] && from <= ms[0].end <= m.start < |s| && Reads(s, m)
    ensures Holds(ms[1..], m.start)
  {
    hide Reads, Holds;
    HoldsTail(ms, m.start);
  }

  lemma HoldsTail(ms: seq<Match>, p: int)
    requires ms != [] && Holds(ms, p) && ms[0].end <= p
    ensures Holds(ms[1..], p)
  {
    var j :| 0 <= j < |ms| && ms[j].start <= p < ms[j].end;
    assert ms[1..][j - 1] == ms[j];
  }

  /** A reading is matched exactly when no earlier match covers its start. */
  lemma MatchedIff(s: string, ms: seq<Match>, m: Match)
    requires ScanFrom(s, 0, ms) && 0 <= m.start < |s| && Reads(s, m)
    ensures m in ms <==> !Covered(ms, m.start)
  {
    hide Reads, MatchAt;
    ReadingAt(s, m.start);
    assert Holds(ms, m.start);
    var j :| 0 <= j < |ms| && ms[j].start <= m.start < ms[j].end;
    if ms[j].start == m.start {
      assert ms[j] == m;
      forall k | 0 <= k < |ms| ensures !(ms[k].start < m.start < ms[k].end) {
        Apart(s, 0, ms, j, k);
      }
    } else {
      assert Covered(ms, m.start);
      if k :| 0 <= k < |ms| && ms[k] == m {
        Apart(s, 0, ms, j, k);
      }
    }
  }

  // ---- What becomes a part ----

  /** The part a reading of this kind makes, with the text it stands for. */
  function PartFor(kind: Kind): Part {
    match kind
    case Code => Text("")
    case UserId(id) => User(id, "<@" + id + ">")
    case RoleId(id) => Role(id, "<@&" + id + ">")
    case Keyword(word) => Everyone(word, "@" + word)
  }

  ghost predicate PartAt(parts: seq<Part>, k: int, p: int, part: Part) {
    0 <= k < |parts| && parts[k] == part && Offset(parts, k) == p
  }

  /** The token or keyword stands in the text at `p`. */
  ghost predicate Stands(s: string, p: int, kind: Kind) {
    0 <= p < |s| && !kind.Code? && Reads(s, Match(p, p + |Spelled(kind)|, kind))
  }

  lemma ReadingText(s: string, m: Match)
    requires 0 <= m.start < |s| && Reads(s, m) && !m.kind.Code?
    ensures m.end == m.start + |Spelled(m.kind)| <= |s| && MentionPart(s, m) == PartFor(m.kind)
  {
    hide Identifier, IsWord;
    assert At(s, m.start, Spelled(m.kind));
  }

  /**
   * A mention is a part, where it stands and with its own id or word, exactly when the text there reads as that
   * mention and no earlier match of the scan covers it.
   */
  lemma MentionIsPartIff(s: string, p: int, kind: Kind, ms: seq<Match>)
    requires ScanFrom(s, 0, ms) && !kind.Code?
    ensures (exists k :: PartAt(SplitFrom(s, 0, 0), k, p, PartFor(kind))) <==> Stands(s, p, kind) && !Covered(ms, p)
  {
    hide Reads, Matches, SplitFrom, Spelled, ScanFrom, Offset;
    var parts := SplitFrom(s, 0, 0);
    ScanIsUnique(s, 0, ms);
    if Stands(s, p, kind) && !Covered(ms, p) {
      var m := Match(p, p + |Spelled(kind)|, kind);
      MatchedIff(s, ms, m);
      ReadingText(s, m);
      var k := MatchIsPart(s, 0, 0, m);
      assert PartAt(parts, k, p, PartFor(kind));
    }
    if k :| PartAt(parts, k, p, PartFor(kind)) {
      var m := PartIsMatch(s, 0, 0, k);
      ScannedReads(s, ms, m);
      ReadingText(s, m);
      assert PartFor(m.kind) == PartFor(kind) && m.kind == kind;
      MatchedIff(s, ms, m);
    }
  }

  lemma ScannedReads(s: string, ms: seq<Match>, m: Match)
    requires ScanFrom(s, 0, ms) && m in ms
    ensures 0 <= m.start < m.end <= |s| && Reads(s, m)
  {
    hide Reads;
  }

  /** A fenced or inline code span that no earlier match covers is code, and no mention part touches it. */
  lemma CodeSpanHoldsNoMention(s: string, i: int, end: int, ms: seq<Match>)
    requires ScanFrom(s, 0, ms) && CodeSpan(s, i, end) && !Covered(ms, i)
    ensures Match(i, end, Code) in ms
    ensures var parts := SplitFrom(s, 0, 0);
            forall k :: 0 <= k < |parts| && !parts[k].Text? ==>
              Offset(parts, k) + |Raw(parts[k])| <= i || end <= Offset(parts, k)
  {
    hide Matches, SplitFrom, ScanFrom, Offset, MatchAt;
    var parts, code := SplitFrom(s, 0, 0), Match(i, end, Code);
    MatchedIff(s, ms, code);
    ScanIsUnique(s, 0, ms);
    forall k | 0 <= k < |parts| && !parts[k].Text?
      ensures Offset(parts, k) + |Raw(parts[k])| <= i || end <= Offset(parts, k)
    {
      NoMentionInCode(s, k, code);
    }
  }

  /** A message pings exactly the users, roles and keywords that stand in it outside earlier matches. */
  lemma PingsExactly(s: string, ms: seq<Match>)
    requires ScanFrom(s, 0, ms)
    ensures var r := Mentioned(Some(s));
            && (forall id :: id in r.userIds <==> exists p :: Stands(s, p, UserId(id)) && !Covered(ms, p))
            && (forall id :: id in r.roleIds <==> exists p :: Stands(s, p, RoleId(id)) && !Covered(ms, p))
            && (r.everyone <==> exists p, word :: Stands(s, p, Keyword(word)) && !Covered(ms, p))
  {
    hide ScanFrom, SplitFrom, Offset, Stands, Covered;
    var parts := SplitFrom(s, 0, 0);
    forall id
      ensures id in Users(parts) <==> exists p :: Stands(s, p, UserId(id)) && !Covered(ms, p)
      ensures id in Roles(parts) <==> exists p :: Stands(s, p, RoleId(id)) && !Covered(ms, p)
    {
      KindInParts(s, UserId(id), ms);
      KindInParts(s, RoleId(id), ms);
      if id in Users(parts) {
        var part :| part in parts && part.User? && part.userId == id;
        PartIsSpelled(s, part, ms);
      }
      if id in Roles(parts) {
        var part :| part in parts && part.Role? && part.roleId == id;
        PartIsSpelled(s, part, ms);
      }
    }
    if Mass(parts) {
      var part :| part in parts && part.Everyone?;
      PartIsSpelled(s, part, ms);
      KindInParts(s, Keyword(part.keyword), ms);
    }
    if p, word :| Stands(s, p, Keyword(word)) && !Covered(ms, p) {
      KindInParts(s, Keyword(word), ms);
    }
  }

  lemma KindInParts(s: string, kind: Kind, ms: seq<Match>)
    requires ScanFrom(s, 0, ms) && !kind.Code?
    ensures PartFor(kind) in SplitFrom(s, 0, 0) <==> exists p :: Stands(s, p, kind) && !Covered(ms, p)
  {
    hide ScanFrom, SplitFrom, Stands, Covered, Offset;
    var parts, part := SplitFrom(s, 0, 0), PartFor(kind);
    if part in parts {
      var k :| 0 <= k < |parts| && parts[k] == part;
      assert PartAt(parts, k, Offset(parts, k), part);
      MentionIsPartIff(s, Offset(parts, k), kind, ms);
    }
    if p :| Stands(s, p, kind) && !Covered(ms, p) {
      MentionIsPartIff(s, p, kind, ms);
    }
  }

  lemma PartIsSpelled(s: string, part: Part, ms: seq<Match>)
    requires ScanFrom(s, 0, ms) && part in SplitFrom(s, 0, 0) && !part.Text?
    ensures part.User? ==> part == PartFor(UserId(part.userId))
    ensures part.Role? ==> part == PartFor(RoleId(part.roleId))
    ensures part.Everyone? ==> part == PartFor(Keyword(part.keyword))
  {
    hide Reads, Matches, SplitFrom, ScanFrom, Offset;
    var parts := SplitFrom(s, 0, 0);
    var k :| 0 <= k < |parts| && parts[k] == part;
    var m := PartIsMatch(s, 0, 0, k);
    ScanIsUnique(s, 0, ms);
    ScannedReads(s, ms, m);
    ReadingText(s, m);
  }

  /** A message that is one code span pings nobody, whatever the span holds. */
  lemma CodeAlonePingsNobody(s: string)
    requires s != "" && CodeSpan(s, 0, |s|)
    ensures Mentioned(Some(s)) == Parsed({}, {}, false)
  {
    hide Matches, CodeSpan, Mentioned;
    var ms := Matches(s, 0);
    MatchesScan(s, 0);
    NoneBefore(s, ms);
    CodeSpanHoldsNoMention(s, 0, |s|, ms);
    forall p, kind: Kind | !kind.Code? ensures !(Stands(s, p, kind) && !Covered(ms, p)) {
      if Stands(s, p, kind) { StandsInside(s, p, kind, ms); }
    }
    PingsExactly(s, ms);
    var r := Mentioned(Some(s));
    assert forall id :: id !in r.userIds && id !in r.roleIds;
  }

  lemma NoneBefore(s: string, ms: seq<Match>)
    requires ScanFrom(s, 0, ms)
    ensures !Covered(ms, 0)
  {
    hide Reads;
  }

  lemma StandsInside(s: string, p: int, kind: Kind, ms: seq<Match>)
    requires Stands(s, p, kind) && s != "" && CodeSpan(s, 0, |s|) && Match(0, |s|, Code) in ms
    ensures Covered(ms, p)
  {
    hide Identifier, StandsAlone;
    FirstChars(s, p, |s|);
    StandsAt(s, p);
    var j :| 0 <= j < |ms| && ms[j] == Match(0, |s|, Code);
    assert p != 0;
  }
}
