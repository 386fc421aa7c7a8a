// The directory hub's tables, the diff write with its hash fast path, and the ping and housekeeping steps over them.
module Hub {
  import opened Prelude
  import opened Merge
  import opened HubDocument

  /** The primary key of `spaces`. */
  datatype Key = Key(origin: string, id: string)

  datatype StoredSpace = StoredSpace(space: Space, rowHash: Digest)

  datatype OriginRow = OriginRow(instanceName: string, federatedRegistrationOpen: bool, version: Option<string>,
                                 documentHash: Digest, firstSeenAt: int, lastOkAt: int)

  datatype Tables = Tables(origins: map<string, OriginRow>, spaces: map<Key, StoredSpace>, attempts: map<string, int>)

  const EMPTY := Tables(map[], map[], map[])

  const ORIGIN_COOLDOWN_MS := 10_000
  const RETENTION_MS := 30 * 86_400_000

  // ---- Statements ----

  /** The rows one `applyDocument` batch carries, in order. */
  datatype Statement =
    | UpsertOrigin(origin: string, parent: OriginRow)
    | DeleteSpace(key: Key)
    | UpsertSpace(key: Key, row: StoredSpace)

  /** `ON CONFLICT(origin)` keeps the first `first_seen_at`. */
  function Exec(db: Tables, s: Statement): Tables {
    match s
    case UpsertOrigin(o, row) =>
      db.(origins := db.origins[o := if o in db.origins then row.(firstSeenAt := db.origins[o].firstSeenAt) else row])
    case DeleteSpace(key) => db.(spaces := db.spaces - {key})
    case UpsertSpace(key, row) => db.(spaces := db.spaces[key := row])
  }

  function ExecAll(db: Tables, statements: seq<Statement>): Tables {
    if statements == [] then db
    else Exec(ExecAll(db, statements[..|statements| - 1]), statements[|statements| - 1])
  }

  lemma {:induction false} ExecJoin(db: Tables, a: seq<Statement>, b: seq<Statement>)
    ensures ExecAll(db, a + b) == ExecAll(ExecAll(db, a), b)
  {
    if b == [] {
      assert a + b == a;
    } else {
      assert (a + b)[..|a + b| - 1] == a + b[..|b| - 1];
      ExecJoin(db, a, b[..|b| - 1]);
    }
  }

  lemma ExecOne(db: Tables, s: Statement)
    ensures ExecAll(db, [s]) == Exec(db, s)
  {
    assert [s][..0] == [];
  }

  /** `new Map(doc.spaces.map(s => [s.id, s]))`: the last occurrence of an id wins. */
  function Incoming(doc: Document): seq<Space> {
    PutAll([], IdOf(), doc.spaces, Overwrite)
  }

  function RowOf(space: Space): StoredSpace {
    StoredSpace(space, RowHash(space))
  }

  function OriginRowOf(doc: Document, hash: Digest, at: int): OriginRow {
    OriginRow(doc.instanceName, doc.federatedRegistrationOpen, doc.version, hash, at, at)
  }

  predicate HasId(spaces: seq<Space>, id: string) {
    Find(spaces, IdOf(), id).Some?
  }

  /** What storing the document from scratch leaves: its rows for the origin, everything else as it was. */
  function FullRewrite(db: Tables, origin: string, doc: Document, hash: Digest, at: int): Tables {
    var rows := Incoming(doc);
    var kept := map k | k in db.spaces && k.origin != origin :: db.spaces[k];
    var keys := set s | s in rows :: Key(origin, s.id);
    var listed := map k | k in keys && HasId(rows, k.id) :: RowOf(Find(rows, IdOf(), k.id).value);
    Exec(db, UpsertOrigin(origin, OriginRowOf(doc, hash, at))).(spaces := kept + listed)
  }

  function Touch(db: Tables, origin: string, at: int): Tables {
    if origin in db.origins then db.(origins := db.origins[origin := db.origins[origin].(lastOkAt := at)]) else db
  }

  function Purge(db: Tables, cutoff: int): Tables {
    var origins := map o | o in db.origins && db.origins[o].lastOkAt >= cutoff :: db.origins[o];
    Tables(origins,
           map k | k in db.spaces && (k.origin !in db.origins || k.origin in origins) :: db.spaces[k],
           map o | o in db.attempts && db.attempts[o] >= cutoff :: db.attempts[o])
  }

  // ---- The cache-agreement invariant ----

  /** `doc` is what the tables hold for `origin`: its instance columns and exactly its rows. */
  ghost predicate Describes(db: Tables, origin: string, doc: Document) {
    && UniqueIds(doc) && origin in db.origins
    && db.origins[origin].instanceName == doc.instanceName
    && db.origins[origin].federatedRegistrationOpen == doc.federatedRegistrationOpen
    && db.origins[origin].version == doc.version
    && (forall s | s in doc.spaces :: Key(origin, s.id) in db.spaces && db.spaces[Key(origin, s.id)].space == s)
    && (forall k | k in db.spaces && k.origin == origin :: db.spaces[k].space in doc.spaces)
  }

  ghost predicate RowsConsistent(db: Tables) {
    forall k | k in db.spaces :: k.origin in db.origins && db.spaces[k] == RowOf(db.spaces[k].space)
                                 && db.spaces[k].space.id == k.id
  }

  ghost predicate HashConsistent(db: Tables, origin: string) {
    exists doc :: Describes(db, origin, doc) && origin in db.origins
                  && db.origins[origin].documentHash == DocumentHash(doc)
  }

  /** Every row hash matches its row, no row lacks its origin, every document hash is that of the stored document. */
  ghost predicate Consistent(db: Tables) {
    RowsConsistent(db) && forall o | o in db.origins :: HashConsistent(db, o)
  }

  lemma DescribedOnce(db: Tables, origin: string, a: Document, b: Document)
    requires Describes(db, origin, a) && Describes(db, origin, b)
    ensures SameContent(a, b) && DocumentHash(a) == DocumentHash(b)
  {
    forall s ensures s in a.spaces <==> s in b.spaces {
    }
    DocumentHashIff(a, b);
  }

  /** In consistent tables, a document's hash is the stored one exactly when the document is what is stored. */
  lemma HashMatchesIff(db: Tables, origin: string, doc: Document)
    requires Consistent(db) && UniqueIds(doc) && origin in db.origins
    ensures db.origins[origin].documentHash == DocumentHash(doc) <==> Describes(db, origin, doc)
  {
    hide RowHash, DocumentHash;
    assert HashConsistent(db, origin);
    var stored :| Describes(db, origin, stored) && db.origins[origin].documentHash == DocumentHash(stored);
    if Describes(db, origin, doc) {
      DescribedOnce(db, origin, stored, doc);
    }
    if DocumentHash(stored) == DocumentHash(doc) {
      DocumentHashIff(stored, doc);
    }
  }

  lemma IncomingOfUnique(doc: Document)
    requires UniqueIds(doc)
    ensures DistinctKeys(Incoming(doc), IdOf())
    ensures forall s :: s in Incoming(doc) <==> s in doc.spaces
  {
    PutAllDistinct([], IdOf(), doc.spaces, Overwrite);
    var rows := Incoming(doc);
    forall s ensures s in rows <==> s in doc.spaces {
      PutAllFinds([], IdOf(), doc.spaces, Overwrite, s.id);
      FindLastDistinct(doc.spaces, IdOf(), s.id);
      FindSound(rows, IdOf(), s.id);
      FindSound(doc.spaces, IdOf(), s.id);
      if s in rows { FindDistinct(rows, IdOf(), s); }
      if s in doc.spaces { FindDistinct(doc.spaces, IdOf(), s); }
    }
  }

  lemma {:induction false} PutAllNew(entries: seq<Space>, rows: seq<Space>)
    requires DistinctKeys(entries + rows, IdOf())
    ensures PutAll(entries, IdOf(), rows, Overwrite) == entries + rows
    decreases |rows|
  {
    if rows == [] {
      assert entries + rows == entries;
    } else {
      PutNew(entries, rows[0], entries + rows);
      assert entries + [rows[0]] + rows[1..] == entries + rows;
      PutAllNew(entries + [rows[0]], rows[1..]);
    }
  }

  lemma {:induction false} PutNew(entries: seq<Space>, row: Space, all: seq<Space>)
    requires DistinctKeys(all, IdOf()) && |entries| < |all| && all[..|entries|] == entries && all[|entries|] == row
    ensures Put(entries, IdOf(), row) == entries + [row]
    decreases |entries|
  {
    if entries != [] {
      assert IdOf()(all[0]) != IdOf()(all[|entries|]) && all[0] == entries[0];
      assert all[1..][..|entries| - 1] == entries[1..];
      forall i, j | 0 <= i < j < |all[1..]| ensures IdOf()(all[1..][i]) != IdOf()(all[1..][j]) {
        assert IdOf()(all[i + 1]) != IdOf()(all[j + 1]);
      }
      PutNew(entries[1..], row, all[1..]);
    }
  }

  /** Unique ids leave the document's list as it is. */
  lemma IncomingIsList(doc: Document)
    requires UniqueIds(doc)
    ensures Incoming(doc) == doc.spaces
  {
    assert [] + doc.spaces == doc.spaces;
    PutAllNew([], doc.spaces);
  }

  lemma FullRewriteRows(db: Tables, origin: string, doc: Document, hash: Digest, at: int)
    requires UniqueIds(doc)
    ensures var after := FullRewrite(db, origin, doc, hash, at);
            && (forall s | s in doc.spaces :: Key(origin, s.id) in after.spaces
                                              && after.spaces[Key(origin, s.id)] == RowOf(s))
            && (forall k :: k in after.spaces && k.origin == origin ==>
                  after.spaces[k].space in doc.spaces && after.spaces[k] == RowOf(after.spaces[k].space)
                  && k.id == after.spaces[k].space.id)
            && (forall k: Key :: k.origin != origin ==> (k in after.spaces <==> k in db.spaces))
            && (forall k: Key :: k.origin != origin && k in db.spaces ==> after.spaces[k] == db.spaces[k])
            && (forall o :: o in after.origins <==> o == origin || o in db.origins)
            && (forall o :: o in db.origins && o != origin ==> after.origins[o] == db.origins[o])
  {
    hide RowHash, DocumentHash, Incoming;
    IncomingOfUnique(doc);
    var rows := Incoming(doc);
    forall s | s in rows ensures Find(rows, IdOf(), s.id) == Some(s) {
      FindDistinct(rows, IdOf(), s);
    }
    forall id | HasId(rows, id)
      ensures Find(rows, IdOf(), id).value in rows && Find(rows, IdOf(), id).value.id == id
    {
      FindSound(rows, IdOf(), id);
    }
  }

  lemma OtherOriginKept(db: Tables, after: Tables, o: string)
    requires HashConsistent(db, o) && o in after.origins && after.origins[o] == db.origins[o]
    requires forall k: Key :: k.origin == o ==> (k in after.spaces <==> k in db.spaces)
    requires forall k: Key :: k.origin == o && k in db.spaces ==> after.spaces[k] == db.spaces[k]
    ensures HashConsistent(after, o)
  {
    var doc :| Describes(db, o, doc) && db.origins[o].documentHash == DocumentHash(doc);
    assert Describes(after, o, doc);
  }

  lemma FullRewriteConsistent(db: Tables, origin: string, doc: Document, at: int)
    requires Consistent(db) && UniqueIds(doc)
    ensures var after := FullRewrite(db, origin, doc, DocumentHash(doc), at);
            Consistent(after) && Describes(after, origin, doc)
  {
    hide RowHash, DocumentHash, Incoming, FullRewrite, HashConsistent;
    var after := FullRewrite(db, origin, doc, DocumentHash(doc), at);
    FullRewriteRows(db, origin, doc, DocumentHash(doc), at);
    RewriteOriginRow(db, origin, doc, DocumentHash(doc), at);
    DescribedHash(after, origin, doc);
    forall o | o in after.origins ensures HashConsistent(after, o) {
      if o != origin { OtherOriginKept(db, after, o); }
    }
  }

  lemma RewriteOriginRow(db: Tables, origin: string, doc: Document, hash: Digest, at: int)
    ensures var after := FullRewrite(db, origin, doc, hash, at);
            origin in after.origins && after.origins[origin].(firstSeenAt := at) == OriginRowOf(doc, hash, at)
  {
    hide Incoming;
  }

  lemma DescribedHash(db: Tables, origin: string, doc: Document)
    requires Describes(db, origin, doc) && db.origins[origin].documentHash == DocumentHash(doc)
    ensures HashConsistent(db, origin)
  {
  }

  lemma PurgeConsistent(db: Tables, cutoff: int)
    requires Consistent(db)
    ensures Consistent(Purge(db, cutoff))
  {
    var after := Purge(db, cutoff);
    forall o | o in after.origins ensures HashConsistent(after, o) {
      OtherOriginKept(db, after, o);
    }
  }

  /** The same-hash shortcut ends in the same tables as storing the document again in full. */
  lemma ShortcutIsRewrite(db: Tables, origin: string, doc: Document, at: int)
    requires Consistent(db) && UniqueIds(doc)
    requires origin in db.origins && db.origins[origin].documentHash == DocumentHash(doc)
    ensures Touch(db, origin, at) == FullRewrite(db, origin, doc, DocumentHash(doc), at)
  {
    hide RowHash, DocumentHash, Incoming;
    HashMatchesIff(db, origin, doc);
    var a, b := Touch(db, origin, at), FullRewrite(db, origin, doc, DocumentHash(doc), at);
    assert a.origins == b.origins;
    forall k ensures SameAt(a.spaces, b.spaces, k) {
      ShortcutRow(db, origin, doc, at, k);
    }
    MapsEqual(a.spaces, b.spaces);
  }

  lemma MapsEqual(a: map<Key, StoredSpace>, b: map<Key, StoredSpace>)
    requires forall k :: SameAt(a, b, k)
    ensures a == b
  {
    forall k ensures k in a <==> k in b {
      assert SameAt(a, b, k);
    }
    forall k | k in a ensures a[k] == b[k] {
      assert SameAt(a, b, k);
    }
  }

  lemma ShortcutRow(db: Tables, origin: string, doc: Document, at: int, k: Key)
    requires RowsConsistent(db) && Describes(db, origin, doc)
    ensures SameAt(db.spaces, FullRewrite(db, origin, doc, DocumentHash(doc), at).spaces, k)
  {
    hide RowHash, DocumentHash, Incoming, FullRewrite;
    FullRewriteRows(db, origin, doc, DocumentHash(doc), at);
    if k in db.spaces && k.origin == origin {
      assert db.spaces[k].space in doc.spaces && k == Key(origin, db.spaces[k].space.id);
    }
  }

  // ---- The diff write ----

  /** The stored `(id, row_hash)` pairs of one origin. */
  function StoredHashes(db: Tables, origin: string): (m: map<string, Digest>)
    ensures forall id :: id in m <==> Key(origin, id) in db.spaces
    ensures forall id | id in m :: m[id] == db.spaces[Key(origin, id)].rowHash
  {
    map k | k in db.spaces && k.origin == origin :: k.id := db.spaces[k].rowHash
  }

  /** What one read of the stored pairs returned: the ids in the order of the rows, and each one's hash. */
  ghost predicate Lists(ids: seq<string>, stored: map<string, Digest>) {
    Distinct(ids) && forall id :: id in ids <==> id in stored
  }

  function Gone(incoming: seq<Space>): string -> bool {
    (id: string) => !HasId(incoming, id)
  }

  function DeleteOf(origin: string): string -> Statement {
    (id: string) => DeleteSpace(Key(origin, id))
  }

  /** A document row the stored hash of its id does not match. */
  function Changed(stored: map<string, Digest>): Space -> bool {
    (s: Space) => !(s.id in stored && stored[s.id] == RowHash(s))
  }

  function UpsertOf(origin: string): Space -> Statement {
    (s: Space) => UpsertSpace(Key(origin, s.id), RowOf(s))
  }

  function Deletes(ids: seq<string>, origin: string, incoming: seq<Space>): seq<Statement> {
    Map(DeleteOf(origin), Filter(Gone(incoming), ids))
  }

  function Upserts(stored: map<string, Digest>, origin: string, incoming: seq<Space>): seq<Statement> {
    Map(UpsertOf(origin), Filter(Changed(stored), incoming))
  }

  /** The statements `applyDocument` builds from what it read; they may run on other tables than those it read. */
  function Batch(ids: seq<string>, stored: map<string, Digest>, origin: string, doc: Document, hash: Digest, at: int)
    : seq<Statement>
  {
    [UpsertOrigin(origin, OriginRowOf(doc, hash, at))] + Deletes(ids, origin, Incoming(doc))
    + Upserts(stored, origin, Incoming(doc))
  }

  /**
   * What the batch built from `stored` leaves in `spaces`: ids that were stored and are gone are deleted, new or
   * differing rows are written, rows whose stored hash matched are not touched.
   */
  ghost predicate DiffEffect(before: map<Key, StoredSpace>, after: map<Key, StoredSpace>, origin: string,
                             rows: seq<Space>, stored: map<string, Digest>)
  {
    && (forall k: Key :: k.origin != origin ==> SameAt(before, after, k))
    && (forall id :: !HasId(rows, id) && id in stored ==> Key(origin, id) !in after)
    && (forall id :: !HasId(rows, id) && id !in stored ==> SameAt(before, after, Key(origin, id)))
    && (forall s | s in rows ::
          if s.id in stored && stored[s.id] == RowHash(s) then SameAt(before, after, Key(origin, s.id))
          else Key(origin, s.id) in after && after[Key(origin, s.id)] == RowOf(s))
  }

  ghost predicate SameAt(a: map<Key, StoredSpace>, b: map<Key, StoredSpace>, k: Key) {
    (k in a <==> k in b) && (k in a ==> a[k] == b[k])
  }

  /** The snapshot the batch was built from still holds, as far as the document needs it. */
  ghost predicate StillCurrent(before: map<Key, StoredSpace>, origin: string, rows: seq<Space>,
                               stored: map<string, Digest>)
  {
    && (forall s | s in rows && s.id in stored && stored[s.id] == RowHash(s) ::
          Key(origin, s.id) in before && before[Key(origin, s.id)] == RowOf(s))
    && (forall k | k in before && k.origin == origin && !HasId(rows, k.id) :: k.id in stored)
  }

  lemma EffectIsRewriteIff(before: map<Key, StoredSpace>, after: map<Key, StoredSpace>, origin: string, doc: Document,
                         stored: map<string, Digest>, db: Tables, hash: Digest, at: int)
    requires UniqueIds(doc) && before == db.spaces
    requires DiffEffect(before, after, origin, Incoming(doc), stored)
    ensures after == FullRewrite(db, origin, doc, hash, at).spaces
       <==> StillCurrent(before, origin, Incoming(doc), stored)
  {
    hide RowHash, Incoming, FullRewrite, DocumentHash, StillCurrent, DiffEffect;
    var full := FullRewrite(db, origin, doc, hash, at).spaces;
    if StillCurrent(before, origin, Incoming(doc), stored) {
      forall k ensures SameAt(after, full, k) {
        CurrentAgrees(before, after, origin, doc, stored, db, hash, at, k);
      }
      MapsEqual(after, full);
    }
    if after == full {
      AgreeingIsCurrent(before, after, origin, doc, stored, db, hash, at);
    }
  }

  lemma HasIdMeans(rows: seq<Space>, id: string)
    ensures HasId(rows, id) <==> exists s :: s in rows && s.id == id
  {
    FindSound(rows, IdOf(), id);
  }

  lemma CurrentAgrees(before: map<Key, StoredSpace>, after: map<Key, StoredSpace>, origin: string, doc: Document,
                      stored: map<string, Digest>, db: Tables, hash: Digest, at: int, k: Key)
    requires UniqueIds(doc) && before == db.spaces
    requires DiffEffect(before, after, origin, Incoming(doc), stored)
    requires StillCurrent(before, origin, Incoming(doc), stored)
    ensures SameAt(after, FullRewrite(db, origin, doc, hash, at).spaces, k)
  {
    hide RowHash, Incoming, FullRewrite, DocumentHash;
    var rows := Incoming(doc);
    var full := FullRewrite(db, origin, doc, hash, at).spaces;
    IncomingOfUnique(doc);
    FullRewriteRows(db, origin, doc, hash, at);
    assert k == Key(k.origin, k.id);
    HasIdMeans(rows, k.id);
    assert k.origin == origin && k in full ==> full[k].space in rows;
    if k.origin == origin && HasId(rows, k.id) {
      var s :| s in rows && s.id == k.id;
    }
  }

  lemma AgreeingIsCurrent(before: map<Key, StoredSpace>, after: map<Key, StoredSpace>, origin: string, doc: Document,
                          stored: map<string, Digest>, db: Tables, hash: Digest, at: int)
    requires UniqueIds(doc) && before == db.spaces
    requires DiffEffect(before, after, origin, Incoming(doc), stored)
    requires after == FullRewrite(db, origin, doc, hash, at).spaces
    ensures StillCurrent(before, origin, Incoming(doc), stored)
  {
    hide RowHash, Incoming, FullRewrite, DocumentHash;
    var rows := Incoming(doc);
    IncomingOfUnique(doc);
    FullRewriteRows(db, origin, doc, hash, at);
    forall k | k in before && k.origin == origin && !HasId(rows, k.id) ensures k.id in stored {
      assert k == Key(origin, k.id);
      HasIdMeans(rows, k.id);
      assert k.id !in stored ==> SameAt(before, after, k);
      assert k in after ==> after[k].space in rows;
    }
  }

  lemma SnapshotIsCurrent(db: Tables, origin: string, doc: Document)
    requires RowsConsistent(db) && UniqueIds(doc)
    ensures StillCurrent(db.spaces, origin, Incoming(doc), StoredHashes(db, origin))
  {
    hide RowHash, Incoming;
    var stored := StoredHashes(db, origin);
    forall s | s in Incoming(doc) && s.id in stored && stored[s.id] == RowHash(s)
      ensures Key(origin, s.id) in db.spaces && db.spaces[Key(origin, s.id)] == RowOf(s)
    {
      RowHashInjective(db.spaces[Key(origin, s.id)].space, s);
    }
    forall k | k in db.spaces && k.origin == origin ensures k.id in stored {
      assert k == Key(origin, k.id);
    }
  }

  function IsInsert(stored: map<string, Digest>): Space -> bool {
    (s: Space) => s.id !in stored
  }

  function IsUpdate(stored: map<string, Digest>): Space -> bool {
    (s: Space) => s.id in stored && stored[s.id] != RowHash(s)
  }

  datatype ApplyResult = ApplyResult(inserted: nat, updated: nat, deleted: nat)

  datatype PingFailure = Unreachable | BadStatus | Invalid | OriginMismatch

  /** The outcome of steps 5 and 6: the fetched, validated document or the reason there is none. */
  datatype Fetched = Failed(reason: PingFailure) | Valid(doc: Document)

  datatype Request = Retired | Limited | BadBody | PingFor(origin: string)

  function PingStep(db: Tables, request: Request, now: int, fetched: Fetched, okAt: int): (Tables, int) {
    match request
    case Retired => (db, 410)
    case Limited => (db, 429)
    case BadBody => (db, 400)
    case PingFor(origin) =>
      if origin in db.attempts && now - db.attempts[origin] < ORIGIN_COOLDOWN_MS then (db, 429)
      else
        var tried := db.(attempts := db.attempts[origin := now]);
        match fetched
        case Failed(_) => (tried, 502)
        case Valid(doc) => (FullRewrite(tried, origin, doc, DocumentHash(doc), okAt), 204)
  }

  /** What a ping does, the same-hash shortcut and the apply told apart. */
  function PingEffect(db: Tables, request: Request, now: int, fetched: Fetched, okAt: int): (Tables, int) {
    if !request.PingFor? || !fetched.Valid? then PingStep(db, request, now, fetched, okAt)
    else
      var origin, doc := request.origin, fetched.doc;
      var tried := db.(attempts := db.attempts[origin := now]);
      if origin in db.attempts && now - db.attempts[origin] < ORIGIN_COOLDOWN_MS then (db, 429)
      else if origin in db.origins && db.origins[origin].documentHash == DocumentHash(doc) then
        (Touch(tried, origin, okAt), 204)
      else (FullRewrite(tried, origin, doc, DocumentHash(doc), okAt), 204)
  }

  /** The ping names an origin that tried less than ten seconds before. */
  predicate Cooling(db: Tables, request: Request, now: int) {
    request.PingFor? && request.origin in db.attempts && now - db.attempts[request.origin] < 10_000
  }

  /** Which status a ping gets, and that only a 204 touches what is listed. */
  lemma PingStatus(db: Tables, request: Request, now: int, fetched: Fetched, okAt: int)
    ensures var (after, status) := PingEffect(db, request, now, fetched, okAt);
            && (status == 410 <==> request.Retired?)
            && (status == 429 <==> request.Limited? || Cooling(db, request, now))
            && (status == 400 <==> request.BadBody?)
            && (status == 502 <==> request.PingFor? && !Cooling(db, request, now) && fetched.Failed?)
            && (status == 204 <==> request.PingFor? && !Cooling(db, request, now) && fetched.Valid?)
            && (status in {400, 410, 429} ==> after == db)
            && (status != 204 ==> after.origins == db.origins && after.spaces == db.spaces)
            && (status in {204, 502} ==> after.attempts == db.attempts[request.origin := now])
  {
  }

  /** After a 204 the origin's row is the document's, seen first when it was first stored; other rows stay. */
  lemma PingWritesOrigin(db: Tables, origin: string, now: int, doc: Document, okAt: int)
    requires !Cooling(db, PingFor(origin), now)
    ensures var after := PingEffect(db, PingFor(origin), now, Valid(doc), okAt).0;
            && after.origins.Keys == db.origins.Keys + {origin}
            && after.origins[origin].documentHash == DocumentHash(doc) && after.origins[origin].lastOkAt == okAt
            && after.origins[origin].firstSeenAt
               == (if origin in db.origins then db.origins[origin].firstSeenAt else okAt)
            && forall o | o in db.origins && o != origin :: after.origins[o] == db.origins[o]
  {
    hide DocumentHash, Incoming;
  }

  /** While the tables are consistent, the shortcut does not show. */
  lemma EffectIsStep(db: Tables, request: Request, now: int, fetched: Fetched, okAt: int)
    requires Consistent(db) && (fetched.Valid? ==> UniqueIds(fetched.doc))
    ensures PingEffect(db, request, now, fetched, okAt) == PingStep(db, request, now, fetched, okAt)
  {
    hide FullRewrite, DocumentHash, RowHash, Touch, Consistent;
    if request.PingFor? && fetched.Valid? {
      var origin := request.origin;
      var tried := db.(attempts := db.attempts[origin := now]);
      AttemptConsistent(db, origin, now);
      if origin in db.origins && db.origins[origin].documentHash == DocumentHash(fetched.doc) {
        ShortcutIsRewrite(tried, origin, fetched.doc, okAt);
      }
    }
  }

  /** A space counts as inserted iff the tables have no row of its id, as updated iff their row is another space. */
  lemma CountedIff(db: Tables, origin: string, s: Space)
    requires RowsConsistent(db)
    ensures var key, stored := Key(origin, s.id), StoredHashes(db, origin);
            && (IsInsert(stored)(s) <==> key !in db.spaces)
            && (IsUpdate(stored)(s) <==> key in db.spaces && db.spaces[key].space != s)
  {
    hide RowHash;
    if Key(origin, s.id) in db.spaces { RowHashInjective(db.spaces[Key(origin, s.id)].space, s); }
  }

  class Directory {
    var tables: Tables

    constructor ()
      ensures tables == EMPTY
    {
      tables := EMPTY;
    }

    /** Reads the stored hashes, then runs one batch: the origin row, deletes, and the rows that differ. */
    method ApplyDocument(origin: string, doc: Document, docHash: Digest, at: int) returns (result: ApplyResult)
      requires RowsConsistent(tables) && UniqueIds(doc)
      modifies this
      ensures tables == FullRewrite(old(tables), origin, doc, docHash, at)
      ensures result.deleted == |set id | id in StoredHashes(old(tables), origin) && !HasId(Incoming(doc), id)|
      ensures result.inserted == |Filter(IsInsert(StoredHashes(old(tables), origin)), doc.spaces)|
      ensures result.updated == |Filter(IsUpdate(StoredHashes(old(tables), origin)), doc.spaces)|
    {
      hide RowHash, Incoming, FullRewrite, ExecAll, DocumentHash, Deletes, Upserts, StillCurrent, Lists, StoredHashes;
      var stored := StoredHashes(tables, origin);
      var incoming := Incoming(doc);
      IncomingIsList(doc);
      var deletes, deleted, ids := DeleteStatements(origin, stored, incoming);
      var upserts, inserted, updated := UpsertStatements(origin, stored, incoming);
      var statements := [UpsertOrigin(origin, OriginRowOf(doc, docHash, at))] + deletes + upserts;
      SnapshotIsCurrent(tables, origin, doc);
      DiffIsRewriteIff(tables, ids, stored, origin, doc, docHash, at);
      tables := ExecAll(tables, statements);
      result := ApplyResult(inserted, updated, deleted);
    }

    /** Same hash: one column of one existing row, and nothing where there is no row. */
    method TouchOriginOk(origin: string, at: int)
      modifies this
      ensures tables == Touch(old(tables), origin, at)
      ensures tables.spaces == old(tables).spaces && tables.attempts == old(tables).attempts
      ensures tables.origins.Keys == old(tables).origins.Keys
      ensures forall o | o in tables.origins :: o != origin ==> tables.origins[o] == old(tables).origins[o]
      ensures origin in tables.origins ==>
                var was, row := old(tables).origins[origin], tables.origins[origin];
                && row.lastOkAt == at && row.documentHash == was.documentHash && row.firstSeenAt == was.firstSeenAt
                && row.instanceName == was.instanceName && row.version == was.version
                && row.federatedRegistrationOpen == was.federatedRegistrationOpen
    {
      if origin in tables.origins {
        tables := tables.(origins := tables.origins[origin := tables.origins[origin].(lastOkAt := at)]);
      }
    }

    method TouchFetchAttempt(origin: string, at: int)
      modifies this
      ensures tables == old(tables).(attempts := old(tables).attempts[origin := at])
    {
      tables := tables.(attempts := tables.attempts[origin := at]);
    }

    /** `POST /v1/ping`, steps 1 to 8, for pings whose applies do not overlap. */
    method HandlePing(request: Request, now: int, fetched: Fetched, okAt: int) returns (status: int)
      requires RowsConsistent(tables) && (fetched.Valid? ==> UniqueIds(fetched.doc))
      modifies this
      ensures (tables, status) == PingEffect(old(tables), request, now, fetched, okAt)
      ensures Consistent(old(tables)) ==> (tables, status) == PingStep(old(tables), request, now, fetched, okAt)
    {
      hide RowHash, Incoming, FullRewrite, DocumentHash;
      if Consistent(tables) { EffectIsStep(tables, request, now, fetched, okAt); }
      match request {
        case Retired => return 410;
        case Limited => return 429;
        case BadBody => return 400;
        case PingFor(origin) =>
          if origin in tables.attempts && now - tables.attempts[origin] < ORIGIN_COOLDOWN_MS { return 429; }
          TouchFetchAttempt(origin, now);
          match fetched {
            case Failed(_) => return 502;
            case Valid(doc) =>
              var hash := DocumentHash(doc);
              if origin in tables.origins && tables.origins[origin].documentHash == hash {
                TouchOriginOk(origin, okAt);
              } else {
                var _ := ApplyDocument(origin, doc, hash, okAt);
              }
              return 204;
          }
      }
    }

    /** The daily cron: expired origins go with their spaces, expired attempts go, and every removed row is counted. */
    method Scheduled(scheduledTime: int) returns (removed: nat)
      requires RowsConsistent(tables)
      modifies this
      ensures tables == Purge(old(tables), scheduledTime - 2_592_000_000)
      ensures RowsConsistent(tables)
      ensures forall o :: o in tables.origins <==>
                o in old(tables).origins && old(tables).origins[o].lastOkAt >= scheduledTime - 2_592_000_000
      ensures forall k :: k in tables.spaces <==> k in old(tables).spaces && k.origin in tables.origins
      ensures forall o :: o in tables.attempts <==>
                o in old(tables).attempts && old(tables).attempts[o] >= scheduledTime - 2_592_000_000
      ensures forall o | o in tables.origins :: tables.origins[o] == old(tables).origins[o]
      ensures forall k | k in tables.spaces :: tables.spaces[k] == old(tables).spaces[k]
      ensures forall o | o in tables.attempts :: tables.attempts[o] == old(tables).attempts[o]
      ensures var cutoff, was := scheduledTime - 2_592_000_000, old(tables);
              removed == |set o | o in was.origins && was.origins[o].lastOkAt < cutoff|
                         + |set k | k in was.spaces && was.origins[k.origin].lastOkAt < cutoff|
                         + |set o | o in was.attempts && was.attempts[o] < cutoff|
    {
      var before, cutoff := tables, scheduledTime - RETENTION_MS;
      tables := Purge(tables, cutoff);
      MapLoses(before.origins, tables.origins, set o | o in before.origins && before.origins[o].lastOkAt < cutoff);
      MapLoses(before.spaces, tables.spaces, set k | k in before.spaces && before.origins[k.origin].lastOkAt < cutoff);
      MapLoses(before.attempts, tables.attempts, set o | o in before.attempts && before.attempts[o] < cutoff);
      removed := |before.origins| - |tables.origins| + (|before.spaces| - |tables.spaces|)
                 + (|before.attempts| - |tables.attempts|);
    }
  }

  lemma MapLoses<K, V>(before: map<K, V>, after: map<K, V>, lost: set<K>)
    requires forall k :: k in before <==> k in after || k in lost
    requires forall k | k in lost :: k !in after
    ensures |before| == |after| + |lost|
  {
    assert before.Keys == after.Keys + lost;
    assert |before.Keys| == |before| && |after.Keys| == |after|;
  }

  lemma AttemptConsistent(db: Tables, origin: string, now: int)
    requires Consistent(db)
    ensures Consistent(db.(attempts := db.attempts[origin := now]))
  {
    var after := db.(attempts := db.attempts[origin := now]);
    forall o | o in after.origins ensures HashConsistent(after, o) {
      OtherOriginKept(db, after, o);
    }
  }

  ghost predicate Written(cleared: map<Key, StoredSpace>, after: map<Key, StoredSpace>, origin: string, s: Space,
                          stored: map<string, Digest>)
  {
    if s.id in stored && stored[s.id] == RowHash(s) then SameAt(cleared, after, Key(origin, s.id))
    else Key(origin, s.id) in after && after[Key(origin, s.id)] == RowOf(s)
  }

  /** The `DELETE` loop over the stored ids, in the order the read gave them. */
  method DeleteStatements(origin: string, stored: map<string, Digest>, incoming: seq<Space>)
    returns (statements: seq<Statement>, deleted: nat, ghost ids: seq<string>)
    ensures Lists(ids, stored) && statements == Deletes(ids, origin, incoming)
    ensures deleted == |set id | id in stored && !HasId(incoming, id)|
  {
    hide HasId, Filter, Deletes;
    statements, deleted, ids := [], 0, [];
    var left := stored.Keys;
    ghost var gone: set<string> := {};
    NothingDeleted(origin, incoming);
    while left != {}
      invariant left <= stored.Keys
      invariant forall id :: id in ids <==> id in stored.Keys - left
      invariant forall i, j :: 0 <= i < j < |ids| ==> ids[i] != ids[j]
      invariant gone == set id | id in stored.Keys - left && !HasId(incoming, id)
      invariant deleted == |gone| && statements == Deletes(ids, origin, incoming)
      decreases left
    {
      var id :| id in left;
      left := left - {id};
      DeletesStep(ids, origin, incoming, id);
      assert statements + [] == statements && id !in ids;
      ids := ids + [id];
      if HasId(incoming, id) { continue; }
      assert id !in gone;
      statements := statements + [DeleteSpace(Key(origin, id))];
      deleted := deleted + 1;
      gone := gone + {id};
    }
    assert gone == set id | id in stored && !HasId(incoming, id);
  }

  lemma NothingDeleted(origin: string, incoming: seq<Space>)
    ensures Deletes([], origin, incoming) == []
  {
  }

  lemma DeletesStep(ids: seq<string>, origin: string, incoming: seq<Space>, id: string)
    ensures Deletes(ids + [id], origin, incoming)
         == Deletes(ids, origin, incoming) + (if HasId(incoming, id) then [] else [DeleteSpace(Key(origin, id))])
  {
    hide HasId, Filter;
    var all := ids + [id];
    FilterStep(Gone(incoming), all, |ids|);
    assert all[..|ids|] == ids && all[..|ids| + 1] == all;
  }

  /** The rows left once the ids in `gone` are deleted from one origin. */
  function Without(spaces: map<Key, StoredSpace>, origin: string, gone: set<string>): map<Key, StoredSpace> {
    map k | k in spaces && !(k.origin == origin && k.id in gone) :: spaces[k]
  }

  lemma WithoutNone(spaces: map<Key, StoredSpace>, origin: string)
    ensures Without(spaces, origin, {}) == spaces
  {
  }

  lemma WithoutStep(spaces: map<Key, StoredSpace>, origin: string, gone: set<string>, id: string)
    ensures Without(spaces, origin, gone + {id}) == Without(spaces, origin, gone) - {Key(origin, id)}
  {
    forall k: Key ensures k == Key(origin, id) <==> k.origin == origin && k.id == id {
    }
  }

  ghost predicate Listed(spaces: seq<Space>, n: int, id: string) {
    exists j :: 0 <= j < n && j < |spaces| && spaces[j].id == id
  }

  /** The upsert loop over the document's rows that are new or differ. */
  method UpsertStatements(origin: string, stored: map<string, Digest>, incoming: seq<Space>)
    returns (statements: seq<Statement>, inserted: nat, updated: nat)
    ensures statements == Upserts(stored, origin, incoming)
    ensures inserted == |Filter(IsInsert(stored), incoming)| && updated == |Filter(IsUpdate(stored), incoming)|
  {
    hide RowHash, Filter;
    FilterOfNone(stored);
    statements, inserted, updated := [], 0, 0;
    for i := 0 to |incoming|
      invariant statements == Upserts(stored, origin, incoming[..i])
      invariant inserted == |Filter(IsInsert(stored), incoming[..i])|
      invariant updated == |Filter(IsUpdate(stored), incoming[..i])|
    {
      var space := incoming[i];
      FilterStep(IsInsert(stored), incoming, i);
      FilterStep(IsUpdate(stored), incoming, i);
      FilterStep(Changed(stored), incoming, i);
      var hash := RowHash(space);
      if space.id in stored && stored[space.id] == hash { continue; }
      if space.id !in stored { inserted := inserted + 1; } else { updated := updated + 1; }
      statements := statements + [UpsertSpace(Key(origin, space.id), StoredSpace(space, hash))];
    }
    assert incoming[..|incoming|] == incoming;
  }

  lemma FilterOfNone(stored: map<string, Digest>)
    ensures Filter(IsInsert(stored), []) == [] && Filter(IsUpdate(stored), []) == []
    ensures Filter(Changed(stored), []) == []
  {
  }

  lemma LoopEffect(before: map<Key, StoredSpace>, cleared: map<Key, StoredSpace>, after: map<Key, StoredSpace>,
                   origin: string, incoming: seq<Space>, stored: map<string, Digest>)
    requires cleared == Without(before, origin, set id | id in stored && !HasId(incoming, id))
    requires forall k: Key :: !(k.origin == origin && Listed(incoming, |incoming|, k.id)) ==> SameAt(cleared, after, k)
    requires forall j :: 0 <= j < |incoming| ==> Written(cleared, after, origin, incoming[j], stored)
    ensures DiffEffect(before, after, origin, incoming, stored)
  {
    hide RowHash;
    forall id ensures HasId(incoming, id) <==> Listed(incoming, |incoming|, id) {
      FindSound(incoming, IdOf(), id);
      if HasId(incoming, id) {
        var j :| 0 <= j < |incoming| && incoming[j] == Find(incoming, IdOf(), id).value;
      }
      if Listed(incoming, |incoming|, id) {
        var j :| 0 <= j < |incoming| && incoming[j].id == id;
        assert incoming[j] in incoming;
      }
    }
    forall k: Key | k.origin != origin ensures SameAt(before, after, k) {
      assert SameAt(cleared, after, k);
    }
    forall id | !HasId(incoming, id)
      ensures id in stored ==> Key(origin, id) !in after
      ensures id !in stored ==> SameAt(before, after, Key(origin, id))
    {
      assert SameAt(cleared, after, Key(origin, id));
    }
    forall s | s in incoming
      ensures if s.id in stored && stored[s.id] == RowHash(s) then SameAt(before, after, Key(origin, s.id))
              else Key(origin, s.id) in after && after[Key(origin, s.id)] == RowOf(s)
    {
      var j :| 0 <= j < |incoming| && incoming[j] == s;
      assert Written(cleared, after, origin, incoming[j], stored);
      assert HasId(incoming, s.id);
    }
  }

  // ---- The batch on whatever tables it meets ----

  lemma {:induction false} DeletesEffect(db: Tables, ids: seq<string>, origin: string, incoming: seq<Space>)
    ensures ExecAll(db, Deletes(ids, origin, incoming))
         == db.(spaces := Without(db.spaces, origin, set id | id in ids && !HasId(incoming, id)))
  {
    hide HasId, Filter, ExecAll, Deletes;
    if ids == [] {
      NothingDeleted(origin, incoming);
      WithoutNone(db.spaces, origin);
      ExecNone(db);
    } else {
      var n := |ids| - 1;
      var id := ids[n];
      var gone := set x | x in ids[..n] && !HasId(incoming, x);
      DeletesEffect(db, ids[..n], origin, incoming);
      assert ids == ids[..n] + [id];
      DeletesStep(ids[..n], origin, incoming, id);
      if HasId(incoming, id) {
        assert Deletes(ids[..n], origin, incoming) + [] == Deletes(ids[..n], origin, incoming);
        assert (set x | x in ids && !HasId(incoming, x)) == gone;
      } else {
        ExecJoin(db, Deletes(ids[..n], origin, incoming), [DeleteSpace(Key(origin, id))]);
        ExecOne(ExecAll(db, Deletes(ids[..n], origin, incoming)), DeleteSpace(Key(origin, id)));
        WithoutStep(db.spaces, origin, gone, id);
        assert (set x | x in ids && !HasId(incoming, x)) == gone + {id};
      }
    }
  }

  lemma ExecNone(db: Tables)
    ensures ExecAll(db, []) == db
  {
  }

  /** What the upserts of the first `n` document rows leave. */
  ghost predicate UpsertedTo(before: Tables, after: Tables, origin: string, stored: map<string, Digest>,
                             incoming: seq<Space>, n: int)
    requires n <= |incoming|
  {
    && after.origins == before.origins && after.attempts == before.attempts
    && (forall k: Key :: !(k.origin == origin && Listed(incoming, n, k.id)) ==> SameAt(before.spaces, after.spaces, k))
    && (forall j :: 0 <= j < n ==> Written(before.spaces, after.spaces, origin, incoming[j], stored))
  }

  lemma UpsertOneMore(before: Tables, t: Tables, origin: string, stored: map<string, Digest>, incoming: seq<Space>,
                      n: int)
    requires DistinctKeys(incoming, IdOf()) && 0 <= n < |incoming|
    requires UpsertedTo(before, t, origin, stored, incoming, n)
    ensures var next := if Changed(stored)(incoming[n]) then Exec(t, UpsertOf(origin)(incoming[n])) else t;
            UpsertedTo(before, next, origin, stored, incoming, n + 1)
  {
    hide RowHash, Listed, DistinctKeys;
    ListedStep(incoming, n);
    assert SameAt(before.spaces, t.spaces, Key(origin, incoming[n].id));
  }

  lemma ListedStep(incoming: seq<Space>, n: int)
    requires DistinctKeys(incoming, IdOf()) && 0 <= n < |incoming|
    ensures forall id :: Listed(incoming, n + 1, id) <==> Listed(incoming, n, id) || id == incoming[n].id
    ensures !Listed(incoming, n, incoming[n].id) && forall j :: 0 <= j < n ==> incoming[j].id != incoming[n].id
  {
    forall j | 0 <= j < n ensures incoming[j].id != incoming[n].id {
      assert IdOf()(incoming[j]) != IdOf()(incoming[n]);
    }
    assert Listed(incoming, n + 1, incoming[n].id);
  }

  lemma {:induction false} UpsertsEffect(db: Tables, stored: map<string, Digest>, origin: string, incoming: seq<Space>,
                                            n: int)
    requires DistinctKeys(incoming, IdOf()) && 0 <= n <= |incoming|
    ensures UpsertedTo(db, ExecAll(db, Upserts(stored, origin, incoming[..n])), origin, stored, incoming, n)
  {
    hide RowHash, Filter, UpsertedTo, ExecAll, DistinctKeys;
    if n == 0 {
      FilterOfNone(stored);
      ExecNone(db);
      NothingUpserted(db, origin, stored, incoming);
    } else {
      var m := n - 1;
      var done, s := Upserts(stored, origin, incoming[..m]), incoming[m];
      UpsertsEffect(db, stored, origin, incoming, m);
      FilterStep(Changed(stored), incoming, m);
      UpsertOneMore(db, ExecAll(db, done), origin, stored, incoming, m);
      ExecJoin(db, done, [UpsertOf(origin)(s)]);
      ExecOne(ExecAll(db, done), UpsertOf(origin)(s));
      assert Upserts(stored, origin, incoming[..n])
          == done + (if Changed(stored)(s) then [UpsertOf(origin)(s)] else []);
      assert done + [] == done;
    }
  }

  lemma NothingUpserted(db: Tables, origin: string, stored: map<string, Digest>, incoming: seq<Space>)
    ensures UpsertedTo(db, db, origin, stored, incoming, 0)
  {
  }

  /** On whatever tables the batch runs, it has the effect the diff is meant to have. */
  lemma BatchEffect(later: Tables, ids: seq<string>, stored: map<string, Digest>, origin: string, doc: Document,
                    hash: Digest, at: int)
    requires Lists(ids, stored) && UniqueIds(doc)
    ensures var after := ExecAll(later, Batch(ids, stored, origin, doc, hash, at));
            && DiffEffect(later.spaces, after.spaces, origin, Incoming(doc), stored)
            && after.origins == Exec(later, UpsertOrigin(origin, OriginRowOf(doc, hash, at))).origins
            && after.attempts == later.attempts
  {
    hide RowHash, Incoming, ExecAll, Deletes, Upserts, Without, DiffEffect, Written, HasId, SameAt;
    var incoming, upsert := Incoming(doc), UpsertOrigin(origin, OriginRowOf(doc, hash, at));
    IncomingOfUnique(doc);
    var parent := Exec(later, upsert);
    var cleared := ExecAll(parent, Deletes(ids, origin, incoming));
    ExecOne(later, upsert);
    ExecJoin(later, [upsert], Deletes(ids, origin, incoming));
    ExecJoin(later, [upsert] + Deletes(ids, origin, incoming), Upserts(stored, origin, incoming));
    DeletesEffect(parent, ids, origin, incoming);
    assert (set id | id in ids && !HasId(incoming, id)) == set id | id in stored && !HasId(incoming, id);
    UpsertsEffect(cleared, stored, origin, incoming, |incoming|);
    assert incoming[..|incoming|] == incoming;
    var after := ExecAll(cleared, Upserts(stored, origin, incoming));
    LoopEffect(later.spaces, cleared.spaces, after.spaces, origin, incoming, stored);
  }

  /**
   * A batch built from one read and run on any later tables does what a full rewrite of them would exactly when no
   * matching row was lost or changed and no unlisted row appeared in between.
   */
  lemma DiffIsRewriteIff(later: Tables, ids: seq<string>, stored: map<string, Digest>, origin: string, doc: Document,
                         hash: Digest, at: int)
    requires Lists(ids, stored) && UniqueIds(doc)
    ensures ExecAll(later, Batch(ids, stored, origin, doc, hash, at)) == FullRewrite(later, origin, doc, hash, at)
       <==> StillCurrent(later.spaces, origin, Incoming(doc), stored)
  {
    hide RowHash, Incoming, FullRewrite, ExecAll, Batch, DiffEffect, StillCurrent, Lists;
    var after := ExecAll(later, Batch(ids, stored, origin, doc, hash, at));
    BatchEffect(later, ids, stored, origin, doc, hash, at);
    EffectIsRewriteIff(later.spaces, after.spaces, origin, doc, stored, later, hash, at);
    RewriteOrigins(later, origin, doc, hash, at);
  }

  lemma RewriteOrigins(db: Tables, origin: string, doc: Document, hash: Digest, at: int)
    ensures FullRewrite(db, origin, doc, hash, at).origins
         == Exec(db, UpsertOrigin(origin, OriginRowOf(doc, hash, at))).origins
    ensures FullRewrite(db, origin, doc, hash, at).attempts == db.attempts
  {
  }

  // ---- Runs ----

  datatype Event =
    | Ping(request: Request, now: int, fetched: Fetched, okAt: int)
    | Cron(scheduledTime: int)

  /** `parseDocument` lets only documents with unique ids through. */
  ghost predicate Admissible(e: Event) {
    e.Ping? && e.fetched.Valid? ==> UniqueIds(e.fetched.doc)
  }

  function Step(db: Tables, e: Event): Tables {
    match e
    case Ping(request, now, fetched, okAt) => PingStep(db, request, now, fetched, okAt).0
    case Cron(time) => Purge(db, time - RETENTION_MS)
  }

  function Run(db: Tables, events: seq<Event>): Tables
    decreases |events|
  {
    if events == [] then db else Run(Step(db, events[0]), events[1..])
  }

  lemma StepConsistent(db: Tables, e: Event)
    requires Consistent(db) && Admissible(e)
    ensures Consistent(Step(db, e))
  {
    hide FullRewrite, DocumentHash, RowHash, Consistent;
    match e
    case Cron(time) => PurgeConsistent(db, time - RETENTION_MS);
    case Ping(request, now, fetched, okAt) =>
      if request.PingFor? {
        var tried := db.(attempts := db.attempts[request.origin := now]);
        AttemptConsistent(db, request.origin, now);
        if fetched.Valid? {
          FullRewriteConsistent(tried, request.origin, fetched.doc, okAt);
        }
      }
  }

  /** Over every run of pings and housekeeping the hashes agree with the rows and no row lacks its origin. */
  lemma {:induction false} RunConsistent(db: Tables, events: seq<Event>)
    requires Consistent(db) && forall e | e in events :: Admissible(e)
    ensures Consistent(Run(db, events))
    decreases |events|
  {
    hide Consistent, Admissible, Step;
    if events != [] {
      assert events[0] in events && forall e | e in events[1..] :: e in events;
      StepConsistent(db, events[0]);
      RunConsistent(Step(db, events[0]), events[1..]);
    }
  }

  lemma EmptyConsistent()
    ensures Consistent(EMPTY)
  {
  }

  /** A 204 leaves exactly the fetched document for its origin and every other origin untouched. */
  lemma ListedExactly(db: Tables, origin: string, now: int, doc: Document, okAt: int)
    requires Consistent(db) && UniqueIds(doc)
    requires PingStep(db, PingFor(origin), now, Valid(doc), okAt).1 == 204
    ensures var after := PingStep(db, PingFor(origin), now, Valid(doc), okAt).0;
            && Describes(after, origin, doc) && after.origins[origin].lastOkAt == okAt
            && after.origins[origin].documentHash == DocumentHash(doc)
            && (forall o :: o != origin ==> (o in after.origins <==> o in db.origins))
            && (forall o :: o != origin && o in db.origins ==> after.origins[o] == db.origins[o])
            && (forall k: Key :: k.origin != origin ==> SameAt(db.spaces, after.spaces, k))
  {
    hide DocumentHash, RowHash, Incoming;
    var tried := db.(attempts := db.attempts[origin := now]);
    AttemptConsistent(db, origin, now);
    FullRewriteConsistent(tried, origin, doc, okAt);
    FullRewriteRows(tried, origin, doc, DocumentHash(doc), okAt);
  }

  // ---- A row lost between read and batch ----

  /** The origin's stored hash is the document's, but the row is not there. */
  ghost predicate LooksListed(db: Tables, origin: string, doc: Document, s: Space) {
    origin in db.origins && db.origins[origin].documentHash == DocumentHash(doc) && Key(origin, s.id) !in db.spaces
  }

  function EffectRun(db: Tables, pings: seq<Event>): Tables {
    if pings == [] then db
    else
      var e := pings[|pings| - 1];
      var before := EffectRun(db, pings[..|pings| - 1]);
      if e.Ping? then PingEffect(before, e.request, e.now, e.fetched, e.okAt).0 else before
  }

  /** A ping that fetches the same document for `origin`, fails, or is for another origin. */
  ghost predicate KeepsDocument(e: Event, origin: string, doc: Document) {
    && e.Ping? && Admissible(e)
    && (e.request == PingFor(origin) && e.fetched.Valid? ==> e.fetched.doc == doc)
  }

  lemma PingKeepsLost(db: Tables, e: Event, origin: string, doc: Document, s: Space)
    requires LooksListed(db, origin, doc, s) && KeepsDocument(e, origin, doc)
    ensures LooksListed(PingEffect(db, e.request, e.now, e.fetched, e.okAt).0, origin, doc, s)
  {
    hide RowHash, DocumentHash, FullRewrite;
    if e.request.PingFor? && e.fetched.Valid? && e.request.origin != origin {
      var tried := db.(attempts := db.attempts[e.request.origin := e.now]);
      FullRewriteRows(tried, e.request.origin, e.fetched.doc, DocumentHash(e.fetched.doc), e.okAt);
    }
  }

  lemma {:induction false} PingsKeepLost(db: Tables, pings: seq<Event>, origin: string, doc: Document, s: Space)
    requires LooksListed(db, origin, doc, s)
    requires forall i :: 0 <= i < |pings| ==> KeepsDocument(pings[i], origin, doc)
    ensures LooksListed(EffectRun(db, pings), origin, doc, s)
  {
    hide LooksListed, KeepsDocument, PingEffect;
    if pings != [] {
      var n := |pings| - 1;
      PingsKeepLost(db, pings[..n], origin, doc, s);
      PingKeepsLost(EffectRun(db, pings[..n]), pings[n], origin, doc, s);
      DocumentKept(pings[n], origin, doc);
    }
  }

  lemma DocumentKept(e: Event, origin: string, doc: Document)
    requires KeepsDocument(e, origin, doc)
    ensures e.Ping?
  {
  }

  /**
   * From consistent tables: an unchanged row that housekeeping drops between the read and the batch is not written
   * back, while the origin takes the new document's hash, so every later ping with that document takes the shortcut
   * and leaves the row missing.
   */
  lemma LostRowStaysLost(db: Tables, ids: seq<string>, origin: string, doc: Document, s: Space, cutoff: int, at: int,
                         pings: seq<Event>)
    requires Consistent(db) && UniqueIds(doc) && Lists(ids, StoredHashes(db, origin)) && origin in db.origins
    requires s in doc.spaces && Key(origin, s.id) in db.spaces && db.spaces[Key(origin, s.id)].space == s
    requires db.origins[origin].lastOkAt < cutoff
    requires forall i :: 0 <= i < |pings| ==> KeepsDocument(pings[i], origin, doc)
    ensures var batch := Batch(ids, StoredHashes(db, origin), origin, doc, DocumentHash(doc), at);
            var after := ExecAll(Purge(db, cutoff), batch);
            && LooksListed(after, origin, doc, s) && !Describes(after, origin, doc)
            && LooksListed(EffectRun(after, pings), origin, doc, s)
  {
    hide RowHash, DocumentHash, Incoming, ExecAll, Batch, KeepsDocument, Describes, Lists, HashConsistent;
    var stored := StoredHashes(db, origin);
    var later := Purge(db, cutoff);
    BatchEffect(later, ids, stored, origin, doc, DocumentHash(doc), at);
    IncomingOfUnique(doc);
    assert s in Incoming(doc) && s.id in stored && stored[s.id] == RowHash(s);
    var after := ExecAll(later, Batch(ids, stored, origin, doc, DocumentHash(doc), at));
    assert Key(origin, s.id) !in later.spaces;
    assert SameAt(later.spaces, after.spaces, Key(origin, s.id));
    NotDescribed(after, origin, doc, s);
    PingsKeepLost(after, pings, origin, doc, s);
  }

  lemma NotDescribed(db: Tables, origin: string, doc: Document, s: Space)
    requires s in doc.spaces && Key(origin, s.id) !in db.spaces
    ensures !Describes(db, origin, doc)
  {
  }

  const LISTED: Space := Space("s", "General", None, None, None, None, Public, 1, 0)

  /** It can happen: an instance renamed after thirty silent days, with its one space unchanged. */
  lemma RaceIsReachable(pings: seq<Event>)
    requires forall i :: 0 <= i < |pings| ==>
               KeepsDocument(pings[i], "https://a.example", Document("New", true, None, [LISTED]))
    ensures var origin, late := "https://a.example", RETENTION_MS + 1;
            var first, renamed := Document("Old", true, None, [LISTED]), Document("New", true, None, [LISTED]);
            var db := Run(EMPTY, [Ping(PingFor(origin), 0, Valid(first), 0)]);
            var batch := Batch(["s"], StoredHashes(db, origin), origin, renamed, DocumentHash(renamed), late);
            var after := ExecAll(Step(db, Cron(late)), batch);
            && Consistent(db) && Lists(["s"], StoredHashes(db, origin))
            && origin in db.origins && db.origins[origin].documentHash != DocumentHash(renamed)
            && LooksListed(EffectRun(after, pings), origin, renamed, LISTED)
  {
    hide RowHash, DocumentHash, Incoming, ExecAll, Batch, FullRewrite, KeepsDocument, Consistent, Describes, Run;
    var origin, late := "https://a.example", RETENTION_MS + 1;
    var first, renamed := Document("Old", true, None, [LISTED]), Document("New", true, None, [LISTED]);
    var ping := Ping(PingFor(origin), 0, Valid(first), 0);
    var db := Step(EMPTY, ping);
    RunFirst(ping);
    EmptyConsistent();
    StepConsistent(EMPTY, ping);
    ListedExactly(EMPTY, origin, 0, first, 0);
    OnlyListed(db, origin, first);
    DocumentHashIff(first, renamed);
    LostRowStaysLost(db, ["s"], origin, renamed, LISTED, 1, late, pings);
  }

  lemma RunFirst(e: Event)
    ensures Run(EMPTY, [e]) == Step(EMPTY, e)
  {
    assert [e][1..] == [];
  }

  lemma OnlyListed(db: Tables, origin: string, doc: Document)
    requires Consistent(db) && Describes(db, origin, doc) && doc.spaces == [LISTED]
    ensures origin in db.origins && Lists(["s"], StoredHashes(db, origin))
    ensures Key(origin, "s") in db.spaces && db.spaces[Key(origin, "s")].space == LISTED
  {
    hide RowHash, DocumentHash, StoredHashes;
    assert LISTED in doc.spaces;
    forall id ensures id in ["s"] <==> id in StoredHashes(db, origin) {
      if Key(origin, id) in db.spaces {
        assert db.spaces[Key(origin, id)].space in doc.spaces;
      }
    }
  }
}
