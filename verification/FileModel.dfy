/** The files collection with its unique indexes and the two caches in front of it, one function per
  * store operation (internal/store/store.go). Clocks and database failures are parameters. */
module FileModel {
  import opened Common
  import C = CacheModel

  /** Keys and hashes are texts; the store uses the empty one for "not known". */
  const EMPTY := Text("")

  datatype FileRecord = FileRecord(
    fileKey: Text, hash: Text, size: int, vaultMsgID: nat, details: Text,
    createdAt: int, lastSeenAt: int, seenCount: int, reuseCount: int,
    firstSourceChatID: int, firstSourceMsgID: int)

  /** Equal but for the advisory fields, which the caches do not track. */
  predicate Same(a: FileRecord, b: FileRecord) {
    a == b.(lastSeenAt := a.lastSeenAt, seenCount := a.seenCount, reuseCount := a.reuseCount)
  }

  // ---------------------------------------------------------------- the collection

  /** records by file_key, and the unique indexes on hash and vault_msg_id. */
  datatype Files = Files(records: map<Text, FileRecord>, hashes: map<Text, Text>, msgs: map<nat, Text>) {

    ghost predicate Valid() {
      && (forall k :: k in records ==>
            && records[k].fileKey == k
            && records[k].hash in hashes && hashes[records[k].hash] == k
            && records[k].vaultMsgID in msgs && msgs[records[k].vaultMsgID] == k)
      && (forall h :: h in hashes ==> hashes[h] in records && records[hashes[h]].hash == h)
      && (forall m :: m in msgs ==> msgs[m] in records && records[msgs[m]].vaultMsgID == m)
    }

    function FindByHash(hash: Text): Option<FileRecord> {
      if hash in hashes && hashes[hash] in records then Some(records[hashes[hash]]) else None
    }

    predicate Collides(f: FileRecord) {
      || (f.hash in hashes && hashes[f.hash] != f.fileKey)
      || (f.vaultMsgID in msgs && msgs[f.vaultMsgID] != f.fileKey)
    }

    function Remove(key: Text): Files {
      if key !in records then this
      else Files(records - {key}, hashes - {records[key].hash}, msgs - {records[key].vaultMsgID})
    }

    /** ReplaceOne with upsert, when no other record owns the hash or the message. */
    function Put(f: FileRecord): Files {
      var r := Remove(f.fileKey);
      Files(r.records[f.fileKey := f], r.hashes[f.hash := f.fileKey], r.msgs[f.vaultMsgID := f.fileKey])
    }
  }

  lemma RemoveValid(c: Files, key: Text)
    requires c.Valid()
    ensures c.Remove(key).Valid()
  {}

  lemma PutValid(c: Files, f: FileRecord)
    requires c.Valid() && !c.Collides(f)
    ensures c.Put(f).Valid()
  {
    RemoveValid(c, f.fileKey);
  }

  // ---------------------------------------------------------------- store operations

  type Records = C.State<Text, FileRecord>

  datatype Store = Store(files: Files, byHash: Records, byKey: Records) {
    ghost predicate Valid() {
      files.Valid() && byHash.Valid() && byKey.Valid()
    }
  }

  const CACHE_SIZE := 50000
  const CACHE_TTL := 1_800_000_000_000

  /** What a database write call did and reported. */
  datatype Written = Acknowledged | Unapplied | Unacknowledged

  datatype StoreError = DatabaseError | DuplicateKey

  type Lookup = Result<Option<FileRecord>, StoreError>

  function SetCache(c: Records, key: Text, f: FileRecord, now: int64): (d: Records)
    requires c.Valid()
    ensures d.Valid()
  {
    C.SetKeeps(c, key, f, now, CACHE_TTL, CACHE_SIZE);
    C.Set(c, key, f, now, CACHE_TTL, CACHE_SIZE)
  }

  function GetCache(c: Records, key: Text, now: int64): (r: (Records, Option<FileRecord>))
    requires c.Valid()
    ensures r.0.Valid()
  {
    C.GetKeeps(c, key, now, now);
    C.Get(c, key, now, now)
  }

  function DropCache(c: Records, key: Text): (d: Records)
    requires c.Valid()
    ensures d.Valid()
  {
    C.RemoveKeeps(c, key);
    C.Invalidate(c, key)
  }

  function FindFileByKey(s: Store, key: Text, now: int64, readable: bool): (Store, Lookup)
    requires s.Valid()
  {
    var (c, hit) := GetCache(s.byKey, key, now);
    if hit.Some? then (s.(byKey := c), Ok(hit))
    else if !readable then (s.(byKey := c), Err(DatabaseError))
    else if key !in s.files.records then (s.(byKey := c), Ok(None))
    else
      var f := s.files.records[key];
      (s.(byKey := SetCache(c, key, f, now)), Ok(Some(f)))
  }

  function FindFileByHash(s: Store, hash: Text, now: int64, readable: bool): (Store, Lookup)
    requires s.Valid()
  {
    var (c, hit) := GetCache(s.byHash, hash, now);
    if hit.Some? then (s.(byHash := c), Ok(hit))
    else if !readable then (s.(byHash := c), Err(DatabaseError))
    else
      match s.files.FindByHash(hash)
      case None => (s.(byHash := c), Ok(None))
      case Some(f) => (s.(byHash := SetCache(c, hash, f, now)), Ok(Some(f)))
  }

  function InsertFile(s: Store, f: FileRecord, now: int64, w: Written): (Store, Option<StoreError>)
    requires s.Valid()
  {
    if f.fileKey in s.files.records || s.files.Collides(f) then (s, Some(DuplicateKey))
    else if w.Unapplied? then (s, Some(DatabaseError))
    else
      var t := s.(files := s.files.Put(f));
      if w.Unacknowledged? then (t, Some(DatabaseError))
      else (t.(byHash := SetCache(s.byHash, f.hash, f, now), byKey := SetCache(s.byKey, f.fileKey, f, now)), None)
  }

  /** The hash of the record to be replaced, as far as ReplaceFile learns it: from the key cache,
    * else from the database; EMPTY when there is none. */
  function OldHash(s: Store, key: Text, hit: Option<FileRecord>): Text {
    if hit.Some? && hit.value.hash != EMPTY then hit.value.hash
    else if key in s.files.records then s.files.records[key].hash
    else EMPTY
  }

  function Evict(s: Store, key: Text, oldHash: Text, hash: Text): (t: Store)
    requires s.Valid()
    ensures t.Valid()
  {
    var h := if oldHash != EMPTY then DropCache(s.byHash, oldHash) else s.byHash;
    s.(byKey := DropCache(s.byKey, key), byHash := DropCache(h, hash))
  }

  function ReplaceFile(s: Store, f: FileRecord, now: int64, readable: bool, w: Written): (Store, Option<StoreError>)
    requires s.Valid()
  {
    var (c, hit) := GetCache(s.byKey, f.fileKey, now);
    var s1 := s.(byKey := c);
    if (hit.None? || hit.value.hash == EMPTY) && !readable then (s1, Some(DatabaseError))
    else
      var oldHash := OldHash(s, f.fileKey, hit);
      var s2 := Evict(s1, f.fileKey, oldHash, f.hash);
      if s.files.Collides(f) then (s2, Some(DuplicateKey))
      else if w.Unapplied? then (s2, Some(DatabaseError))
      else
        PutValid(s.files, f);
        var s3 := s2.(files := s.files.Put(f));
        if w.Unacknowledged? then (s3, Some(DatabaseError))
        else
          var s4 := Evict(s3, f.fileKey, oldHash, f.hash);
          (s4.(byHash := SetCache(s4.byHash, f.hash, f, now), byKey := SetCache(s4.byKey, f.fileKey, f, now)), None)
  }

  function DeleteFileByHash(s: Store, hash: Text, now: int64, readable: bool, w: Written): (Store, Option<StoreError>)
    requires s.Valid()
  {
    var (c, hit) := GetCache(s.byHash, hash, now);
    var s1 := s.(byHash := DropCache(c, hash));
    var cached := if hit.Some? then hit.value.fileKey else EMPTY;
    if cached == EMPTY && !readable then (s1, Some(DatabaseError))
    else if cached == EMPTY && s.files.FindByHash(hash).None? then (s1, None)
    else
      var key := if cached == EMPTY then s.files.FindByHash(hash).value.fileKey else cached;
      var s2 := if key != EMPTY then s1.(byKey := DropCache(s1.byKey, key)) else s1;
      if w.Unapplied? then (s2, Some(DatabaseError))
      else
        var s3 := s2.(files := if hash in s.files.hashes then s.files.Remove(s.files.hashes[hash]) else s.files);
        if w.Unacknowledged? then (s3, Some(DatabaseError))
        else
          var s4 := s3.(byHash := DropCache(s3.byHash, hash));
          (if key != EMPTY then s4.(byKey := DropCache(s4.byKey, key)) else s4, None)
  }

  function Update(s: Store, key: Text, f: FileRecord): Store {
    s.(files := s.files.(records := s.files.records[key := f]))
  }

  /** IncrementReuseCount: the caches are not told. */
  function CountReuse(s: Store, key: Text): Store {
    if key !in s.files.records then s else Update(s, key, OneMoreReuse(s.files.records[key]))
  }

  function OneMoreReuse(f: FileRecord): FileRecord {
    f.(reuseCount := f.reuseCount + 1)
  }

  /** IncrementSeenCount and the touch buffer: n hits, the last of them at the given time. */
  function CountSeen(s: Store, key: Text, n: int, at: int): Store {
    if key !in s.files.records then s else Update(s, key, Seen(s.files.records[key], n, at))
  }

  function Seen(f: FileRecord, n: int, at: int): FileRecord {
    f.(seenCount := f.seenCount + n, lastSeenAt := at)
  }

  // ---------------------------------------------------------------- coherence

  /** Every entry of either cache, expired or not, is the record the database has for it. */
  ghost predicate Coherent(s: Store) {
    && (forall h :: h in s.byHash.slots ==>
          s.files.FindByHash(h).Some? && Same(s.byHash.slots[h].value, s.files.FindByHash(h).value))
    && (forall k :: k in s.byKey.slots ==>
          k in s.files.records && Same(s.byKey.slots[k].value, s.files.records[k]))
  }

  ghost predicate Named(s: Store) {
    EMPTY !in s.files.records && EMPTY !in s.files.hashes
  }

  ghost predicate Sound(s: Store) {
    s.Valid() && Coherent(s)
  }

  ghost predicate Inv(s: Store) {
    Sound(s) && Named(s)
  }

  lemma SetValues(c: Records, key: Text, f: FileRecord, now: int64)
    requires c.Valid()
    ensures var d := SetCache(c, key, f, now);
            forall k :: k in d.slots ==>
              if k == key then d.slots[k].value == f else k in c.slots && d.slots[k] == c.slots[k]
  {
    C.SetKeeps(c, key, f, now, CACHE_TTL, CACHE_SIZE);
  }

  /** d holds nothing but values that c holds. */
  ghost predicate Within(d: Records, c: Records) {
    forall k :: k in d.slots ==> k in c.slots && d.slots[k].value == c.slots[k].value
  }

  lemma GetValues(c: Records, key: Text, now: int64)
    requires c.Valid()
    ensures var (d, hit) := GetCache(c, key, now);
            Within(d, c) && (hit.Some? ==> key in c.slots && hit.value == c.slots[key].value)
  {}

  lemma SelfSame(f: FileRecord)
    ensures Same(f, f)
  {}

  lemma ShrunkIsCoherent(s: Store, t: Store)
    requires Coherent(s) && t.files == s.files && Within(t.byHash, s.byHash) && Within(t.byKey, s.byKey)
    ensures Coherent(t)
  {}

  /** A lookup by key keeps the caches coherent and answers as the database would, up to the
    * advisory fields. */
  lemma FindByKeyAgrees(s: Store, key: Text, now: int64, readable: bool)
    requires Inv(s)
    ensures var (t, r) := FindFileByKey(s, key, now, readable);
            && Inv(t) && t.files == s.files
            && (r.Ok? && r.value.None? ==> key !in s.files.records)
            && (r.Ok? && r.value.Some? ==> key in s.files.records && Same(r.value.value, s.files.records[key]))
            && (r.Err? ==> !readable)
  {
    hide C.Get, C.Set, C.Remove, C.Invalidate, Same, Files.Valid;
    GetValues(s.byKey, key, now);
    var c := GetCache(s.byKey, key, now).0;
    ShrunkIsCoherent(s, s.(byKey := c));
    if key in s.files.records {
      SetValues(c, key, s.files.records[key], now);
      SelfSame(s.files.records[key]);
    }
  }

  lemma FindByHashAgrees(s: Store, hash: Text, now: int64, readable: bool)
    requires Inv(s)
    ensures var (t, r) := FindFileByHash(s, hash, now, readable);
            && Inv(t) && t.files == s.files
            && (r.Ok? && r.value.None? ==> s.files.FindByHash(hash).None?)
            && (r.Ok? && r.value.Some? ==>
                  s.files.FindByHash(hash).Some? && Same(r.value.value, s.files.FindByHash(hash).value))
            && (r.Err? ==> !readable)
  {
    hide C.Get, C.Set, C.Remove, C.Invalidate, Same, Files.Valid;
    GetValues(s.byHash, hash, now);
    var c := GetCache(s.byHash, hash, now).0;
    ShrunkIsCoherent(s, s.(byHash := c));
    if s.files.FindByHash(hash).Some? {
      SetValues(c, hash, s.files.FindByHash(hash).value, now);
      SelfSame(s.files.FindByHash(hash).value);
    }
  }

  lemma FindKeyIsSound(s: Store, key: Text, now: int64, readable: bool)
    requires Sound(s)
    ensures s.Valid() && Sound(FindFileByKey(s, key, now, readable).0)
  {
    hide GetCache, SetCache, Same, Files.Valid;
    GetValues(s.byKey, key, now);
    var c := GetCache(s.byKey, key, now).0;
    ShrunkIsCoherent(s, s.(byKey := c));
    if key in s.files.records {
      SetValues(c, key, s.files.records[key], now);
      SelfSame(s.files.records[key]);
    }
  }

  lemma FindHashIsSound(s: Store, hash: Text, now: int64, readable: bool)
    requires Sound(s)
    ensures s.Valid() && Sound(FindFileByHash(s, hash, now, readable).0)
  {
    hide GetCache, SetCache, Same, Files.Valid;
    GetValues(s.byHash, hash, now);
    var c := GetCache(s.byHash, hash, now).0;
    ShrunkIsCoherent(s, s.(byHash := c));
    if s.files.FindByHash(hash).Some? {
      SetValues(c, hash, s.files.FindByHash(hash).value, now);
      SelfSame(s.files.FindByHash(hash).value);
    }
  }

  /** The two indexes agree with each other: what a hash finds, its key finds. */
  lemma LookupsAgree(s: Store, hash: Text, now: int64, later: int64)
    requires Inv(s)
    ensures var (t, r) := FindFileByHash(s, hash, now, true);
            r.Ok? && r.value.Some? ==>
              t.Valid() &&
              var q := FindFileByKey(t, r.value.value.fileKey, later, true).1;
              q.Ok? && q.value.Some? && Same(q.value.value, r.value.value)
  {
    FindByHashAgrees(s, hash, now, true);
    var (t, r) := FindFileByHash(s, hash, now, true);
    if r.Ok? && r.value.Some? {
      FindByKeyAgrees(t, r.value.value.fileKey, later, true);
    }
  }

  lemma PutFrame(c: Files, f: FileRecord, h: Text)
    requires c.Valid() && !c.Collides(f)
    ensures c.Put(f).FindByHash(f.hash) == Some(f)
    ensures h != f.hash && (f.fileKey in c.records ==> h != c.records[f.fileKey].hash) ==>
              c.Put(f).FindByHash(h) == c.FindByHash(h)
  {}

  /** Writing f is coherent when neither cache holds anything about the old record or the new one. */
  lemma PutCoherent(s: Store, f: FileRecord)
    requires Sound(s) && !s.files.Collides(f)
    requires f.fileKey !in s.byKey.slots && f.hash !in s.byHash.slots
    requires f.fileKey in s.files.records ==> s.files.records[f.fileKey].hash !in s.byHash.slots
    ensures Sound(s.(files := s.files.Put(f)))
  {
    PutValid(s.files, f);
    forall h | h in s.byHash.slots ensures s.files.Put(f).FindByHash(h) == s.files.FindByHash(h) {
      PutFrame(s.files, f, h);
    }
  }

  lemma InstallHash(s: Store, f: FileRecord, now: int64)
    requires Sound(s) && s.files.FindByHash(f.hash) == Some(f)
    ensures Sound(s.(byHash := SetCache(s.byHash, f.hash, f, now)))
  {
    SetValues(s.byHash, f.hash, f, now);
  }

  lemma InstallKey(s: Store, f: FileRecord, now: int64)
    requires Sound(s) && f.fileKey in s.files.records && s.files.records[f.fileKey] == f
    ensures Sound(s.(byKey := SetCache(s.byKey, f.fileKey, f, now)))
  {
    SetValues(s.byKey, f.fileKey, f, now);
  }

  /** Installing a record that the database holds in both caches. */
  lemma InstallCoherent(s: Store, f: FileRecord, now: int64)
    requires Sound(s) && f.fileKey in s.files.records && s.files.records[f.fileKey] == f
    ensures Sound(s.(byHash := SetCache(s.byHash, f.hash, f, now), byKey := SetCache(s.byKey, f.fileKey, f, now)))
  {
    InstallHash(s, f, now);
    InstallKey(s.(byHash := SetCache(s.byHash, f.hash, f, now)), f, now);
  }

  lemma InsertIsSound(s: Store, f: FileRecord, now: int64, w: Written)
    requires Sound(s)
    ensures Sound(InsertFile(s, f, now, w).0)
  {
    if f.fileKey !in s.files.records && !s.files.Collides(f) {
      PutCoherent(s, f);
      InstallCoherent(s.(files := s.files.Put(f)), f, now);
    }
  }

  lemma InsertKeeps(s: Store, f: FileRecord, now: int64, w: Written)
    requires Inv(s) && f.fileKey != EMPTY && f.hash != EMPTY
    ensures Inv(InsertFile(s, f, now, w).0)
  {
    hide Sound, Files.Put, SetCache;
    assert s.Valid() by { InvIsValid(s); }
    InsertIsSound(s, f, now, w);
    PutNamed(s.files, f);
  }

  lemma EvictCoherent(s: Store, key: Text, oldHash: Text, hash: Text)
    requires Sound(s)
    ensures var t := Evict(s, key, oldHash, hash);
            && Sound(t) && t.files == s.files
            && key !in t.byKey.slots && hash !in t.byHash.slots
            && (oldHash != EMPTY ==> oldHash !in t.byHash.slots)
            && Within(t.byHash, s.byHash)
  {
    var t := Evict(s, key, oldHash, hash);
    ShrunkIsCoherent(s, t);
  }

  lemma ReplaceIsSound(s: Store, f: FileRecord, now: int64, readable: bool, w: Written)
    requires Sound(s)
    requires f.fileKey in s.files.records ==>
               s.files.records[f.fileKey].hash != EMPTY || EMPTY !in s.byHash.slots || f.hash == EMPTY
    ensures Sound(ReplaceFile(s, f, now, readable, w).0)
  {
    hide Sound, Coherent, Files.Put, Files.Collides, Evict, SetCache, GetCache;
    assert s.Valid() by { SoundIsValid(s); }
    var (c, hit) := GetCache(s.byKey, f.fileKey, now);
    var s1 := s.(byKey := c);
    GetIsSound(s, f.fileKey, now);
    var oldHash := OldHash(s, f.fileKey, hit);
    if f.fileKey in s.files.records {
      HitHash(s, f.fileKey, now);
    }
    EvictCoherent(s1, f.fileKey, oldHash, f.hash);
    var s2 := Evict(s1, f.fileKey, oldHash, f.hash);
    if !s.files.Collides(f) {
      PutCoherent(s2, f);
      PutRecords(s.files, f);
      var s3 := s2.(files := s.files.Put(f));
      EvictCoherent(s3, f.fileKey, oldHash, f.hash);
      InstallCoherent(Evict(s3, f.fileKey, oldHash, f.hash), f, now);
    }
  }

  lemma GetIsSound(s: Store, key: Text, now: int64)
    requires Sound(s)
    ensures s.Valid() && Sound(s.(byKey := GetCache(s.byKey, key, now).0))
  {
    GetValues(s.byKey, key, now);
    ShrunkIsCoherent(s, s.(byKey := GetCache(s.byKey, key, now).0));
  }

  lemma PutRecords(c: Files, f: FileRecord)
    ensures c.Put(f).records == c.records[f.fileKey := f]
  {}

  /** InsertFile and ReplaceFile apply the whole write or nothing, and report success only for a
    * write that was applied; an acknowledged write fails on a collision alone. */
  lemma WriteIsAllOrNothing(s: Store, f: FileRecord, now: int64, readable: bool, w: Written)
    requires Inv(s) && f.fileKey != EMPTY && f.hash != EMPTY
    ensures var (t, err) := ReplaceFile(s, f, now, readable, w);
            (t.files == s.files || t.files == s.files.Put(f)) && (err.None? ==> t.files == s.files.Put(f))
    ensures var (t, err) := InsertFile(s, f, now, w);
            (t.files == s.files || t.files == s.files.Put(f)) && (err.None? ==> t.files == s.files.Put(f))
    ensures readable && w.Acknowledged? && !s.files.Collides(f) ==>
              && ReplaceFile(s, f, now, readable, w).1.None?
              && (f.fileKey !in s.files.records ==> InsertFile(s, f, now, w).1.None?)
    ensures f.fileKey in s.files.records || s.files.Collides(f) ==>
              InsertFile(s, f, now, w).0.files == s.files && InsertFile(s, f, now, w).1.Some?
    ensures s.files.Collides(f) ==>
              ReplaceFile(s, f, now, readable, w).0.files == s.files && ReplaceFile(s, f, now, readable, w).1.Some?
  {
    hide Inv;
    assert s.Valid() by { InvIsValid(s); }
  }

  /** A unique index refuses the write. */
  predicate Blocked(c: Files, f: FileRecord, replace: bool) {
    c.Collides(f) || (!replace && f.fileKey in c.records)
  }

  predicate WriteApplies(c: Files, f: FileRecord, replace: bool, w: Written) {
    !Blocked(c, f, replace) && !w.Unapplied?
  }

  function WriteError(c: Files, f: FileRecord, replace: bool, w: Written): Option<StoreError> {
    if Blocked(c, f, replace) then Some(DuplicateKey) else if w.Acknowledged? then None else Some(DatabaseError)
  }

  /** What becomes of a write when the database can be read: whether it is applied, and the report,
    * depend on the unique indexes and on the write call alone, however the caches are filled. */
  lemma WriteOutcome(s: Store, f: FileRecord, now: int64, w: Written)
    requires Inv(s) && f.fileKey != EMPTY && f.hash != EMPTY
    ensures var (t, err) := InsertFile(s, f, now, w);
            && err == WriteError(s.files, f, false, w)
            && t.files == if WriteApplies(s.files, f, false, w) then s.files.Put(f) else s.files
    ensures var (t, err) := ReplaceFile(s, f, now, true, w);
            && err == WriteError(s.files, f, true, w)
            && t.files == if WriteApplies(s.files, f, true, w) then s.files.Put(f) else s.files
  {
    hide Inv;
    assert s.Valid() by { InvIsValid(s); }
  }

  lemma InvIsValid(s: Store)
    requires Inv(s)
    ensures s.Valid()
  {}

  lemma InvIsSound(s: Store)
    requires Inv(s)
    ensures Sound(s)
  {}

  lemma PutNamed(c: Files, f: FileRecord)
    requires EMPTY !in c.records && EMPTY !in c.hashes && f.fileKey != EMPTY && f.hash != EMPTY
    ensures EMPTY !in c.Put(f).records && EMPTY !in c.Put(f).hashes
  {}

  lemma HashIsNamed(s: Store, key: Text)
    requires Inv(s) && key in s.files.records
    ensures s.files.records[key].hash != EMPTY
  {}

  lemma ReplaceKeeps(s: Store, f: FileRecord, now: int64, readable: bool, w: Written)
    requires Inv(s) && f.fileKey != EMPTY && f.hash != EMPTY
    ensures Inv(ReplaceFile(s, f, now, readable, w).0)
  {
    hide Sound, ReplaceFile, Files.Put;
    assert s.Valid() by { InvIsValid(s); }
    if f.fileKey in s.files.records {
      HashIsNamed(s, f.fileKey);
    }
    ReplaceIsSound(s, f, now, readable, w);
    WriteIsAllOrNothing(s, f, now, readable, w);
    PutNamed(s.files, f);
  }

  lemma RemoveCoherent(s: Store, key: Text)
    requires Sound(s) && key in s.files.records
    requires key !in s.byKey.slots && s.files.records[key].hash !in s.byHash.slots
    ensures Sound(s.(files := s.files.Remove(key)))
  {
    RemoveValid(s.files, key);
  }

  /** The entry for the empty key survives a deletion: the record with this hash has no key and is
    * cached under the empty one, and the deletion is applied. */
  predicate ForgetsKey(s: Store, hash: Text, readable: bool, w: Written) {
    hash in s.files.hashes && s.files.hashes[hash] == EMPTY && EMPTY in s.byKey.slots && readable && !w.Unapplied?
  }

  /** The key of the record with this hash, as DeleteFileByHash learns it. */
  lemma DeletedKey(s: Store, hash: Text, now: int64)
    requires Sound(s)
    ensures s.Valid()
    ensures var hit := GetCache(s.byHash, hash, now).1;
            && (hit.Some? ==> hash in s.files.hashes && hit.value.fileKey == s.files.hashes[hash])
            && (s.files.FindByHash(hash).Some? <==> hash in s.files.hashes)
            && (hash in s.files.hashes ==>
                  && s.files.FindByHash(hash).value.fileKey == s.files.hashes[hash]
                  && s.files.hashes[hash] in s.files.records
                  && s.files.records[s.files.hashes[hash]].hash == hash)
  {
    GetValues(s.byHash, hash, now);
  }

  lemma HashDropped(s: Store, hash: Text, now: int64)
    requires Sound(s)
    ensures s.Valid()
    ensures var t := s.(byHash := DropCache(GetCache(s.byHash, hash, now).0, hash));
            Sound(t) && hash !in t.byHash.slots
  {
    GetValues(s.byHash, hash, now);
    ShrunkIsCoherent(s, s.(byHash := DropCache(GetCache(s.byHash, hash, now).0, hash)));
  }

  lemma DropsAreSound(s: Store, hash: Text, key: Text)
    requires Sound(s)
    ensures s.Valid()
    ensures Sound(s.(byHash := DropCache(s.byHash, hash)))
    ensures var t := s.(byKey := DropCache(s.byKey, key)); Sound(t) && key !in t.byKey.slots
    ensures Sound(s.(byHash := DropCache(s.byHash, hash), byKey := DropCache(s.byKey, key)))
  {
    ShrunkIsCoherent(s, s.(byHash := DropCache(s.byHash, hash)));
    ShrunkIsCoherent(s, s.(byKey := DropCache(s.byKey, key)));
    ShrunkIsCoherent(s, s.(byHash := DropCache(s.byHash, hash), byKey := DropCache(s.byKey, key)));
  }

  lemma DeleteIsSound(s: Store, hash: Text, now: int64, readable: bool, w: Written)
    requires Sound(s) && !ForgetsKey(s, hash, readable, w)
    ensures Sound(DeleteFileByHash(s, hash, now, readable, w).0)
  {
    hide Sound, DropCache, GetCache, Files.Remove, Files.FindByHash;
    DeletedKey(s, hash, now);
    HashDropped(s, hash, now);
    if hash in s.files.hashes {
      var key := s.files.hashes[hash];
      var s1 := s.(byHash := DropCache(GetCache(s.byHash, hash, now).0, hash));
      DropsAreSound(s1, hash, key);
      var s2 := if key != EMPTY then s1.(byKey := DropCache(s1.byKey, key)) else s1;
      if !w.Unapplied? && (key != EMPTY || readable) {
        RemoveCoherent(s2, key);
        DropsAreSound(s2.(files := s.files.Remove(key)), hash, key);
      }
    }
  }

  /** A record without a key defeats DeleteFileByHash in the same way as one without a hash defeats
    * ReplaceFile: a deletion, whatever becomes of its database calls, leaves the caches coherent
    * unless the entry for the empty key survives it. */
  lemma DeleteCoherentExactly(s: Store, hash: Text, now: int64, readable: bool, w: Written)
    requires Sound(s)
    ensures s.Valid()
    ensures Coherent(DeleteFileByHash(s, hash, now, readable, w).0) <==> !ForgetsKey(s, hash, readable, w)
  {
    hide Sound;
    SoundIsValid(s);
    if ForgetsKey(s, hash, readable, w) {
      DeletedKey(s, hash, now);
      var t := DeleteFileByHash(s, hash, now, readable, w).0;
      assert EMPTY in t.byKey.slots && EMPTY !in t.files.records;
    } else {
      DeleteIsSound(s, hash, now, readable, w);
      SoundIsValid(DeleteFileByHash(s, hash, now, readable, w).0);
    }
  }

  lemma RemoveNamed(c: Files, key: Text)
    requires EMPTY !in c.records && EMPTY !in c.hashes
    ensures EMPTY !in c.Remove(key).records && EMPTY !in c.Remove(key).hashes
  {}

  lemma DeleteKeeps(s: Store, hash: Text, now: int64, readable: bool, w: Written)
    requires Inv(s)
    ensures Inv(DeleteFileByHash(s, hash, now, readable, w).0)
  {
    hide Sound, Files.Remove, DeleteFileByHash;
    SoundIsValid(s);
    DeletedKey(s, hash, now);
    DeleteIsSound(s, hash, now, readable, w);
    DeleteIsAllOrNothing(s, hash, now, readable, w);
    if hash in s.files.hashes {
      RemoveNamed(s.files, s.files.hashes[hash]);
    }
  }

  /** Changing the advisory fields of a record behind the caches' back. */
  lemma UpdateIsSound(s: Store, key: Text, f: FileRecord)
    requires Sound(s) && key in s.files.records && Same(f, s.files.records[key])
    ensures Sound(Update(s, key, f))
  {
    var t := Update(s, key, f);
    forall h | h in s.byHash.slots
      ensures t.files.FindByHash(h).Some? && Same(s.byHash.slots[h].value, t.files.FindByHash(h).value)
    {
      assert s.files.FindByHash(h).Some?;
    }
  }

  lemma CountsAreAdvisory(f: FileRecord, n: int, at: int)
    ensures Same(OneMoreReuse(f), f) && Same(Seen(f, n, at), f)
  {}

  lemma CountIsSound(s: Store, key: Text, n: int, at: int)
    requires Sound(s)
    ensures Sound(CountReuse(s, key)) && Sound(CountSeen(s, key, n, at))
  {
    hide Sound, Same;
    if key in s.files.records {
      CountsAreAdvisory(s.files.records[key], n, at);
      UpdateIsSound(s, key, OneMoreReuse(s.files.records[key]));
      UpdateIsSound(s, key, Seen(s.files.records[key], n, at));
    }
  }

  lemma CountKeeps(s: Store, key: Text, n: int, at: int)
    requires Inv(s)
    ensures Inv(CountReuse(s, key)) && Inv(CountSeen(s, key, n, at))
  {
    hide Sound;
    CountIsSound(s, key, n, at);
  }

  lemma DeleteIsAllOrNothing(s: Store, hash: Text, now: int64, readable: bool, w: Written)
    requires s.Valid()
    ensures var t := DeleteFileByHash(s, hash, now, readable, w).0;
            t.files == s.files || (hash in s.files.hashes && t.files == s.files.Remove(s.files.hashes[hash]))
  {}

  lemma DeletionReport(s: Store, hash: Text, now: int64, readable: bool, w: Written)
    requires Sound(s)
    ensures s.Valid()
    ensures var (t, err) := DeleteFileByHash(s, hash, now, readable, w);
            && (readable && (w.Acknowledged? || hash !in s.files.hashes) ==> err.None?)
            && (err.None? && hash in s.files.hashes ==> t.files == s.files.Remove(s.files.hashes[hash]))
            && (hash !in s.files.hashes ==> t.files == s.files)
  {
    hide Sound, DropCache, GetCache, Files.Remove, Files.FindByHash;
    DeletedKey(s, hash, now);
    HashDropped(s, hash, now);
  }

  lemma RemoveTakes(c: Files, key: Text)
    requires c.Valid() && key in c.records
    ensures var d := c.Remove(key);
            && c.records[key].hash !in d.hashes && key !in d.records
            && (forall k :: k in c.records && k != key ==> k in d.records && d.records[k] == c.records[k])
            && (forall k :: k in d.records ==> k in c.records)
  {}

  /** A deletion that reports success has left no record with the hash, and has taken no other; and
    * it does report success when the database can be read and acknowledges. */
  lemma DeleteReports(s: Store, hash: Text, now: int64, readable: bool, w: Written)
    requires Sound(s)
    ensures s.Valid()
    ensures var (t, err) := DeleteFileByHash(s, hash, now, readable, w);
            && (err.None? ==>
                  && hash !in t.files.hashes
                  && (forall k :: k in s.files.records && s.files.records[k].hash != hash ==>
                        k in t.files.records && t.files.records[k] == s.files.records[k])
                  && (hash in s.files.hashes ==> t.files == s.files.Remove(s.files.hashes[hash])))
            && (readable && w.Acknowledged? ==> err.None?)
  {
    hide Sound, DeleteFileByHash, Files.Remove, Files.FindByHash;
    DeletionReport(s, hash, now, readable, w);
    DeletedKey(s, hash, now);
    if hash in s.files.hashes {
      SoundIsValid(s);
      RemoveTakes(s.files, s.files.hashes[hash]);
    }
  }

  // ---------------------------------------------------------------- what the caches are for

  /** While the caches have room, a record just read from the database is served without it for one
    * entry lifetime. */
  lemma ReadIsCached(s: Store, key: Text, now: int64, later: int64)
    requires Inv(s) && key !in s.byKey.slots && key in s.files.records
    requires |s.byKey.order| < CACHE_SIZE && later <= now + CACHE_TTL
    ensures var t := FindFileByKey(s, key, now, true).0;
            t.Valid() && FindFileByKey(t, key, later, false).1 == Ok(Some(s.files.records[key]))
  {
    hide Inv;
    InvIsValid(s);
    C.SetThenGet(s.byKey, key, s.files.records[key], now, CACHE_TTL, CACHE_SIZE, key, later, later);
  }

  /** A write that reports success leaves the new record in both caches, where they have room. */
  lemma WriteIsCached(s: Store, f: FileRecord, now: int64, w: Written, later: int64)
    requires Inv(s) && f.fileKey != EMPTY && f.hash != EMPTY && later <= now + CACHE_TTL
    requires |s.byKey.order| < CACHE_SIZE && |s.byHash.order| < CACHE_SIZE
    ensures var (t, err) := InsertFile(s, f, now, w);
            err.None? ==>
              && t.Valid() && FindFileByKey(t, f.fileKey, later, false).1 == Ok(Some(f))
              && FindFileByHash(t, f.hash, later, false).1 == Ok(Some(f))
  {
    InsertKeeps(s, f, now, w);
    hide Inv;
    InvIsValid(s);
    InvIsValid(InsertFile(s, f, now, w).0);
    C.SetThenGet(s.byKey, f.fileKey, f, now, CACHE_TTL, CACHE_SIZE, f.fileKey, later, later);
    C.SetThenGet(s.byHash, f.hash, f, now, CACHE_TTL, CACHE_SIZE, f.hash, later, later);
  }

  /** The same for a lookup by hash. */
  lemma HashReadIsCached(s: Store, hash: Text, now: int64, later: int64)
    requires Inv(s) && hash !in s.byHash.slots && s.files.FindByHash(hash).Some?
    requires |s.byHash.order| < CACHE_SIZE && later <= now + CACHE_TTL
    ensures var t := FindFileByHash(s, hash, now, true).0;
            t.Valid() && FindFileByHash(t, hash, later, false).1 == Ok(Some(s.files.FindByHash(hash).value))
  {
    hide Inv, Files.FindByHash;
    InvIsValid(s);
    C.SetThenGet(s.byHash, hash, s.files.FindByHash(hash).value, now, CACHE_TTL, CACHE_SIZE, hash, later, later);
  }

  lemma CachesShrink(c: Records, key: Text, now: int64)
    requires c.Valid()
    ensures |DropCache(c, key).order| <= |c.order| && |GetCache(c, key, now).0.order| <= |c.order|
  {
    C.RemoveKeeps(c, key);
  }

  lemma EvictShrinks(s: Store, key: Text, oldHash: Text, hash: Text)
    requires s.Valid()
    ensures var t := Evict(s, key, oldHash, hash);
            |t.byKey.order| <= |s.byKey.order| && |t.byHash.order| <= |s.byHash.order|
  {
    hide DropCache;
    CachesShrink(s.byKey, key, 0);
    CachesShrink(s.byHash, oldHash, 0);
    CachesShrink(s.byHash, hash, 0);
    CachesShrink(DropCache(s.byHash, oldHash), hash, 0);
  }

  /** Setting f in both caches, for as long as the entries live. */
  lemma InstalledIsServed(s: Store, f: FileRecord, now: int64, later: int64)
    requires s.Valid() && |s.byKey.order| < CACHE_SIZE && |s.byHash.order| < CACHE_SIZE && later <= now + CACHE_TTL
    ensures var t := s.(byHash := SetCache(s.byHash, f.hash, f, now), byKey := SetCache(s.byKey, f.fileKey, f, now));
            && t.Valid() && FindFileByKey(t, f.fileKey, later, false).1 == Ok(Some(f))
            && FindFileByHash(t, f.hash, later, false).1 == Ok(Some(f))
  {
    C.SetThenGet(s.byKey, f.fileKey, f, now, CACHE_TTL, CACHE_SIZE, f.fileKey, later, later);
    C.SetThenGet(s.byHash, f.hash, f, now, CACHE_TTL, CACHE_SIZE, f.hash, later, later);
  }

  /** So does a replacement, whose evictions only make room. */
  lemma ReplaceIsCached(s: Store, f: FileRecord, now: int64, readable: bool, w: Written, later: int64)
    requires Inv(s) && f.fileKey != EMPTY && f.hash != EMPTY && later <= now + CACHE_TTL
    requires |s.byKey.order| < CACHE_SIZE && |s.byHash.order| < CACHE_SIZE
    ensures s.Valid()
    ensures var (t, err) := ReplaceFile(s, f, now, readable, w);
            err.None? ==>
              && t.Valid() && FindFileByKey(t, f.fileKey, later, false).1 == Ok(Some(f))
              && FindFileByHash(t, f.hash, later, false).1 == Ok(Some(f))
  {
    hide Inv, Evict, GetCache, SetCache, Files.Put, Files.Collides, FindFileByKey, FindFileByHash;
    assert s.Valid() by { InvIsValid(s); }
    var (c, hit) := GetCache(s.byKey, f.fileKey, now);
    CachesShrink(s.byKey, f.fileKey, now);
    var s1 := s.(byKey := c);
    var oldHash := OldHash(s, f.fileKey, hit);
    EvictShrinks(s1, f.fileKey, oldHash, f.hash);
    if !s.files.Collides(f) {
      PutValid(s.files, f);
      var s3 := Evict(s1, f.fileKey, oldHash, f.hash).(files := s.files.Put(f));
      EvictShrinks(s3, f.fileKey, oldHash, f.hash);
      InstalledIsServed(Evict(s3, f.fileKey, oldHash, f.hash), f, now, later);
    }
  }

  // ---------------------------------------------------------------- runs

  datatype Op =
    | FindKey(key: Text, readable: bool)
    | FindHash(hash: Text, readable: bool)
    | Insert(f: FileRecord, written: Written)
    | Replace(f: FileRecord, readable: bool, written: Written)
    | Delete(hash: Text, readable: bool, written: Written)
    | Reuse(key: Text)
    | Touch(key: Text, n: int, at: int)

  function Step(s: Store, op: Op, now: int64): Store
    requires s.Valid()
  {
    match op
    case FindKey(key, readable) => FindFileByKey(s, key, now, readable).0
    case FindHash(hash, readable) => FindFileByHash(s, hash, now, readable).0
    case Insert(f, w) => InsertFile(s, f, now, w).0
    case Replace(f, readable, w) => ReplaceFile(s, f, now, readable, w).0
    case Delete(hash, readable, w) => DeleteFileByHash(s, hash, now, readable, w).0
    case Reuse(key) => CountReuse(s, key)
    case Touch(key, n, at) => CountSeen(s, key, n, at)
  }

  predicate NamesItsRecord(op: Op) {
    op.Insert? || op.Replace? ==> op.f.fileKey != EMPTY && op.f.hash != EMPTY
  }

  lemma StepKeeps(s: Store, op: Op, now: int64)
    requires Inv(s) && NamesItsRecord(op)
    ensures Inv(Step(s, op, now))
  {
    match op
    case FindKey(key, readable) => FindByKeyAgrees(s, key, now, readable);
    case FindHash(hash, readable) => FindByHashAgrees(s, hash, now, readable);
    case Insert(f, w) => InsertKeeps(s, f, now, w);
    case Replace(f, readable, w) => ReplaceKeeps(s, f, now, readable, w);
    case Delete(hash, readable, w) => DeleteKeeps(s, hash, now, readable, w);
    case Reuse(key) => CountKeeps(s, key, 0, 0);
    case Touch(key, n, at) => CountKeeps(s, key, n, at);
  }

  ghost predicate ReachableBy(s: Store, ops: seq<(Op, int64)>, t: Store)
    decreases ops
  {
    if ops == [] then s == t
    else s.Valid() && ReachableBy(Step(s, ops[0].0, ops[0].1), ops[1..], t)
  }

  /** After every sequential run of operations, whatever the clock and whichever database calls
    * failed, with or without having been applied, both caches agree with the database. */
  lemma {:induction false} RunsStayCoherent(s: Store, ops: seq<(Op, int64)>, t: Store)
    requires Inv(s) && ReachableBy(s, ops, t)
    requires forall i :: 0 <= i < |ops| ==> NamesItsRecord(ops[i].0)
    ensures Inv(t)
    decreases ops
  {
    if ops != [] {
      StepKeeps(s, ops[0].0, ops[0].1);
      assert forall i :: 0 <= i < |ops[1..]| ==> ops[1..][i] == ops[i + 1];
      RunsStayCoherent(Step(s, ops[0].0, ops[0].1), ops[1..], t);
    }
  }

  function ReuseOf(op: Op, key: Text): int { if op == Reuse(key) then 1 else 0 }

  function SeenOf(op: Op, key: Text): int { if op.Touch? && op.key == key then op.n else 0 }

  function Reuses(ops: seq<(Op, int64)>, key: Text): int {
    if ops == [] then 0 else ReuseOf(ops[0].0, key) + Reuses(ops[1..], key)
  }

  function Sightings(ops: seq<(Op, int64)>, key: Text): int {
    if ops == [] then 0 else SeenOf(ops[0].0, key) + Sightings(ops[1..], key)
  }

  /** The operation puts another record in the place of f, or removes it. */
  predicate Supersedes(op: Op, f: FileRecord) {
    (op.Replace? && op.f.fileKey == f.fileKey) || (op.Delete? && op.hash == f.hash)
  }

  lemma PutLeaves(c: Files, f: FileRecord, key: Text)
    requires key in c.records && key != f.fileKey
    ensures key in c.Put(f).records && c.Put(f).records[key] == c.records[key]
  {}

  lemma RemoveLeaves(c: Files, hash: Text, key: Text)
    requires c.Valid() && hash in c.hashes && key in c.records && c.records[key].hash != hash
    ensures var d := c.Remove(c.hashes[hash]); key in d.records && d.records[key] == c.records[key]
  {}

  /** What one operation does to the record of a key that it does not supersede. */
  lemma StepCounts(s: Store, op: Op, now: int64, key: Text)
    requires Inv(s) && NamesItsRecord(op) && key in s.files.records && !Supersedes(op, s.files.records[key])
    ensures s.Valid()
    ensures var f, t := s.files.records[key], Step(s, op, now);
            && key in t.files.records && Same(t.files.records[key], f)
            && t.files.records[key].reuseCount == f.reuseCount + ReuseOf(op, key)
            && t.files.records[key].seenCount == f.seenCount + SeenOf(op, key)
  {
    hide Inv, Named, FindFileByKey, FindFileByHash, InsertFile, ReplaceFile, DeleteFileByHash, Files.Put, Files.Remove;
    InvIsValid(s);
    assert s.files.records[key].fileKey == key by { KeyedRight(s.files, key); }
    match op
    case FindKey(k, readable) => FindByKeyAgrees(s, k, now, readable);
    case FindHash(h, readable) => FindByHashAgrees(s, h, now, readable);
    case Insert(f, w) =>
      WriteIsAllOrNothing(s, f, now, true, w);
      if f.fileKey != key {
        PutLeaves(s.files, f, key);
      }
    case Replace(f, readable, w) =>
      WriteIsAllOrNothing(s, f, now, readable, w);
      PutLeaves(s.files, f, key);
    case Delete(h, readable, w) =>
      DeleteIsAllOrNothing(s, h, now, readable, w);
      if h in s.files.hashes {
        RemoveLeaves(s.files, h, key);
      }
    case Reuse(k) =>
    case Touch(k, n, at) =>
  }

  lemma KeyedRight(c: Files, key: Text)
    requires c.Valid() && key in c.records
    ensures c.records[key].fileKey == key
  {}

  /** Over every run that does not replace or delete the record of a key, its reuse counter grows by
    * one for each counted reuse and its seen counter by what the touches of that key add up to. */
  lemma {:induction false} RunCounts(s: Store, ops: seq<(Op, int64)>, t: Store, key: Text)
    requires Inv(s) && ReachableBy(s, ops, t) && key in s.files.records
    requires forall i :: 0 <= i < |ops| ==> NamesItsRecord(ops[i].0) && !Supersedes(ops[i].0, s.files.records[key])
    ensures key in t.files.records && Same(t.files.records[key], s.files.records[key])
    ensures t.files.records[key].reuseCount == s.files.records[key].reuseCount + Reuses(ops, key)
    ensures t.files.records[key].seenCount == s.files.records[key].seenCount + Sightings(ops, key)
    decreases ops
  {
    hide Inv, Step, NamesItsRecord;
    if ops != [] {
      StepCounts(s, ops[0].0, ops[0].1, key);
      StepKeeps(s, ops[0].0, ops[0].1);
      assert forall i :: 0 <= i < |ops[1..]| ==> ops[1..][i] == ops[i + 1];
      RunCounts(Step(s, ops[0].0, ops[0].1), ops[1..], t, key);
    }
  }

  // ---------------------------------------------------------------- the empty hash

  lemma DropShrinks(c: Records, key: Text)
    requires c.Valid()
    ensures DropCache(c, key).slots == c.slots - {key}
    ensures DropCache(DropCache(c, key), key) == DropCache(c, key)
  {
    C.RemoveKeeps(c, key);
  }

  /** Setting f in the hash cache evicts the entry for the empty hash. */
  predicate EvictsEmpty(c: Records, f: FileRecord, now: int64)
    requires c.Valid()
  {
    && |c.order| >= CACHE_SIZE
    && var p := C.Push(c, f.hash, C.Slot(f, now + CACHE_TTL, now)); C.Oldest(p.order, p.slots) == EMPTY
  }

  /** The entry for the empty hash survives a replacement: the record replaced has no hash and is
    * cached under the empty one, the write is applied, and nothing that follows evicts the entry. */
  predicate KeepsEmpty(s: Store, f: FileRecord, now: int64, readable: bool, w: Written)
    requires s.Valid()
  {
    && f.fileKey in s.files.records && s.files.records[f.fileKey].hash == EMPTY && EMPTY in s.byHash.slots
    && f.hash != EMPTY && readable && !s.files.Collides(f) && !w.Unapplied?
    && !(w.Acknowledged? && EvictsEmpty(DropCache(s.byHash, f.hash), f, now))
  }

  /** A record without a hash defeats ReplaceFile, which takes the empty string for "not known": a
    * replacement, whatever becomes of its database calls, leaves the caches coherent unless the
    * entry for the empty hash survives it. */
  lemma ReplaceCoherentExactly(s: Store, f: FileRecord, now: int64, readable: bool, w: Written)
    requires Sound(s)
    ensures s.Valid() && (Coherent(ReplaceFile(s, f, now, readable, w).0) <==> !KeepsEmpty(s, f, now, readable, w))
  {
    hide Sound, Coherent, Files.Put, Files.Collides, EvictsEmpty;
    SoundIsValid(s);
    if f.fileKey in s.files.records && s.files.records[f.fileKey].hash == EMPTY && EMPTY in s.byHash.slots
       && f.hash != EMPTY {
      UnhashedReplace(s, f, now, readable, w);
      if readable && !s.files.Collides(f) && !w.Unapplied? {
        UnhashedApplied(s, f, now, w);
      } else {
        var t := ReplaceFile(s, f, now, readable, w).0;
        ShrunkIsCoherent(s, t);
      }
    } else {
      ReplaceIsSound(s, f, now, readable, w);
      SoundIsValid(ReplaceFile(s, f, now, readable, w).0);
    }
  }

  lemma SoundIsValid(s: Store)
    requires Sound(s)
    ensures s.Valid() && Coherent(s)
  {}

  /** What a replacement of a record without a hash leaves behind. */
  lemma UnhashedReplace(s: Store, f: FileRecord, now: int64, readable: bool, w: Written)
    requires Sound(s) && f.hash != EMPTY
    requires f.fileKey in s.files.records && s.files.records[f.fileKey].hash == EMPTY
    ensures s.Valid()
    ensures var t, c := ReplaceFile(s, f, now, readable, w).0, DropCache(s.byHash, f.hash);
            if readable && !s.files.Collides(f) && !w.Unapplied? then
              && t.files == s.files.Put(f)
              && t.byHash == (if w.Acknowledged? then SetCache(c, f.hash, f, now) else c)
              && (forall k :: k in t.byKey.slots ==>
                    if k == f.fileKey then t.byKey.slots[k].value == f
                    else k in s.byKey.slots && t.byKey.slots[k].value == s.byKey.slots[k].value)
            else t.files == s.files && Within(t.byHash, s.byHash) && Within(t.byKey, s.byKey)
  {
    hide Files.Put, Files.Collides, Files.Valid, C.Set, C.Remove, C.Invalidate;
    var (c, hit) := GetCache(s.byKey, f.fileKey, now);
    GetValues(s.byKey, f.fileKey, now);
    assert OldHash(s, f.fileKey, hit) == EMPTY by { HitHash(s, f.fileKey, now); }
    DropShrinks(s.byHash, f.hash);
    DropShrinks(c, f.fileKey);
    SetValues(DropCache(c, f.fileKey), f.fileKey, f, now);
    PutValidIfFree(s.files, f);
  }

  lemma PutValidIfFree(c: Files, f: FileRecord)
    requires c.Valid()
    ensures !c.Collides(f) ==> c.Put(f).Valid()
  {
    if !c.Collides(f) {
      PutValid(c, f);
    }
  }

  lemma HitHash(s: Store, key: Text, now: int64)
    requires Sound(s) && key in s.files.records
    ensures var hit := GetCache(s.byKey, key, now).1;
            hit.Some? ==> hit.value.hash == s.files.records[key].hash
  {
    GetValues(s.byKey, key, now);
  }

  lemma SetKeepsUnlessEvicted(c: Records, f: FileRecord, now: int64)
    requires c.Valid() && f.hash !in c.slots && EMPTY in c.slots && f.hash != EMPTY
    ensures EMPTY in SetCache(c, f.hash, f, now).slots <==> !EvictsEmpty(c, f, now)
  {
    C.PushKeeps(c, f.hash, C.Slot(f, now + CACHE_TTL, now));
  }

  /** Caches that hold the new record and otherwise nothing new, and nothing under the old hash. */
  lemma CoherentAfterPut(s: Store, f: FileRecord, t: Store)
    requires Sound(s) && !s.files.Collides(f) && t.files == s.files.Put(f)
    requires forall h :: h in t.byHash.slots ==>
               if h == f.hash then t.byHash.slots[h].value == f
               else h in s.byHash.slots && t.byHash.slots[h].value == s.byHash.slots[h].value
    requires f.fileKey in s.files.records ==>
               s.files.records[f.fileKey].hash == f.hash || s.files.records[f.fileKey].hash !in t.byHash.slots
    requires forall k :: k in t.byKey.slots ==>
               if k == f.fileKey then t.byKey.slots[k].value == f
               else k in s.byKey.slots && t.byKey.slots[k].value == s.byKey.slots[k].value
    ensures Coherent(t)
  {
    PutRecords(s.files, f);
    PutFrame(s.files, f, f.hash);
    forall h | h in t.byHash.slots
      ensures t.files.FindByHash(h).Some? && Same(t.byHash.slots[h].value, t.files.FindByHash(h).value)
    {
      PutFrame(s.files, f, h);
    }
  }

  lemma PutForgetsHash(c: Files, f: FileRecord)
    requires f.fileKey in c.records && c.records[f.fileKey].hash != f.hash
    ensures c.Put(f).FindByHash(c.records[f.fileKey].hash) == None
  {}

  lemma UnhashedApplied(s: Store, f: FileRecord, now: int64, w: Written)
    requires Sound(s) && !s.files.Collides(f) && !w.Unapplied? && f.hash != EMPTY
    requires f.fileKey in s.files.records && s.files.records[f.fileKey].hash == EMPTY && EMPTY in s.byHash.slots
    ensures s.Valid()
    ensures Coherent(ReplaceFile(s, f, now, true, w).0)
            <==> w.Acknowledged? && EvictsEmpty(DropCache(s.byHash, f.hash), f, now)
  {
    SoundIsValid(s);
    UnhashedReplace(s, f, now, true, w);
    var t, c := ReplaceFile(s, f, now, true, w).0, DropCache(s.byHash, f.hash);
    hide ReplaceFile, EvictsEmpty, Sound;
    DropShrinks(s.byHash, f.hash);
    SetValues(c, f.hash, f, now);
    SetKeepsUnlessEvicted(c, f, now);
    PutForgetsHash(s.files, f);
    if EMPTY !in t.byHash.slots {
      CoherentAfterPut(s, f, t);
    } else {
      assert !Coherent(t);
    }
  }

  function Only(f: FileRecord): Files {
    Files(map[f.fileKey := f], map[f.hash := f.fileKey], map[f.vaultMsgID := f.fileKey])
  }

  function UnhashedCached(f: FileRecord, now: int64): Store {
    Store(Only(f), C.State([EMPTY], map[EMPTY := C.Slot(f, now + CACHE_TTL, now)]), C.Empty())
  }

  lemma LookupByEmptyHash(f: FileRecord, now: int64)
    requires f.hash == EMPTY
    ensures FindFileByHash(Store(Only(f), C.Empty(), C.Empty()), EMPTY, now, true).0 == UnhashedCached(f, now)
  {
    var empty: Records := C.Empty();
    assert GetCache(empty, EMPTY, now) == (empty, None);
    assert SetCache(empty, EMPTY, f, now) == UnhashedCached(f, now).byHash;
  }

  lemma UnhashedIsSound(f: FileRecord, now: int64)
    requires f.hash == EMPTY
    ensures Sound(UnhashedCached(f, now))
  {}

  lemma UnhashedHasRoom(f: FileRecord, g: FileRecord, now: int64)
    requires f.hash == EMPTY && g.hash != EMPTY
    ensures var c := UnhashedCached(f, now).byHash;
            c.Valid() && DropCache(c, g.hash) == c && !EvictsEmpty(c, g, now)
  {}

  /** Such a state: a record without a hash, looked up by the empty one. No caller of ReplaceFile
    * produces it, since every ingested record has the hash of its key. */
  lemma EmptyHashIsCached(f: FileRecord, g: FileRecord, now: int64)
    requires f.hash == EMPTY && g.hash != EMPTY && f.fileKey == g.fileKey
    ensures var s := FindFileByHash(Store(Only(f), C.Empty(), C.Empty()), EMPTY, now, true).0;
            Sound(s) && KeepsEmpty(s, g, now, true, Acknowledged)
  {
    hide FindFileByHash, EvictsEmpty, DropCache, Sound;
    LookupByEmptyHash(f, now);
    UnhashedIsSound(f, now);
    UnhashedHasRoom(f, g, now);
  }

  lemma LookupByEmptyKey(f: FileRecord, now: int64)
    requires f.fileKey == EMPTY
    ensures var s := Store(Only(f), C.Empty(), C.Empty());
            FindFileByKey(s, EMPTY, now, true).0 ==
            s.(byKey := C.State([EMPTY], map[EMPTY := C.Slot(f, now + CACHE_TTL, now)]))
  {
    var empty: Records := C.Empty();
    assert GetCache(empty, EMPTY, now) == (empty, None);
  }

  /** Likewise a record without a key, looked up by the empty one. No caller produces it: a file
    * without a key is refused before it is ingested. */
  lemma EmptyKeyIsCached(f: FileRecord, now: int64)
    requires f.fileKey == EMPTY
    ensures var s := FindFileByKey(Store(Only(f), C.Empty(), C.Empty()), EMPTY, now, true).0;
            Sound(s) && ForgetsKey(s, f.hash, true, Acknowledged)
  {
    LookupByEmptyKey(f, now);
  }

  // ---------------------------------------------------------------- every step, every run

  /** A replacement or a deletion that leaves the entry of the record it took away. */
  predicate LeavesEntry(s: Store, op: Op, now: int64)
    requires s.Valid()
  {
    match op
    case Replace(f, readable, w) => KeepsEmpty(s, f, now, readable, w)
    case Delete(hash, readable, w) => ForgetsKey(s, hash, readable, w)
    case _ => false
  }

  /** Whatever keys and hashes the operations name. */
  lemma StepCoherentExactly(s: Store, op: Op, now: int64)
    requires Sound(s)
    ensures s.Valid() && (Coherent(Step(s, op, now)) <==> !LeavesEntry(s, op, now))
    ensures !LeavesEntry(s, op, now) ==> Sound(Step(s, op, now))
  {
    hide Sound, Coherent, KeepsEmpty, ForgetsKey, ReplaceFile, DeleteFileByHash, InsertFile, FindFileByKey;
    hide FindFileByHash, CountReuse, CountSeen;
    SoundIsValid(s);
    match op
    case FindKey(key, readable) => FindKeyIsSound(s, key, now, readable); SoundIsValid(Step(s, op, now));
    case FindHash(hash, readable) => FindHashIsSound(s, hash, now, readable); SoundIsValid(Step(s, op, now));
    case Insert(f, w) => InsertIsSound(s, f, now, w); SoundIsValid(Step(s, op, now));
    case Replace(f, readable, w) =>
      ReplaceCoherentExactly(s, f, now, readable, w);
      ReplaceIsValid(s, f, now, readable, w);
    case Delete(hash, readable, w) =>
      DeleteCoherentExactly(s, hash, now, readable, w);
      if !ForgetsKey(s, hash, readable, w) {
        DeleteIsSound(s, hash, now, readable, w);
      }
    case Reuse(key) => CountIsSound(s, key, 0, 0); SoundIsValid(Step(s, op, now));
    case Touch(key, n, at) => CountIsSound(s, key, n, at); SoundIsValid(Step(s, op, now));
  }

  lemma ReplaceIsValid(s: Store, f: FileRecord, now: int64, readable: bool, w: Written)
    requires Sound(s)
    ensures s.Valid()
    ensures var t := ReplaceFile(s, f, now, readable, w).0; Coherent(t) ==> Sound(t)
  {
    hide Coherent, C.Set, C.Get, C.Invalidate, Files.Put, Files.Collides, Files.Valid;
    PutValidIfFree(s.files, f);
  }

  /** The caches agree with the database in every state of a run. */
  ghost predicate AlwaysCoherent(s: Store, ops: seq<(Op, int64)>)
    decreases ops
  {
    s.Valid() && Coherent(s) && (ops != [] ==> AlwaysCoherent(Step(s, ops[0].0, ops[0].1), ops[1..]))
  }

  ghost predicate NeverLeavesEntry(s: Store, ops: seq<(Op, int64)>)
    decreases ops
  {
    ops == [] || (s.Valid() && !LeavesEntry(s, ops[0].0, ops[0].1)
                  && NeverLeavesEntry(Step(s, ops[0].0, ops[0].1), ops[1..]))
  }

  /** Over every sequential run, on records with or without key and hash, the caches agree with the
    * database all along if and only if no replacement and no deletion leaves such an entry. */
  lemma {:induction false} RunsCoherentExactly(s: Store, ops: seq<(Op, int64)>)
    requires Sound(s)
    ensures AlwaysCoherent(s, ops) <==> NeverLeavesEntry(s, ops)
    decreases ops
  {
    hide Sound, Coherent, Step, LeavesEntry;
    SoundIsValid(s);
    if ops != [] {
      StepCoherentExactly(s, ops[0].0, ops[0].1);
      if !LeavesEntry(s, ops[0].0, ops[0].1) {
        RunsCoherentExactly(Step(s, ops[0].0, ops[0].1), ops[1..]);
      }
    }
  }
}
