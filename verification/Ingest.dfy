/** What one call of Ingest does to the file collection and the vault, and what that means over
  * whole runs that mix ingests, vault messages deleted from outside, and the deletion of stale
  * records (internal/ingest/ingest.go). */
module IngestModel {
  import opened Common
  import opened FileModel

  /** A vault message as Telegram returns it; key is EMPTY when none can be derived. */
  datatype Message = Message(media: bool, key: Text, size: int, details: Text)

  /** Message ids are given out in increasing order, so every id at or above nextID is fresh.
    * leaks collects the messages given up: deletions that failed, forwards nobody waited for. */
  datatype World = World(records: map<Text, FileRecord>, vault: map<nat, Message>, nextID: nat, leaks: set<nat>)

  datatype Failure =
    NoMedia | NoKey | Unavailable | NotLocked | Cancelled | ForwardFailed | NoSize | NotPersisted(error: StoreError)

  datatype Outcome = Served(file: FileRecord, reused: bool) | Refused(error: Failure)

  /** The record names media in the vault with its own key and size. */
  predicate Live(vault: map<nat, Message>, f: FileRecord) {
    && f.vaultMsgID != 0 && f.vaultMsgID in vault
    && vault[f.vaultMsgID].media && vault[f.vaultMsgID].key == f.fileKey
    && vault[f.vaultMsgID].size == f.size > 0
  }

  /** The key has a record, and it is live. */
  predicate LiveRecord(w: World, key: Text) {
    key in w.records && Live(w.vault, w.records[key])
  }

  lemma LiveRecordIs(w: World, key: Text)
    ensures LiveRecord(w, key) <==> key in w.records && Live(w.vault, w.records[key])
  {}

  ghost predicate Healthy(w: World) {
    && (forall k :: k in w.records ==> w.records[k].vaultMsgID < w.nextID)
    && (forall m :: m in w.vault ==> 0 < m < w.nextID)
    && 0 < w.nextID
  }

  /** What a replacement keeps of the record it replaces. */
  predicate Descends(f: FileRecord, g: FileRecord) {
    && g.fileKey == f.fileKey && g.hash == f.hash && g.createdAt == f.createdAt
    && (f.firstSourceChatID != 0 ==>
          g.firstSourceChatID == f.firstSourceChatID && g.firstSourceMsgID == f.firstSourceMsgID)
  }

  /** Every message of a is still there in b, and what b has besides is new. */
  ghost predicate VaultGrows(a: World, b: World) {
    && a.nextID <= b.nextID
    && (forall m :: m in a.vault ==> m in b.vault && b.vault[m] == a.vault[m])
    && (forall m :: m in b.vault ==> m in a.vault || a.nextID <= m)
  }

  /** Each message of b was there in a, or has been given up, or is the one kept. */
  ghost predicate Accounted(a: World, b: World, kept: nat) {
    && (forall m :: m in a.leaks ==> m in b.leaks)
    && (forall m :: m in b.vault ==> m in a.vault || m in b.leaks || m == kept)
  }

  ghost predicate OthersUntouched(a: World, b: World, key: Text) {
    && (forall k :: k in a.records && k != key ==> k in b.records && b.records[k] == a.records[k])
    && (forall k :: k in b.records && k != key ==> k in a.records)
  }

  /** The message named by a key's record; 0, which names no message, without a record. */
  function MessageOf(w: World, key: Text): nat {
    if key in w.records then w.records[key].vaultMsgID else 0
  }

  ghost predicate Ingested(w: World, key: Text, r: Outcome, v: World) {
    && VaultGrows(w, v)
    && Accounted(w, v, MessageOf(v, key))
    && OthersUntouched(w, v, key)
    && (key in w.records ==> key in v.records && Descends(w.records[key], v.records[key]))
    && (r.Served? ==>
          && key in v.records
          && Same(r.file, v.records[key])
          && Live(v.vault, v.records[key])
          && (r.reused <==> r.file.vaultMsgID < w.nextID))
  }

  // ---------------------------------------------------------------- runs

  datatype Event =
    | Ingest(key: Text, outcome: Outcome)
    | VaultLoss                      // somebody deletes any number of vault messages
    | Forget(hash: Text)             // DeleteFileByHash, after the stream handler met a stale record
    | Advisory                       // seen and reuse counters

  ghost predicate Lost(w: World, v: World) {
    && v.records == w.records
    && forall m :: m in v.vault ==> m in w.vault && v.vault[m] == w.vault[m]
  }

  ghost predicate Forgotten(w: World, h: Text, v: World) {
    && v.vault == w.vault
    && (forall k :: k in v.records ==> k in w.records && v.records[k] == w.records[k])
    && (forall k :: k in w.records ==> (k in v.records <==> w.records[k].hash != h))
  }

  ghost predicate Counted(w: World, v: World) {
    && v.vault == w.vault
    && (forall k :: k in w.records ==> k in v.records && Same(w.records[k], v.records[k]))
    && (forall k :: k in v.records ==> k in w.records)
  }

  ghost predicate Step(w: World, e: Event, v: World) {
    match e
    case Ingest(key, r) => Ingested(w, key, r, v)
    case VaultLoss => Lost(w, v)
    case Forget(h) => Forgotten(w, h, v)
    case Advisory => Counted(w, v)
  }

  ghost predicate IsRun(ws: seq<World>, es: seq<Event>) {
    |ws| == |es| + 1 && forall i :: 0 <= i < |es| ==> StepAt(ws, es, i)
  }

  ghost predicate StepAt(ws: seq<World>, es: seq<Event>, i: nat)
    requires i < |es| == |ws| - 1
  {
    Step(ws[i], es[i], ws[i + 1])
  }

  /** The event deletes the record that key has in w. */
  predicate Forgets(e: Event, w: World, key: Text) {
    key in w.records && e == Forget(w.records[key].hash)
  }

  lemma IngestKeeps(w: World, key: Text, r: Outcome, v: World, k: Text)
    requires Ingested(w, key, r, v) && k in w.records
    ensures k in v.records && Descends(w.records[k], v.records[k])
    ensures Live(w.vault, w.records[k]) && (key == k ==> r.Served?) ==> Live(v.vault, v.records[k])
  {}

  lemma CountKeeps(w: World, v: World, k: Text)
    requires Counted(w, v) && k in w.records
    ensures k in v.records && Descends(w.records[k], v.records[k])
    ensures Live(w.vault, w.records[k]) ==> Live(v.vault, v.records[k])
  {}

  /** One event keeps the record of a key, its hash and its provenance, unless it is the deletion
    * of that record; and it keeps the record live unless it is a loss of vault messages or a
    * failed ingest of that very key: no ingest of another key can break it. */
  lemma EventKeeps(w: World, e: Event, v: World, k: Text)
    requires Step(w, e, v) && k in w.records && !Forgets(e, w, k)
    ensures k in v.records && Descends(w.records[k], v.records[k])
    ensures (Live(w.vault, w.records[k]) && !e.VaultLoss? && (e.Ingest? && e.key == k ==> e.outcome.Served?))
            ==> Live(v.vault, v.records[k])
  {
    match e
    case Ingest(key, r) => IngestKeeps(w, key, r, v, k);
    case VaultLoss =>
    case Forget(h) =>
    case Advisory => CountKeeps(w, v, k);
  }

  lemma SelfDescends(f: FileRecord)
    ensures Descends(f, f)
  {}

  lemma DescendsIsTransitive(f: FileRecord, g: FileRecord, h: FileRecord)
    requires Descends(f, g) && Descends(g, h)
    ensures Descends(f, h)
  {}

  /** As long as nobody deletes the record of a key, it keeps its hash, its first creation time and
    * its first nonzero source through every run, however often its vault message was lost. */
  lemma {:induction false} ProvenanceSurvives(ws: seq<World>, es: seq<Event>, i: nat, j: nat, k: Text)
    requires IsRun(ws, es) && i <= j < |ws|
    requires k in ws[i].records
    requires forall n :: i <= n < j ==> !Forgets(es[n], ws[n], k)
    ensures k in ws[j].records && Descends(ws[i].records[k], ws[j].records[k])
    decreases j
  {
    hide Step, Descends;
    if i < j {
      ProvenanceSurvives(ws, es, i, j - 1, k);
      assert StepAt(ws, es, j - 1);
      EventKeeps(ws[j - 1], es[j - 1], ws[j], k);
      DescendsIsTransitive(ws[i].records[k], ws[j - 1].records[k], ws[j].records[k]);
    } else {
      SelfDescends(ws[i].records[k]);
    }
  }

  lemma SuccessIsLive(w: World, key: Text, r: Outcome, v: World)
    requires Step(w, Ingest(key, r), v) && r.Served?
    ensures key in v.records && Live(v.vault, v.records[key])
  {}

  /** After a successful ingest the record found by its key names a live vault message with its key
    * and size, and it goes on doing so as long as nothing is lost or forgotten and no later ingest
    * of that key fails. */
  lemma {:induction false} SuccessLasts(ws: seq<World>, es: seq<Event>, i: nat, j: nat, k: Text)
    requires IsRun(ws, es) && i < j < |ws|
    requires es[i].Ingest? && es[i].key == k && es[i].outcome.Served?
    requires forall n :: i < n < j ==> !es[n].VaultLoss? && !Forgets(es[n], ws[n], k)
    requires forall n :: i < n < j && es[n].Ingest? && es[n].key == k ==> es[n].outcome.Served?
    ensures k in ws[j].records && Live(ws[j].vault, ws[j].records[k])
    decreases j
  {
    hide Live, Step, Descends;
    assert StepAt(ws, es, j - 1);
    if i + 1 < j {
      SuccessLasts(ws, es, i, j - 1, k);
      EventKeeps(ws[j - 1], es[j - 1], ws[j], k);
    } else {
      SuccessIsLive(ws[i], k, es[i].outcome, ws[j]);
    }
  }

  // ---------------------------------------------------------------- steps of an ingest

  /** A forward has posted m. */
  function Posts(w: World, m: Message): World {
    w.(vault := w.vault[w.nextID := m], nextID := w.nextID + 1)
  }

  lemma PostKeeps(w: World, m: Message)
    requires Healthy(w)
    ensures Healthy(Posts(w, m)) && VaultGrows(w, Posts(w, m)) && Accounted(w, Posts(w, m), w.nextID)
  {}

  /** A fresh message makes no record live that was not. */
  lemma PostRevivesNothing(w: World, m: Message, key: Text)
    requires Healthy(w)
    ensures LiveRecord(Posts(w, m), key) <==> LiveRecord(w, key)
  {}

  /** Taking back the message just posted leaves nothing but a used id. */
  lemma PostTakenBack(w: World, m: Message)
    requires Healthy(w)
    ensures Posts(w, m).(vault := Posts(w, m).vault - {w.nextID}) == w.(nextID := w.nextID + 1)
  {
    assert Posts(w, m).vault - {w.nextID} == w.vault;
  }

  /** A forward posts after nobody waits for it. */
  lemma LatePostKeeps(w: World, m: Message)
    requires Healthy(w)
    ensures var v := Posts(w, m).(leaks := w.leaks + {w.nextID});
            Healthy(v) && VaultGrows(w, v) && Accounted(w, v, 0)
  {}

  lemma NothingHappened(w: World, kept: nat)
    ensures VaultGrows(w, w) && Accounted(w, w, kept)
  {}

  /** The message with the given id has been deleted, or given up. */
  predicate Deleted(w: World, id: nat, v: World) {
    v.nextID == w.nextID && v.records == w.records &&
    ((v.vault == w.vault - {id} && v.leaks == w.leaks) || (v.vault == w.vault && v.leaks == w.leaks + {id}))
  }

  /** A posted message is taken back: it is deleted, or the deletion fails and it is a leak. */
  lemma TakenBack(w: World, v: World, id: nat, u: World)
    requires Healthy(w) && Healthy(v) && VaultGrows(w, v) && Accounted(w, v, id) && w.nextID <= id
    requires Deleted(v, id, u)
    ensures Healthy(u) && VaultGrows(w, u) && Accounted(w, u, 0)
  {}

  /** w with the reuse counter of key's record one higher. */
  function Bumped(w: World, key: Text): World
    requires key in w.records
  {
    w.(records := w.records[key := OneMoreReuse(w.records[key])])
  }

  lemma BumpedIsHealthy(w: World, key: Text)
    requires key in w.records && Healthy(w)
    ensures Healthy(Bumped(w, key))
  {}

  lemma HitIsIngested(w: World, key: Text, f: FileRecord, v: World)
    requires key in w.records && (v == w || v == Bumped(w, key))
    requires Healthy(w) && Same(f, w.records[key]) && Live(w.vault, f)
    ensures Ingested(w, key, Served(f, true), v)
  {
    NothingHappened(w, MessageOf(v, key));
  }

  /** Two stretches of an ingest, the first of which keeps nothing. */
  lemma ThenKeeps(a: World, b: World, c: World, kept: nat)
    requires VaultGrows(a, b) && Accounted(a, b, 0) && VaultGrows(b, c) && Accounted(b, c, kept)
    requires Healthy(b)
    ensures VaultGrows(a, c) && Accounted(a, c, kept)
  {}

  lemma RecordIsHealthy(w: World, f: FileRecord)
    requires Healthy(w) && f.vaultMsgID < w.nextID
    ensures Healthy(w.(records := w.records[f.fileKey := f]))
  {}

  /** A call that fails before it has changed anything. */
  lemma FailureIsIngested(w: World, key: Text)
    ensures forall e: Failure :: Ingested(w, key, Refused(e), w)
  {
    NothingHappened(w, MessageOf(w, key));
  }

  lemma SameIsLive(vault: map<nat, Message>, f: FileRecord, g: FileRecord)
    requires Same(f, g)
    ensures Live(vault, f) <==> Live(vault, g)
    ensures f.vaultMsgID == g.vaultMsgID
  {}

  lemma OtherStaysLive(w: World, f: FileRecord, id: nat, v: World)
    requires Live(w.vault, f) && f.vaultMsgID != id && Deleted(w, id, v)
    ensures Live(v.vault, f)
  {}

  lemma TakenBackIsIngested(u: World, key: Text, w: World, r: Outcome)
    requires VaultGrows(u, w) && Accounted(u, w, 0) && w.records == u.records && Healthy(w) && r.Refused?
    ensures Ingested(u, key, r, w)
  {
    if key in u.records { SelfDescends(u.records[key]); }
  }

  lemma GrowsUpTo(a: World, b: World)
    requires VaultGrows(a, b)
    ensures a.nextID <= b.nextID
  {}

  // ---------------------------------------------------------------- persisting

  /** The record may or may not have been written; either it is served, or its message is taken back. */
  predicate Persisted(w: World, f: FileRecord, r: Outcome, v: World) {
    && (v.records == w.records || v.records == w.records[f.fileKey := f])
    && (Deleted(w.(records := v.records), f.vaultMsgID, v)
        || (v == w.(records := v.records) && r.Served? && !r.reused))
    && (r.Served? ==>
          && f.fileKey in v.records && Same(r.file, v.records[f.fileKey]) && Live(v.vault, v.records[f.fileKey])
          && (r.reused <==> r.file.vaultMsgID != f.vaultMsgID))
  }

  /** mid is the world after the write, f's message is in the vault, and the rest went as it should:
    * a live record of the key is served, and f's message stays only as the record's. */
  predicate Recovered(mid: World, f: FileRecord, r: Outcome, v: World) {
    && (r.Served? <==> LiveRecord(mid, f.fileKey))
    && v == (if r.Served? && !r.reused then mid else mid.(vault := mid.vault - {f.vaultMsgID}))
  }

  lemma LiveIsRecovered(mid: World, f: FileRecord, r: Outcome, v: World)
    requires f.fileKey in mid.records && Live(mid.vault, mid.records[f.fileKey]) && r.Served?
    ensures v == (if r.reused then mid.(vault := mid.vault - {f.vaultMsgID}) else mid) ==> Recovered(mid, f, r, v)
  {}

  lemma DeadIsRecovered(mid: World, f: FileRecord, r: Outcome, v: World)
    requires r.Refused?
    ensures !(f.fileKey in mid.records && Live(mid.vault, mid.records[f.fileKey])) ==>
            v == mid.(vault := mid.vault - {f.vaultMsgID}) ==> Recovered(mid, f, r, v)
  {}

  predicate MaybeWritten(w: World, f: FileRecord, mid: World) {
    mid == w || mid == w.(records := w.records[f.fileKey := f])
  }

  /** The write, then the outcome. */
  lemma WrittenThenSettled(w: World, f: FileRecord, mid: World, r: Outcome, v: World)
    requires MaybeWritten(w, f, mid)
    requires Deleted(mid, f.vaultMsgID, v) || (v == mid && r.Served? && !r.reused)
    requires r.Served? ==>
               && f.fileKey in mid.records && Same(r.file, mid.records[f.fileKey])
               && Live(v.vault, mid.records[f.fileKey])
               && (r.reused <==> r.file.vaultMsgID != f.vaultMsgID)
    ensures Persisted(w, f, r, v)
  {}

  /** A fresh message that becomes the record's, or is taken back, makes an ingest. */
  lemma PersistedIsIngested(u: World, w: World, f: FileRecord, r: Outcome, v: World)
    requires Healthy(u) && VaultGrows(u, w) && Accounted(u, w, f.vaultMsgID) && w.records == u.records
    requires u.nextID <= f.vaultMsgID
    requires f.fileKey in u.records ==> Descends(u.records[f.fileKey], f)
    requires Persisted(w, f, r, v)
    ensures Ingested(u, f.fileKey, r, v)
  {
    var key := f.fileKey;
    SelfDescends(f);
    if key in u.records { SelfDescends(u.records[key]); }
    if r.Served? && v.records == u.records {
      assert r.file.vaultMsgID == u.records[key].vaultMsgID;
    }
  }
}

/** Ingest itself, over a file store and a vault that it updates step by step. Foreign calls answer
  * arbitrarily within their contracts; with reliable set they answer truthfully and succeed. */
module Ingest {
  import opened Common
  import CacheModel
  import opened FileModel
  import opened IngestModel
  import FileStorage

  /** The key-to-hash function: any function whose values are not empty. */
  type HashFunction = h: Text -> Text | forall k :: h(k) != EMPTY witness (k: Text) => Text("0")

  /** The message to be ingested, as the bot received it. */
  datatype Source = Source(media: bool, key: Text, size: int, chatID: int, msgID: int)

  /** How the foreign calls of an ingest behave: in any way at all; or they answer truthfully and
    * succeed, but for the lock, refused so many times first, the forward, which fails so many times
    * first, with a flood wait or another error, and the write of the record. */
  datatype Conduct =
    | Anything
    | Truthful(refusals: nat, failures: nat, flood: bool, written: Written)

  datatype Forwarded = Posted(id: nat, message: Message) | Nothing | Failed(flood: bool) | Interrupted

  datatype Waited = Locked(stale: Option<FileRecord>) | Settled(outcome: Outcome)

  datatype Checked = Valid(file: FileRecord) | Stale(file: FileRecord) | Absent | Broken

  /** Every record has the hash of its key, now and always. */
  ghost predicate Hashed(records: map<Text, FileRecord>, hash: HashFunction) {
    forall k :: k in records ==> records[k].hash == hash(k)
  }

  lemma HashedUpdate(records: map<Text, FileRecord>, hash: HashFunction, key: Text, f: FileRecord)
    requires Hashed(records, hash) && f.hash == hash(key)
    ensures Hashed(records[key := f], hash)
  {}

  lemma BumpedIsHashed(w: World, key: Text, hash: HashFunction)
    requires key in w.records && Hashed(w.records, hash)
    ensures Hashed(Bumped(w, key).records, hash)
  {
    HashedUpdate(w.records, hash, key, OneMoreReuse(w.records[key]));
  }

  lemma HashOf(records: map<Text, FileRecord>, hash: HashFunction, key: Text)
    requires Hashed(records, hash) && key in records
    ensures records[key].hash == hash(key)
  {}

  lemma KeyOf(c: Files, key: Text)
    requires c.Valid() && key in c.records
    ensures c.records[key].fileKey == key
  {}

  /** The record for a forwarded message; a replacement keeps the provenance of the stale record. */
  function NewRecord(msg: Source, hash: Text, id: nat, m: Message, now: int64, stale: Option<FileRecord>): FileRecord {
    var f := FileRecord(msg.key, hash, m.size, id, m.details, now, now, 0, 0, msg.chatID, msg.msgID);
    if stale.None? then f
    else
      var old' := stale.value;
      var g := f.(createdAt := old'.createdAt, seenCount := old'.seenCount + 1, reuseCount := old'.reuseCount);
      if old'.firstSourceChatID != 0
      then g.(firstSourceChatID := old'.firstSourceChatID, firstSourceMsgID := old'.firstSourceMsgID)
      else g
  }

  lemma NewRecordIsLive(msg: Source, hash: Text, id: nat, vault: map<nat, Message>, now: int64,
                        stale: Option<FileRecord>, w: World)
    requires id in vault && vault[id].media && vault[id].key == msg.key && vault[id].size > 0
    requires vault == w.vault && Healthy(w)
    ensures var f := NewRecord(msg, hash, id, vault[id], now, stale);
            Live(vault, f) && f.fileKey == msg.key && f.hash == hash && f.vaultMsgID == id < w.nextID
  {}

  lemma NewRecordDescends(msg: Source, hash: Text, id: nat, m: Message, now: int64, stale: FileRecord, f: FileRecord)
    requires Same(stale, f) && f.fileKey == msg.key
    ensures f.hash == hash ==> Descends(f, NewRecord(msg, hash, id, m, now, Some(stale)))
  {}

  /** Another key has the hash. */
  predicate HashTaken(c: Files, key: Text, h: Text) {
    h in c.hashes && c.hashes[h] != key
  }

  /** A fresh message is no record's, so only the hash can collide. */
  lemma FreshMessage(c: Files, w: World, f: FileRecord)
    requires c.Valid() && w.records == c.records && Healthy(w) && w.nextID <= f.vaultMsgID
    ensures c.Collides(f) ==> HashTaken(c, f.fileKey, f.hash)
  {
    forall m | m in c.msgs ensures m != f.vaultMsgID {
      assert c.records[c.msgs[m]].vaultMsgID == m;
    }
  }

  /** Only one record has a given hash. */
  lemma RemovalForgets(c: Files, h: Text, w: World)
    requires c.Valid() && w.records == c.records && h in c.hashes
    ensures Forgotten(w, h, w.(records := c.Remove(c.hashes[h]).records))
  {
    assert c.Remove(c.hashes[h]).records == c.records - {c.hashes[h]};
    forall k | k in c.records ensures k == c.hashes[h] <==> c.records[k].hash == h {
      assert c.hashes[c.records[k].hash] == k;
    }
  }

  lemma NothingToForget(c: Files, h: Text, w: World)
    requires c.Valid() && w.records == c.records && h !in c.hashes
    ensures Forgotten(w, h, w)
  {}

  lemma ForgottenIsHealthy(w: World, h: Text, v: World, hash: HashFunction)
    requires Healthy(w) && Hashed(w.records, hash) && Forgotten(w, h, v) && v.nextID == w.nextID
    ensures Healthy(v) && Hashed(v.records, hash)
  {}

  /** The same for the store's deletion, applied or not. */
  lemma DeletionForgets(s: Store, h: Text, now: int64, readable: bool, d: Written, w: World, hash: HashFunction)
    requires Inv(s) && w.records == s.files.records && Healthy(w) && Hashed(w.records, hash)
    ensures s.Valid() && Inv(DeleteFileByHash(s, h, now, readable, d).0)
    ensures var v := w.(records := DeleteFileByHash(s, h, now, readable, d).0.files.records);
            && (v == w || Forgotten(w, h, v))
            && Healthy(v) && Hashed(v.records, hash)
    ensures var (t, err) := DeleteFileByHash(s, h, now, readable, d);
            && (err.None? ==> Forgotten(w, h, w.(records := t.files.records)))
            && (readable && d.Acknowledged? ==> err.None?)
  {
    hide Inv, Healthy, Hashed, Forgotten, Files.Valid, Files.Remove, FileModel.DeleteFileByHash, Store.Valid;
    hide Sound, Same;
    assert Sound(s) by { InvIsSound(s); }
    InvIsValid(s);
    DeleteKeeps(s, h, now, readable, d);
    DeleteIsAllOrNothing(s, h, now, readable, d);
    DeletionReport(s, h, now, readable, d);
    if h !in s.files.hashes {
      assert s.files.Valid() by { ValidStoreFiles(s); }
      NothingToForget(s.files, h, w);
    }
    if h in s.files.hashes {
      assert s.files.Valid() by { ValidStoreFiles(s); }
      RemovalForgets(s.files, h, w);
      ForgottenIsHealthy(w, h, w.(records := s.files.Remove(s.files.hashes[h]).records), hash);
    }
  }

  lemma ValidStoreFiles(s: Store)
    requires s.Valid()
    ensures s.files.Valid()
  {}

  /** The new record describes its vault message, and names as source the one that the record it
    * replaces named, or else this message. */
  ghost predicate Sourced(w: World, msg: Source, v: World) {
    msg.key in v.records &&
    var f := v.records[msg.key];
    && f.vaultMsgID in v.vault && f.details == v.vault[f.vaultMsgID].details
    && (if msg.key in w.records && w.records[msg.key].firstSourceChatID != 0
        then f.firstSourceChatID == w.records[msg.key].firstSourceChatID
             && f.firstSourceMsgID == w.records[msg.key].firstSourceMsgID
        else f.firstSourceChatID == msg.chatID && f.firstSourceMsgID == msg.msgID)
  }

  lemma NewRecordIsSourced(u: World, w: World, msg: Source, hash: Text, id: nat, now: int64,
                           stale: Option<FileRecord>, f: FileRecord, r: Outcome, v: World)
    requires Healthy(u) && w.records == u.records && u.nextID <= id && id in w.vault
    requires stale.Some? ==> msg.key in u.records && Same(stale.value, u.records[msg.key])
    requires stale.None? ==> msg.key !in u.records
    requires f == NewRecord(msg, hash, id, w.vault[id], now, stale) && Persisted(w, f, r, v)
    ensures r.Served? && !r.reused ==> Sourced(u, msg, v)
  {
    if r.Served? && !r.reused {
      assert v.records[msg.key].vaultMsgID == id;
      assert v.records[msg.key] == f;
    }
  }

  /** What becomes of a file without a live record once the lock is held. */
  predicate Delivered(w: World, taken: bool, msg: Source, c: Conduct, r: Outcome, v: World)
    requires c.Truthful?
  {
    if c.failures > (if c.flood then 0 else 2) then r == Refused(ForwardFailed) && v == w
    else if msg.size <= 0 then r == Refused(NoSize) && v == w.(nextID := w.nextID + 1)
    else Stored(w, taken, msg.key, c.written, r, v)
  }

  /** What becomes of a forwarded message, w being the world before the forward. */
  predicate Stored(w: World, taken: bool, key: Text, written: Written, r: Outcome, v: World) {
    if taken || written.Unapplied? then
      && r == Refused(NotPersisted(if taken then DuplicateKey else DatabaseError))
      && v == w.(nextID := w.nextID + 1)
    else
      && r.Served? && !r.reused && r.file.vaultMsgID == w.nextID
      && v.nextID == w.nextID + 1 && v.leaks == w.leaks && v.vault.Keys == w.vault.Keys + {w.nextID}
  }

  /** The outcome of one ingest and all it does to the world, under every truthful conduct; taken
    * says that another key has the hash. */
  predicate Decided(w: World, taken: bool, msg: Source, c: Conduct, r: Outcome, v: World)
    requires c.Truthful?
  {
    if !msg.media then r == Refused(NoMedia) && v == w
    else if msg.key == EMPTY then r == Refused(NoKey) && v == w
    else if LiveRecord(w, msg.key) then r.Served? && r.reused && v == Bumped(w, msg.key)
    else if c.refusals > 2 then r == Refused(NotLocked) && v == w
    else Delivered(w, taken, msg, c, r, v)
  }

  function NotStored(err: Option<StoreError>): Option<Failure> {
    if err.None? then None else Some(NotPersisted(err.value))
  }

  /** A record that was not live, rewritten or not, is served exactly when the write was applied. */
  lemma RecoveredIsStored(c: Files, u: World, w: World, f: FileRecord, replace: bool, written: Written,
                          r: Outcome, v: World)
    requires c.Valid() && Healthy(u) && u.records == c.records && f.vaultMsgID == u.nextID
    requires replace <==> f.fileKey in c.records
    requires u.nextID in w.vault && w == Posts(u, w.vault[u.nextID]) && Live(w.vault, f)
    requires !LiveRecord(u, f.fileKey) && Persisted(w, f, r, v)
    requires v.records == if WriteApplies(c, f, replace, written) then c.records[f.fileKey := f] else c.records
    requires Recovered(w.(records := v.records), f, r, v)
    requires r.Refused? ==> Some(r.error) == NotStored(WriteError(c, f, replace, written))
    ensures Stored(u, HashTaken(c, f.fileKey, f.hash), f.fileKey, written, r, v)
  {
    FreshMessage(c, u, f);
    PostTakenBack(u, w.vault[u.nextID]);
    PostRevivesNothing(u, w.vault[u.nextID], f.fileKey);
  }

  /** One file, one vault message: once an ingest of a key has succeeded, and as long as no message is
    * lost, the record is not deleted and no ingest of the key fails, the next truthful one reuses the
    * record and posts nothing, whatever the lock, the forward and the write would have done. */
  lemma LaterIngestReuses(ws: seq<World>, es: seq<Event>, i: nat, j: nat, taken: bool, msg: Source, c: Conduct,
                          r: Outcome, v: World)
    requires IsRun(ws, es) && i < j < |ws| && msg.media && msg.key != EMPTY && c.Truthful?
    requires es[i].Ingest? && es[i].key == msg.key && es[i].outcome.Served?
    requires forall n :: i < n < j ==> !es[n].VaultLoss? && !Forgets(es[n], ws[n], msg.key)
    requires forall n :: i < n < j && es[n].Ingest? && es[n].key == msg.key ==> es[n].outcome.Served?
    requires Ingested(ws[j], msg.key, r, v) && Decided(ws[j], taken, msg, c, r, v)
    ensures msg.key in ws[j].records
    ensures r.Served? && r.reused && r.file.vaultMsgID == ws[j].records[msg.key].vaultMsgID
    ensures v.vault == ws[j].vault && v.nextID == ws[j].nextID && v.leaks == ws[j].leaks
  {
    hide IngestModel.Step, Live, IsRun, Delivered;
    SuccessLasts(ws, es, i, j, msg.key);
  }

  class Ingester {
    const store: FileStorage.FileStore
    const hash: HashFunction
    var vault: map<nat, Message>
    var nextID: nat

    ghost var leaks: set<nat>

    ghost function View(): World
      reads this, store
    {
      World(store.files.records, vault, nextID, leaks)
    }

    ghost predicate Valid()
      reads this, store, store.fileByHash, store.fileByKey
    {
      store.Valid() && Inv(store.View()) && Healthy(View()) && Hashed(store.files.records, hash)
    }

    lemma FilesAreValid()
      requires Valid()
      ensures store.files.Valid()
    {}

    constructor (hash: HashFunction)
      ensures Valid() && fresh(store) && fresh(store.fileByHash) && fresh(store.fileByKey)
      ensures this.hash == hash && View() == World(map[], map[], 1, {})
    {
      store := new FileStorage.FileStore();
      this.hash, vault, nextID, leaks := hash, map[], 1, {};
    }

    // ------------------------------------------------------------ foreign calls

    /** Telegram may report a live message as missing, but never invents one. */
    method GetMessages(id: nat, reliable: bool) returns (r: Result<Option<Message>, Failure>)
      ensures r.Ok? && r.value.Some? ==> id in vault && r.value.value == vault[id]
      ensures reliable ==> r == Ok(if id in vault then Some(vault[id]) else None)
    {
      var answered: bool, found: bool := *, *;
      if !reliable && !answered {
        return Err(Unavailable);
      }
      return Ok(if id in vault && (reliable || found) then Some(vault[id]) else None);
    }

    /** A forward posts one message with a fresh id, or posts nothing; when the caller gives up
      * waiting, or gets an error or an empty answer, it may have posted all the same. The posted
      * message can be anything. */
    method Forward(msg: Source, reliable: bool, planned: Option<Forwarded>) returns (r: Forwarded)
      requires Valid()
      requires planned.Some? ==> !planned.value.Posted?
      modifies this`vault, this`nextID, this`leaks
      ensures Valid() && VaultGrows(old(View()), View())
      ensures Accounted(old(View()), View(), if r.Posted? then r.id else 0)
      ensures r.Posted? ==> r.id == old(nextID) && View() == Posts(old(View()), r.message)
      ensures reliable && planned.None? ==>
                r.Posted? && r.message.media && r.message.key == msg.key && r.message.size == msg.size
      ensures reliable && planned.Some? ==> r == planned.value && View() == old(View())
    {
      hide Inv, Healthy, Hashed, VaultGrows, Accounted, Posts, FileStorage.FileStore.Valid;
      var posts: bool, answered: bool, waited: bool, flood: bool, fails: bool := *, *, *, *, *;
      var lost := if !waited then Interrupted else if fails then Failed(flood) else Nothing;
      if reliable && planned.Some? {
        NothingHappened(View(), 0);
        return planned.value;
      }
      if !posts && !reliable {
        NothingHappened(View(), 0);
        return lost;
      }
      var message: Message := *;
      if reliable {
        message := message.(media := true, key := msg.key, size := msg.size);
      }
      var id := Post(message);
      if answered || reliable {
        PostKeeps(old(View()), message);
        return Posted(id, message);
      }
      LatePostKeeps(old(View()), message);
      leaks := leaks + {id};
      return lost;
    }

    method Post(message: Message) returns (id: nat)
      requires Valid()
      modifies this`vault, this`nextID
      ensures Valid() && View() == Posts(old(View()), message)
      ensures id == old(nextID) && id in vault && vault[id] == message
    {
      hide Inv, Healthy, Hashed, FileStorage.FileStore.Valid;
      PostKeeps(View(), message);
      id := nextID;
      vault, nextID := vault[id := message], id + 1;
    }

    /** A deletion that fails leaks the message. */
    method DeleteMessages(id: nat, reliable: bool)
      requires Valid()
      modifies this`vault, this`leaks
      ensures Valid() && Deleted(old(View()), id, View())
      ensures reliable ==> View() == old(View()).(vault := old(vault) - {id})
    {
      hide Inv, Hashed, FileStorage.FileStore.Valid;
      var done: bool := *;
      if done || reliable {
        vault := vault - {id};
      } else {
        leaks := leaks + {id};
      }
    }

    method AcquireIngestLock(reliable: bool, granted: bool) returns (r: Result<bool, Failure>)
      ensures reliable ==> r == Ok(granted)
    {
      var failed: bool, locked: bool := *, *;
      return if reliable then Ok(granted) else if failed then Err(Unavailable) else Ok(locked);
    }

    // ------------------------------------------------------------ the steps of Ingest

    /** validateCanonicalRecord */
    method ValidateCanonicalRecord(f: FileRecord, reliable: bool) returns (r: Result<bool, Failure>)
      ensures r == Ok(true) ==> Live(vault, f)
      ensures reliable ==> r == Ok(Live(vault, f))
    {
      if f.vaultMsgID == 0 {
        return Ok(false);
      }
      var got := GetMessages(f.vaultMsgID, reliable);
      if got.Err? {
        return Err(got.error);
      }
      if got.value.None? {
        return Ok(false);
      }
      var msg := got.value.value;
      if !msg.media || msg.key != f.fileKey {
        return Ok(false);
      }
      if msg.size <= 0 || msg.size != f.size {
        return Ok(false);
      }
      return Ok(true);
    }

    method FindFileByKey(key: Text, reliable: bool) returns (r: Lookup)
      requires Valid()
      modifies store.fileByKey
      ensures Valid() && View() == old(View()) && store.files == old(store.files)
      ensures r.Ok? && r.value.None? ==> key !in store.files.records
      ensures r.Ok? && r.value.Some? ==> key in store.files.records && Same(r.value.value, store.files.records[key])
      ensures reliable ==> r.Ok?
    {
      hide Inv, Same, Healthy, Hashed, SetCache, GetCache, CacheModel.State.Valid;
      var now: int64, readable: bool := *, *;
      readable := readable || reliable;
      FindByKeyAgrees(store.View(), key, now, readable);
      r := store.FindFileByKey(key, now, readable);
    }

    method IncrementReuseCount(key: Text, reliable: bool) returns (applied: bool)
      requires Valid() && key in store.files.records
      modifies store
      ensures Valid() && View() == if applied then Bumped(old(View()), key) else old(View())
      ensures reliable ==> applied
    {
      hide Inv, Healthy, Hashed, OneMoreReuse, FileStorage.FileStore.Valid;
      var w: Written := *;
      if reliable {
        w := Acknowledged;
      }
      ghost var before := View();
      BumpedIsHealthy(before, key);
      FileModel.CountKeeps(store.View(), key, 0, 0);
      BumpedIsHashed(before, key, hash);
      store.IncrementReuseCount(key, w);
      applied := !w.Unapplied?;
      assert View() == if applied then Bumped(before, key) else before;
    }

    /** The record found valid is served; the counter is best effort. */
    method CountHit(key: Text, existing: FileRecord, reliable: bool)
      requires Valid() && key in store.files.records
      requires Same(existing, store.files.records[key]) && Live(vault, existing)
      modifies store
      ensures Valid() && Ingested(old(View()), key, Served(existing, true), View())
      ensures reliable ==> View() == Bumped(old(View()), key)
    {
      hide Inv, Healthy, Hashed, Ingested, Same, Live, Bumped, FileStorage.FileStore.Valid;
      ghost var w := View();
      var _ := IncrementReuseCount(key, reliable);
      HitIsIngested(w, key, existing, View());
    }

    /** The check made up to four times: find the record, validate it, and count a hit. */
    method CheckExisting(key: Text, reliable: bool) returns (c: Checked)
      requires Valid()
      modifies store, store.fileByKey
      ensures Valid()
      ensures c.Valid? ==> Ingested(old(View()), key, Served(c.file, true), View())
      ensures !c.Valid? ==> View() == old(View()) && store.files == old(store.files)
      ensures c.Stale? ==> key in store.files.records && Same(c.file, store.files.records[key])
      ensures c.Absent? ==> key !in store.files.records
      ensures reliable ==> !c.Broken?
      ensures reliable ==> (c.Valid? <==> LiveRecord(old(View()), key))
      ensures reliable && c.Valid? ==> View() == Bumped(old(View()), key)
    {
      hide Inv, Healthy, Hashed, Ingested, Same, Live, LiveRecord, Bumped;
      hide FileStorage.FileStore.Valid, FileStorage.FileStore.View;
      ghost var w := View();
      LiveRecordIs(w, key);
      var found := FindFileByKey(key, reliable);
      if found.Err? {
        return Broken;
      }
      if found.value.None? {
        return Absent;
      }
      var existing := found.value.value;
      SameIsLive(vault, existing, w.records[key]);
      var valid := ValidateCanonicalRecord(existing, reliable);
      if valid.Err? {
        return Broken;
      }
      if !valid.value {
        return Stale(existing);
      }
      CountHit(key, existing, reliable);
      return Checked.Valid(existing);
    }

    /** The forward loop: up to three attempts, and only media with the right key is accepted. */
    method ForwardToVault(msg: Source, c: Conduct) returns (r: Result<nat, Failure>)
      requires Valid()
      modifies this`vault, this`nextID, this`leaks
      ensures Valid() && VaultGrows(old(View()), View())
      ensures Accounted(old(View()), View(), if r.Ok? then r.value else 0)
      ensures r.Ok? ==> old(nextID) <= r.value && r.value in vault
      ensures r.Ok? ==> vault[r.value].media && vault[r.value].key == msg.key
      ensures c.Truthful? ==> (r.Ok? <==> c.failures <= if c.flood then 0 else 2)
      ensures c.Truthful? && r.Ok? ==>
                && r.value == old(nextID) && vault[r.value].size == msg.size
                && View() == Posts(old(View()), vault[r.value])
      ensures c.Truthful? && r.Err? ==> r.error == ForwardFailed && View() == old(View())
    {
      hide Inv, Healthy, Hashed, VaultGrows, Accounted, FileStorage.FileStore.Valid;
      NothingHappened(View(), 0);
      for attempt := 0 to 3
        invariant Valid() && VaultGrows(old(View()), View()) && Accounted(old(View()), View(), 0)
        invariant c.Truthful? ==> View() == old(View()) && attempt <= c.failures && (c.flood ==> attempt == 0)
      {
        var cancelled: bool := *;
        if attempt > 0 && cancelled && !c.Truthful? {
          return Err(Cancelled);
        }
        ghost var before := View();
        var planned := if c.Truthful? && attempt < c.failures then Some(Failed(c.flood)) else None;
        var fwd := Forward(msg, c.Truthful?, planned);
        ThenKeeps(old(View()), before, View(), if fwd.Posted? then fwd.id else 0);
        match fwd
        case Posted(id, candidate) =>
          GrowsUpTo(old(View()), before);
          if candidate.media && candidate.key == msg.key {
            return Ok(id);
          }
          ghost var posted := View();
          DeleteMessages(id, c.Truthful?);
          TakenBack(old(View()), posted, id, View());
          return Err(ForwardFailed);
        case Interrupted =>
          return Err(Cancelled);
        case Failed(flood) =>
          if flood {
            return Err(ForwardFailed);
          }
        case Nothing =>
      }
      return Err(ForwardFailed);
    }

    method WriteRecord(f: FileRecord, replace: bool, c: Conduct) returns (err: Option<StoreError>)
      requires Valid()
      requires f.fileKey != EMPTY && f.hash == hash(f.fileKey) && f.vaultMsgID < nextID
      modifies store, store.fileByKey, store.fileByHash
      ensures Valid()
      ensures || store.files.records == old(store.files.records)
              || store.files.records == old(store.files.records)[f.fileKey := f]
      ensures err.None? ==> store.files.records == old(store.files.records)[f.fileKey := f]
      ensures c.Truthful? ==>
                && err == WriteError(old(store.files), f, replace, c.written)
                && store.files.records ==
                   if WriteApplies(old(store.files), f, replace, c.written)
                   then old(store.files.records)[f.fileKey := f] else old(store.files.records)
    {
      hide Inv, Healthy, Hashed, Files.Collides, FileModel.InsertFile, FileModel.ReplaceFile, Files.Put;
      hide FileStorage.FileStore.Valid, Store.Valid, WriteError, WriteApplies;
      var now: int64, readable: bool, w: Written := *, *, *;
      if c.Truthful? {
        readable, w := true, c.written;
      }
      WriteOutcome(store.View(), f, now, w);
      WriteIsAllOrNothing(store.View(), f, now, readable, w);
      ReplaceKeeps(store.View(), f, now, readable, w);
      InsertKeeps(store.View(), f, now, w);
      PutRecords(store.files, f);
      HashedUpdate(store.files.records, hash, f.fileKey, f);
      RecordIsHealthy(View(), f);
      if replace {
        err := store.ReplaceFile(f, now, readable, w);
      } else {
        err := store.InsertFile(f, now, w);
      }
    }

    /** Writing the record; on an error the database is read again before the message is deleted,
      * for the write may have been applied all the same. */
    method Persist(f: FileRecord, replace: bool, c: Conduct) returns (r: Outcome)
      requires Valid()
      requires f.fileKey != EMPTY && f.hash == hash(f.fileKey) && f.vaultMsgID < nextID
      requires Live(vault, f)
      modifies this`vault, this`leaks, store, store.fileByKey, store.fileByHash
      ensures Valid() && Persisted(old(View()), f, r, View())
      ensures c.Truthful? ==> Recovered(old(View()).(records := store.files.records), f, r, View())
      ensures c.Truthful? && r.Refused? ==>
                Some(r.error) == NotStored(WriteError(old(store.files), f, replace, c.written))
      ensures c.Truthful? ==>
                store.files.records == if WriteApplies(old(store.files), f, replace, c.written)
                                       then old(store.files.records)[f.fileKey := f] else old(store.files.records)
    {
      hide Inv, Healthy, Hashed, Files.Collides, Same, Live, Deleted, Persisted, FileStorage.FileStore.Valid;
      hide WriteError, WriteApplies;
      var err := WriteRecord(f, replace, c);
      ghost var mid := View();
      if err.None? {
        SelfSame(f);
        r := Served(f, false);
        WrittenThenSettled(old(View()), f, mid, r, View());
        return;
      }
      r := Recover(f, err.value, c.Truthful?, old(View()));
    }

    /** After a write that reported an error: before is the world as it was before the write, which
      * may have been applied or not. */
    method Recover(f: FileRecord, err: StoreError, reliable: bool, ghost before: World) returns (r: Outcome)
      requires Valid()
      requires MaybeWritten(before, f, View())
      modifies this`vault, this`leaks, store.fileByKey
      ensures Valid() && Persisted(before, f, r, View()) && store.files.records == old(store.files.records)
      ensures r.Refused? ==> r.error == NotPersisted(err)
      ensures reliable ==> Recovered(old(View()), f, r, View())
    {
      hide Inv, Healthy, Hashed, Same, Live, LiveRecord, Deleted, Persisted, Recovered, MaybeWritten;
      hide FileStorage.FileStore.Valid;
      ghost var mid := View();
      var existing := FindFileByKey(f.fileKey, reliable);
      if existing.Ok? && existing.value.Some? {
        var e := existing.value.value;
        SameIsLive(vault, e, mid.records[f.fileKey]);
        var valid := ValidateCanonicalRecord(e, reliable);
        assert View() == mid;
        if valid == Ok(true) {
          r := Served(e, e.vaultMsgID != f.vaultMsgID);
          if r.reused {
            DeleteMessages(f.vaultMsgID, reliable);
            OtherStaysLive(mid, mid.records[f.fileKey], f.vaultMsgID, View());
          }
          WrittenThenSettled(before, f, mid, r, View());
          LiveIsRecovered(mid, f, r, View());
          return;
        }
      }
      DeleteMessages(f.vaultMsgID, reliable);
      r := Refused(NotPersisted(err));
      WrittenThenSettled(before, f, mid, r, View());
      DeadIsRecovered(mid, f, r, View());
    }

    /** Up to two more attempts at the lock, two seconds apart, each after another look at the
      * record; the record last seen stale is what will be replaced. */
    method AwaitLock(key: Text, stale: Option<FileRecord>, c: Conduct) returns (r: Waited)
      requires Valid()
      requires stale.Some? ==> key in store.files.records && Same(stale.value, store.files.records[key])
      requires stale.None? ==> key !in store.files.records
      modifies store, store.fileByKey
      ensures Valid()
      ensures r.Settled? ==> Ingested(old(View()), key, r.outcome, View())
      ensures r.Settled? && r.outcome.Served? ==> r.outcome.reused
      ensures r.Locked? ==> View() == old(View()) && store.files == old(store.files)
      ensures r.Locked? && r.stale.Some? ==> key in store.files.records && Same(r.stale.value, store.files.records[key])
      ensures r.Locked? && r.stale.None? ==> key !in store.files.records
      ensures r.Settled? && r.outcome.Refused? ==> View() == old(View())
      ensures c.Truthful? && LiveRecord(old(View()), key) ==>
                if c.refusals == 0 then r.Locked? else r.Settled? && r.outcome.Served?
      ensures c.Truthful? && !LiveRecord(old(View()), key) ==>
                if c.refusals <= 2 then r.Locked? else r == Settled(Refused(NotLocked))
    {
      hide Inv, Healthy, Hashed, Same, Live, Ingested, LiveRecord, Bumped, FileStorage.FileStore.Valid;
      FailureIsIngested(View(), key);
      var latest := stale;
      var locked := AcquireIngestLock(c.Truthful?, c.Truthful? && c.refusals == 0);
      if locked.Err? {
        return Settled(Refused(Unavailable));
      }
      if locked.value {
        return Locked(latest);
      }
      for attempt := 0 to 2
        invariant Valid() && View() == old(View()) && store.files == old(store.files)
        invariant c.Truthful? ==> attempt < c.refusals && (attempt > 0 ==> !LiveRecord(View(), key))
        invariant latest.Some? ==> key in store.files.records && Same(latest.value, store.files.records[key])
        invariant latest.None? ==> key !in store.files.records
      {
        var cancelled: bool := *;
        if cancelled && !c.Truthful? {
          return Settled(Refused(Cancelled));
        }
        var checked := CheckExisting(key, c.Truthful?);
        match checked {
          case Broken => return Settled(Refused(Unavailable));
          case Valid(f) => return Settled(Served(f, true));
          case Stale(f) => latest := Some(f);
          case Absent =>
        }
        locked := AcquireIngestLock(c.Truthful?, c.Truthful? && c.refusals <= attempt + 1);
        if locked.Err? {
          return Settled(Refused(Unavailable));
        }
        if locked.value {
          return Locked(latest);
        }
      }
      return Settled(Refused(NotLocked));
    }

    /** Build the record for a forwarded message and persist it; u is the world before the forward. */
    method PersistForwarded(msg: Source, id: nat, stale: Option<FileRecord>, c: Conduct, ghost u: World)
      returns (r: Outcome)
      requires Valid() && msg.key != EMPTY
      requires Healthy(u) && u.records == store.files.records && u.nextID <= id
      requires VaultGrows(u, View()) && Accounted(u, View(), id)
      requires id in vault && vault[id].media && vault[id].key == msg.key && vault[id].size > 0
      requires stale.Some? ==> msg.key in store.files.records && Same(stale.value, store.files.records[msg.key])
      requires stale.None? ==> msg.key !in store.files.records
      modifies this`vault, this`leaks, store, store.fileByKey, store.fileByHash
      ensures Valid() && Ingested(u, msg.key, r, View())
      ensures r.Served? && !r.reused ==> Sourced(u, msg, View())
      ensures c.Truthful? && !LiveRecord(u, msg.key) && id == u.nextID && old(View()) == Posts(u, old(vault)[id]) ==>
                Stored(u, HashTaken(old(store.files), msg.key, hash(msg.key)), msg.key, c.written, r, View())
    {
      hide Inv, Healthy, Hashed, Same, Live, Descends, VaultGrows, Accounted, Ingested, Deleted, Persisted, Sourced;
      hide FileStorage.FileStore.Valid, Files.Collides, Files.Valid, NewRecord, HashTaken;
      hide LiveRecord, Stored, Recovered, Posts, WriteApplies, WriteError;
      FilesAreValid();
      ghost var mid := View();
      var now: int64 := *;
      var f := NewRecord(msg, hash(msg.key), id, vault[id], now, stale);
      NewRecordIsLive(msg, hash(msg.key), id, vault, now, stale, mid);
      if stale.Some? {
        KeyOf(store.files, msg.key);
        NewRecordDescends(msg, hash(msg.key), id, vault[id], now, stale.value, store.files.records[msg.key]);
        HashOf(store.files.records, hash, msg.key);
      }
      FreshMessage(store.files, u, f);
      ghost var files := store.files;
      r := Persist(f, stale.Some?, c);
      if c.Truthful? && !LiveRecord(u, msg.key) && id == u.nextID && mid == Posts(u, mid.vault[id]) {
        RecoveredIsStored(files, u, mid, f, stale.Some?, c.written, r, View());
      }
      PersistedIsIngested(u, mid, f, r, View());
      NewRecordIsSourced(u, mid, msg, hash(msg.key), id, now, stale, f, r, View());
    }

    /** Forward, check the size, build the record and persist it. */
    method ForwardAndPersist(msg: Source, stale: Option<FileRecord>, c: Conduct) returns (r: Outcome)
      requires Valid() && msg.key != EMPTY
      requires stale.Some? ==> msg.key in store.files.records && Same(stale.value, store.files.records[msg.key])
      requires stale.None? ==> msg.key !in store.files.records
      modifies this`vault, this`nextID, this`leaks, store, store.fileByKey, store.fileByHash
      ensures Valid() && Ingested(old(View()), msg.key, r, View())
      ensures r.Served? && !r.reused ==> Sourced(old(View()), msg, View())
      ensures c.Truthful? && !LiveRecord(old(View()), msg.key) ==>
                Delivered(old(View()), HashTaken(old(store.files), msg.key, hash(msg.key)), msg, c, r, View())
    {
      hide Inv, Healthy, Hashed, Same, Live, Descends, VaultGrows, Accounted, Ingested, Deleted, Persisted, Sourced;
      hide FileStorage.FileStore.Valid, HashTaken, LiveRecord, Stored, Posts;
      var fwd := ForwardToVault(msg, c);
      ghost var mid := View();
      if fwd.Err? {
        r := Refused(fwd.error);
        TakenBackIsIngested(old(View()), msg.key, View(), r);
        return;
      }
      var id := fwd.value;
      if vault[id].size <= 0 {
        DeleteMessages(id, c.Truthful?);
        TakenBack(old(View()), mid, id, View());
        if c.Truthful? {
          PostTakenBack(old(View()), mid.vault[id]);
        }
        r := Refused(NoSize);
        TakenBackIsIngested(old(View()), msg.key, View(), r);
        return;
      }
      r := PersistForwarded(msg, id, stale, c, old(View()));
    }

    method Ingest(msg: Source, c: Conduct) returns (r: Outcome)
      requires Valid()
      modifies this`vault, this`nextID, this`leaks, store, store.fileByKey, store.fileByHash
      ensures Valid() && Ingested(old(View()), msg.key, r, View())
      ensures r.Served? && !r.reused ==> Sourced(old(View()), msg, View())
      ensures c.Truthful? ==>
                Decided(old(View()), HashTaken(old(store.files), msg.key, hash(msg.key)), msg, c, r, View())
    {
      hide Inv, Healthy, Hashed, Same, Live, Ingested, Sourced, LiveRecord, Bumped, Delivered, HashTaken;
      hide FileStorage.FileStore.Valid;
      FailureIsIngested(View(), msg.key);
      if !msg.media {
        return Refused(NoMedia);
      }
      if msg.key == EMPTY {
        return Refused(NoKey);
      }
      var stale: Option<FileRecord> := None;
      var checked := CheckExisting(msg.key, c.Truthful?);
      match checked {
        case Broken => return Refused(Unavailable);
        case Valid(f) => return Served(f, true);
        case Stale(f) => stale := Some(f);
        case Absent =>
      }
      var waited := AwaitLock(msg.key, stale, c);
      if waited.Settled? {
        return waited.outcome;
      }
      stale := waited.stale;
      checked := CheckExisting(msg.key, c.Truthful?);
      match checked {
        case Broken => return Refused(Unavailable);
        case Valid(f) => return Served(f, true);
        case Stale(f) => stale := Some(f);
        case Absent =>
      }
      var resolved: bool := *;
      if !resolved && !c.Truthful? {
        return Refused(Unavailable);
      }
      r := ForwardAndPersist(msg, stale, c);
    }

    /** What the stream handler does when it finds that a record's message is gone. Success means that
      * no record has the hash any more; an error, that there may still be one. */
    method DeleteStaleRecord(h: Text, reliable: bool) returns (err: Option<StoreError>)
      requires Valid()
      modifies store, store.fileByKey, store.fileByHash
      ensures Valid() && (View() == old(View()) || Forgotten(old(View()), h, View()))
      ensures err.None? ==> Forgotten(old(View()), h, View())
      ensures reliable ==> err.None?
    {
      hide Inv, Healthy, Hashed, Forgotten, FileModel.DeleteFileByHash, FileStorage.FileStore.Valid, Store.Valid;
      var now: int64, readable: bool, w: Written := *, *, *;
      if reliable {
        readable, w := true, Acknowledged;
      }
      DeletionForgets(store.View(), h, now, readable, w, View(), hash);
      err := store.DeleteFileByHash(h, now, readable, w);
    }
  }
}
