/** The store's file operations in the order the program performs them (internal/store/store.go):
  * a collection and two caches updated in place, proved against the functions of FileModel. */
module FileStorage {
  import opened Common
  import opened FileModel
  import CacheModel
  import opened LazyCache

  class FileStore {
    var files: Files
    const fileByHash: Cache<Text, FileRecord>
    const fileByKey: Cache<Text, FileRecord>

    ghost predicate Valid()
      reads this, fileByHash, fileByKey
    {
      && fileByHash != fileByKey
      && fileByHash.maxSize == fileByKey.maxSize == CACHE_SIZE && fileByHash.ttl == fileByKey.ttl == CACHE_TTL
      && fileByHash.Valid() && fileByKey.Valid() && files.Valid()
    }

    ghost function View(): Store
      reads this, fileByHash, fileByKey
    {
      Store(files, fileByHash.View(), fileByKey.View())
    }

    constructor ()
      ensures Valid() && Inv(View()) && files == Files(map[], map[], map[])
      ensures fresh(fileByHash) && fresh(fileByKey)
    {
      files := Files(map[], map[], map[]);
      var h := new Cache<Text, FileRecord>(CACHE_SIZE, CACHE_TTL);
      var k := new Cache<Text, FileRecord>(CACHE_SIZE, CACHE_TTL);
      fileByHash, fileByKey := h, k;
    }

    method InsertFile(f: FileRecord, now: int64, w: Written) returns (err: Option<StoreError>)
      requires Valid()
      modifies this, fileByHash, fileByKey
      ensures Valid() && (View(), err) == FileModel.InsertFile(old(View()), f, now, w)
    {
      hide CacheModel.Get, CacheModel.Set, CacheModel.Remove, CacheModel.Invalidate;
      if f.fileKey in files.records || files.Collides(f) {
        return Some(DuplicateKey);
      }
      if w.Unapplied? {
        return Some(DatabaseError);
      }
      PutValid(files, f);
      files := files.Put(f);
      if w.Unacknowledged? {
        return Some(DatabaseError);
      }
      fileByHash.Set(f.hash, f, now);
      fileByKey.Set(f.fileKey, f, now);
      return None;
    }

    method FindFileByKey(key: Text, now: int64, readable: bool) returns (r: Lookup)
      requires Valid()
      modifies fileByKey
      ensures Valid() && (View(), r) == FileModel.FindFileByKey(old(View()), key, now, readable)
    {
      hide CacheModel.Get, CacheModel.Set, CacheModel.Remove, CacheModel.Invalidate;
      var hit := fileByKey.Get(key, now, now);
      if hit.Some? {
        return Ok(hit);
      }
      if !readable {
        return Err(DatabaseError);
      }
      if key !in files.records {
        return Ok(None);
      }
      fileByKey.Set(key, files.records[key], now);
      return Ok(Some(files.records[key]));
    }

    method FindFileByHash(hash: Text, now: int64, readable: bool) returns (r: Lookup)
      requires Valid()
      modifies fileByHash
      ensures Valid() && (View(), r) == FileModel.FindFileByHash(old(View()), hash, now, readable)
    {
      hide CacheModel.Get, CacheModel.Set, CacheModel.Remove, CacheModel.Invalidate;
      var hit := fileByHash.Get(hash, now, now);
      if hit.Some? {
        return Ok(hit);
      }
      if !readable {
        return Err(DatabaseError);
      }
      var found := files.FindByHash(hash);
      if found.Some? {
        fileByHash.Set(hash, found.value, now);
      }
      return Ok(found);
    }

    method Evict(key: Text, oldHash: Text, hash: Text)
      requires Valid()
      modifies fileByHash, fileByKey
      ensures Valid() && View() == FileModel.Evict(old(View()), key, oldHash, hash)
    {
      hide CacheModel.Get, CacheModel.Set, CacheModel.Remove, CacheModel.Invalidate;
      fileByKey.Invalidate(key);
      if oldHash != EMPTY {
        fileByHash.Invalidate(oldHash);
      }
      fileByHash.Invalidate(hash);
    }

    method ReplaceFile(f: FileRecord, now: int64, readable: bool, w: Written) returns (err: Option<StoreError>)
      requires Valid()
      modifies this, fileByHash, fileByKey
      ensures Valid() && (View(), err) == FileModel.ReplaceFile(old(View()), f, now, readable, w)
    {
      hide CacheModel.Get, CacheModel.Set, CacheModel.Remove, CacheModel.Invalidate, Files.Put, Files.Collides;
      var oldHash := EMPTY;
      var cached := fileByKey.Get(f.fileKey, now, now);
      if cached.Some? {
        oldHash := cached.value.hash;
      }
      if oldHash == EMPTY {
        if !readable {
          return Some(DatabaseError);
        }
        if f.fileKey in files.records {
          oldHash := files.records[f.fileKey].hash;
        }
      }
      Evict(f.fileKey, oldHash, f.hash);
      if files.Collides(f) {
        return Some(DuplicateKey);
      }
      if w.Unapplied? {
        return Some(DatabaseError);
      }
      PutValid(files, f);
      files := files.Put(f);
      if w.Unacknowledged? {
        return Some(DatabaseError);
      }
      Evict(f.fileKey, oldHash, f.hash);
      fileByHash.Set(f.hash, f, now);
      fileByKey.Set(f.fileKey, f, now);
      return None;
    }

    method DeleteFileByHash(hash: Text, now: int64, readable: bool, w: Written) returns (err: Option<StoreError>)
      requires Valid()
      modifies this, fileByHash, fileByKey
      ensures Valid() && (View(), err) == FileModel.DeleteFileByHash(old(View()), hash, now, readable, w)
    {
      hide CacheModel.Get, CacheModel.Set;
      var fileKey := EMPTY;
      var cached := fileByHash.Get(hash, now, now);
      if cached.Some? {
        fileKey := cached.value.fileKey;
      }
      fileByHash.Invalidate(hash);
      if fileKey == EMPTY {
        if !readable {
          return Some(DatabaseError);
        }
        var found := files.FindByHash(hash);
        if found.None? {
          fileByHash.Invalidate(hash);
          return None;
        }
        fileKey := found.value.fileKey;
      }
      if fileKey != EMPTY {
        fileByKey.Invalidate(fileKey);
      }
      if w.Unapplied? {
        return Some(DatabaseError);
      }
      if hash in files.hashes {
        RemoveValid(files, files.hashes[hash]);
        files := files.Remove(files.hashes[hash]);
      }
      if w.Unacknowledged? {
        return Some(DatabaseError);
      }
      fileByHash.Invalidate(hash);
      if fileKey != EMPTY {
        fileByKey.Invalidate(fileKey);
      }
      return None;
    }

    method IncrementReuseCount(key: Text, w: Written)
      requires Valid()
      modifies this
      ensures Valid() && View() == if w.Unapplied? then old(View()) else CountReuse(old(View()), key)
    {
      if !w.Unapplied? && key in files.records {
        files := files.(records := files.records[key := OneMoreReuse(files.records[key])]);
      }
    }
  }
}
