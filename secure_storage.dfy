/**
 * `SecureStorageManager`: the object that owns the index and the storage
 * directory and updates both in place. Each method is proved against the
 * corresponding function of module StorageModel, whose lemmas state what the
 * operations promise.
 */
module SecureStorage {
  import opened Text
  import opened Lex
  import opened StorageModel
  import Clock

  class SecureStorageManager {
    /** Fernet, SHA-256 and the JSON layer, fixed at construction. */
    const codec: Codec
    /** `file_index`: its entries, and its keys in insertion order. */
    var fileIndex: map<string, IndexEntry>
    var order: seq<string>
    /** The contents of the `secure_storage` directory, `index.enc` included. */
    var dir: map<string, DirEntry>

    function State(): Storage
      reads this
    {
      Storage(fileIndex, order, dir)
    }

    ghost predicate Valid()
      reads this
    {
      Sound(codec) && WellFormed(State())
    }

    /** `__init__` followed by `_load_index`, given what the storage
        directory already holds. */
    constructor (codec: Codec, existing: map<string, DirEntry>)
      requires Sound(codec)
      ensures Valid()
      ensures this.codec == codec && dir == existing
      ensures (order, fileIndex) == LoadIndex(codec, existing)
    {
      this.codec := codec;
      dir := existing;
      var loaded: (seq<string>, map<string, IndexEntry>) := ([], map[]);
      if IndexFileName in existing && existing[IndexFileName].RegularFile? {
        var plain := codec.decrypt(existing[IndexFileName].content);
        if plain.Some? {
          var items := codec.decodeIndex(plain.value);
          if items.Some? {
            loaded := FromItems(items.value);
          }
        }
      }
      order, fileIndex := loaded.0, loaded.1;
    }

    /** `_save_index`: rewrite `index.enc`; false where the write fails. */
    method SaveIndex() returns (saved: bool)
      requires Valid()
      modifies this`dir
      ensures Valid()
      ensures saved == PersistIndex(codec, old(State())).Some?
      ensures dir == if saved then PersistIndex(codec, old(State())).value else old(dir)
    {
      if IndexFileName in dir && dir[IndexFileName].Subdirectory? {
        return false;
      }
      var blob := codec.encrypt(codec.encodeIndex(Items(order, fileIndex)));
      dir := dir[IndexFileName := RegularFile(blob)];
      return true;
    }

    /** `store_file(virtual_path, data)`, with `now` for `datetime.now()`;
        the index records its `isoformat()`. */
    method StoreFile(virtualPath: string, data: Payload, now: Clock.DateTime) returns (r: Result<bool>)
      requires Valid() && Clock.Valid(now)
      modifies this
      ensures Valid()
      ensures Step(State(), r) == StoreStep(codec, old(State()), virtualPath, data, Clock.IsoFormat(now))
    {
      r := StoreWithTime(virtualPath, data, Clock.IsoFormat(now));
    }

    /** The body of `store_file` once the creation time is rendered. */
    method StoreWithTime(virtualPath: string, data: Payload, createdTime: string) returns (r: Result<bool>)
      requires Valid()
      modifies this
      ensures Valid()
      ensures Step(State(), r) == StoreStep(codec, old(State()), virtualPath, data, createdTime)
    {
      var secureFilename := SecureFilename(codec, virtualPath);
      var plain := Serialize(data);
      if plain.None? {
        return Err(StoreFailed(UnsupportedData));
      }
      var encrypted := codec.encrypt(plain.value);
      if secureFilename in dir && dir[secureFilename].Subdirectory? {
        return Err(StoreFailed(IsADirectory(secureFilename)));
      }
      dir := dir[secureFilename := RegularFile(encrypted)];
      if virtualPath !in fileIndex {
        order := order + [virtualPath];
      }
      fileIndex := fileIndex[virtualPath := IndexEntry(secureFilename, createdTime, |encrypted|)];
      var saved := SaveIndex();
      if !saved {
        return Err(StoreFailed(IndexWriteFailed));
      }
      return Ok(true);
    }

    /** `load_file(virtual_path)`. */
    method LoadFile(virtualPath: string) returns (r: Result<Option<seq<byte>>>)
      requires Valid()
      modifies this
      ensures Valid()
      ensures Step(State(), r) == LoadStep(codec, old(State()), virtualPath)
    {
      if virtualPath !in fileIndex {
        return Ok(None);
      }
      var secureFilename := fileIndex[virtualPath].secureFilename;
      if secureFilename !in dir {
        fileIndex := fileIndex - {virtualPath};
        order := RemoveKey(order, virtualPath);
        var saved := SaveIndex();
        if !saved {
          return Err(LoadFailed(IndexWriteFailed));
        }
        return Ok(None);
      }
      if dir[secureFilename].Subdirectory? {
        return Err(LoadFailed(IsADirectory(secureFilename)));
      }
      var decrypted := codec.decrypt(dir[secureFilename].content);
      if decrypted.None? {
        return Err(LoadFailed(DecryptionFailed));
      }
      return Ok(Some(decrypted.value));
    }

    /** `delete_file(virtual_path)`. */
    method DeleteFile(virtualPath: string) returns (r: Result<bool>)
      requires Valid()
      modifies this
      ensures Valid()
      ensures Step(State(), r) == DeleteStep(codec, old(State()), virtualPath)
    {
      if virtualPath !in fileIndex {
        return Ok(false);
      }
      var secureFilename := fileIndex[virtualPath].secureFilename;
      if secureFilename in dir {
        if dir[secureFilename].Subdirectory? {
          return Err(DeleteFailed(IsADirectory(secureFilename)));
        }
        dir := dir - {secureFilename};
      }
      fileIndex := fileIndex - {virtualPath};
      order := RemoveKey(order, virtualPath);
      var saved := SaveIndex();
      if !saved {
        return Err(DeleteFailed(IndexWriteFailed));
      }
      return Ok(true);
    }

    /** `list_files(path_prefix)`: the matching entries in index order. */
    method ListFiles(pathPrefix: string) returns (matching: seq<FileInfo>)
      requires Valid()
      ensures matching == FileListing(order, fileIndex, pathPrefix)
      ensures forall k :: k in PathsOf(matching) <==> k in fileIndex && StartsWith(k, pathPrefix)
      ensures Distinct(PathsOf(matching))
    {
      matching := [];
      var i := 0;
      while i < |order|
        invariant 0 <= i <= |order|
        invariant matching + FileListing(order[i..], fileIndex, pathPrefix) == FileListing(order, fileIndex, pathPrefix)
      {
        var virtualPath := order[i];
        assert order[i..][1..] == order[i + 1..];
        if StartsWith(virtualPath, pathPrefix) {
          matching := matching + [FileInfo(virtualPath, fileIndex[virtualPath].createdTime, fileIndex[virtualPath].size)];
        }
        i := i + 1;
      }
      assert order[|order|..] == [];
    }

    /** `create_virtual_folder(folder_path)`: store the marker entry. */
    method CreateVirtualFolder(folderPath: string, now: Clock.DateTime) returns (r: Result<bool>)
      requires Valid() && Clock.Valid(now)
      modifies this
      ensures Valid()
      ensures Step(State(), r) == CreateFolderStep(codec, old(State()), folderPath, Clock.IsoFormat(now))
    {
      var markerPath := folderPath + MarkerSuffix;
      r := StoreFile(markerPath, Dict(MarkerJson(Clock.IsoFormat(now))), now);
    }

    /** `list_virtual_folders()`: the folders the index keys imply, sorted,
        each once. */
    method ListVirtualFolders() returns (folders: seq<string>)
      requires Valid()
      ensures StrictlySorted(folders) && Distinct(folders)
      ensures forall f :: f in folders <==> f in FolderSet(order)
    {
      var found: set<string> := {};
      var i := 0;
      while i < |order|
        invariant 0 <= i <= |order|
        invariant found == FolderSet(order[..i])
      {
        var virtualPath := order[i];
        assert order[..i + 1] == order[..i] + [virtualPath];
        FolderSetSnoc(order[..i], virtualPath);
        if Contains(virtualPath, MarkerSuffix) {
          found := found + {ReplaceAll(virtualPath, MarkerSuffix, "")};
        } else {
          var lastSlash := LastIndexOf(virtualPath, '/');
          if lastSlash.Some? {
            found := found + {virtualPath[..lastSlash.value]};
          }
        }
        i := i + 1;
      }
      assert order[..|order|] == order;
      folders := SortedFromSet(found);
    }

    /** `get_file_info(virtual_path)`: a copy of the entry, if any. */
    function GetFileInfo(virtualPath: string): (info: Option<IndexEntry>)
      reads this
      ensures info.Some? <==> virtualPath in fileIndex
      ensures info.Some? ==> info.value == fileIndex[virtualPath]
    {
      if virtualPath in fileIndex then Some(fileIndex[virtualPath]) else None
    }

    /** The inner scan of `cleanup_orphaned_files`: does some entry name
        `filename`? */
    method IsReferenced(filename: string) returns (found: bool)
      requires forall k :: k in order <==> k in fileIndex
      ensures found <==> filename in ReferencedNames(fileIndex)
    {
      found := false;
      var j := 0;
      while j < |order| && !found
        invariant 0 <= j <= |order|
        invariant found <==> exists m :: 0 <= m < j && fileIndex[order[m]].secureFilename == filename
      {
        if fileIndex[order[j]].secureFilename == filename {
          found := true;
        }
        j := j + 1;
      }
      if found {
        var m :| 0 <= m < j && fileIndex[order[m]].secureFilename == filename;
        assert order[m] in fileIndex;
      } else {
        forall k | k in fileIndex
          ensures fileIndex[k].secureFilename != filename
        {
          var m :| 0 <= m < |order| && order[m] == k;
        }
      }
    }

    /** `cleanup_orphaned_files()`: remove every orphan, return how many. */
    method CleanupOrphanedFiles() returns (cleanedCount: nat)
      requires Valid()
      modifies this`dir
      ensures Valid()
      ensures dir == old(dir) - Orphans(old(dir), fileIndex)
      ensures cleanedCount == |Orphans(old(dir), fileIndex)|
    {
      cleanedCount := 0;
      ghost var orphans := Orphans(dir, fileIndex);
      ghost var removed: set<string> := {};
      var listing := dir.Keys;
      while listing != {}
        invariant listing <= old(dir).Keys
        invariant removed == orphans - listing
        invariant dir == old(dir) - removed
        invariant cleanedCount == |removed|
        decreases |listing|
      {
        var filename :| filename in listing;
        CleanupStep(old(dir), fileIndex, listing, removed, filename);
        listing := listing - {filename};
        if filename != IndexFileName && dir[filename].RegularFile? {
          var found := IsReferenced(filename);
          if !found {
            dir := dir - {filename};
            cleanedCount := cleanedCount + 1;
            removed := removed + {filename};
          }
        }
      }
      assert removed == orphans;
    }

    /** `get_storage_stats()` without the rounded megabyte figure. */
    method GetStorageStats() returns (stats: Stats)
      requires Valid()
      ensures stats == StatsOf(State())
      ensures stats.virtualFiles == |fileIndex| == |order|
    {
      DistinctKeysCount(order, fileIndex);
      var physicalFiles, totalSize := ScanFiles(dir);
      stats := Stats(|fileIndex|, physicalFiles, totalSize);
    }
  }

  /** The walk over the storage directory in `get_storage_stats()`: the
      number of regular files and their total size. */
  method ScanFiles(dir: map<string, DirEntry>) returns (physicalFiles: nat, totalSize: nat)
    ensures physicalFiles == |RegularFiles(dir)|
    ensures totalSize == SizeSum(dir, dir.Keys)
  {
    physicalFiles := 0;
    totalSize := 0;
    var listing := dir.Keys;
    ghost var done: set<string> := {};
    while listing != {}
      invariant listing + done == dir.Keys && listing !! done
      invariant physicalFiles == |RegularFiles(dir) * done|
      invariant totalSize == SizeSum(dir, done)
      decreases listing
    {
      var filename :| filename in listing;
      StatsStep(dir, done, filename);
      if dir[filename].RegularFile? {
        physicalFiles := physicalFiles + 1;
        totalSize := totalSize + |dir[filename].content|;
      }
      listing := listing - {filename};
      done := done + {filename};
    }
    assert RegularFiles(dir) * done == RegularFiles(dir);
  }

  /** One turn of the statistics loop keeps its invariant. */
  lemma {:induction false} StatsStep(dir: map<string, DirEntry>, done: set<string>, f: string)
    requires f in dir && f !in done
    ensures |RegularFiles(dir) * (done + {f})|
            == |RegularFiles(dir) * done| + (if dir[f].RegularFile? then 1 else 0)
    ensures SizeSum(dir, done + {f})
            == SizeSum(dir, done) + (if dir[f].RegularFile? then |dir[f].content| else 0)
  {
    if dir[f].RegularFile? {
      assert RegularFiles(dir) * (done + {f}) == (RegularFiles(dir) * done) + {f};
    } else {
      assert RegularFiles(dir) * (done + {f}) == RegularFiles(dir) * done;
    }
    SizeSumRemove(dir, done + {f}, f);
    assert (done + {f}) - {f} == done;
  }

  /** One turn of the cleanup loop keeps its invariant. */
  lemma {:induction false} CleanupStep(d0: map<string, DirEntry>, index: map<string, IndexEntry>,
                    listing: set<string>, removed: set<string>, f: string)
    requires listing <= d0.Keys && f in listing
    requires removed == Orphans(d0, index) - listing
    ensures f in d0 - removed && (d0 - removed)[f] == d0[f]
    ensures f in Orphans(d0, index) <==>
              f != IndexFileName && d0[f].RegularFile? && f !in ReferencedNames(index)
    ensures f in Orphans(d0, index) ==>
              && removed + {f} == Orphans(d0, index) - (listing - {f})
              && |removed + {f}| == |removed| + 1
              && (d0 - removed) - {f} == d0 - (removed + {f})
    ensures f !in Orphans(d0, index) ==> removed == Orphans(d0, index) - (listing - {f})
  {
  }

  /** Adding a key adds at most its own folder. */
  lemma {:induction false} FolderSetSnoc(keys: seq<string>, k: string)
    ensures FolderSet(keys + [k]) == FolderSet(keys) + (if FolderOf(k).Some? then {FolderOf(k).value} else {})
  {
    assert forall j :: j in keys + [k] <==> j in keys || j == k;
  }
}
