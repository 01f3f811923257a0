/**
 * The encrypted virtual file store of `SecureStorageManager`, as values:
 * the in-memory index (a dict from virtual path to entry, whose key order is
 * insertion order), the flat `secure_storage` directory, and one function per
 * operation giving the new state and the result. The class in module
 * SecureStorage is proved against these functions; the lemmas here state what
 * the operations promise.
 */
module StorageModel {
  import opened Text
  import opened Lex

  const IndexFileName: string := "index.enc"
  const MarkerSuffix: string := "/.folder_marker"
  const HexDigits: string := "0123456789abcdef"

  /** One index record: `{secure_filename, created_time, size}`. */
  datatype IndexEntry = IndexEntry(secureFilename: string, createdTime: string, size: nat)

  /** What `os.listdir` can name inside the storage directory. */
  datatype DirEntry = RegularFile(content: seq<byte>) | Subdirectory

  /** The collaborators the manager cannot see into: Fernet, SHA-256 as a hex
      digest, and the JSON rendering of the index as an ordered list of pairs. */
  datatype Codec = Codec(
    encrypt: seq<byte> -> seq<byte>,
    decrypt: seq<byte> -> Option<seq<byte>>,
    sha256Hex: seq<byte> -> string,
    encodeIndex: seq<(string, IndexEntry)> -> seq<byte>,
    decodeIndex: seq<byte> -> Option<seq<(string, IndexEntry)>>)

  predicate IsHex(s: string) {
    forall i :: 0 <= i < |s| ==> s[i] in HexDigits
  }

  /** What the manager relies on: decryption undoes encryption, a digest is 64
      hex digits, and the index survives its own serialisation. */
  ghost predicate Sound(c: Codec) {
    && (forall p :: c.decrypt(c.encrypt(p)) == Some(p))
    && (forall b :: |c.sha256Hex(b)| == 64 && IsHex(c.sha256Hex(b)))
    && (forall items :: c.decodeIndex(c.encodeIndex(items)) == Some(items))
  }

  /** The data `store_file` accepts: bytes, a `str`, a `dict` (carried as
      the text `json.dumps` renders for it) or anything else. */
  datatype Payload = Bytes(bytes: seq<byte>) | Str(text: string) | Dict(json: string) | Unsupported

  /** The bytes handed to Fernet; `None` where Fernet rejects the value. */
  function Serialize(d: Payload): Option<seq<byte>> {
    match d
    case Bytes(b) => Some(b)
    case Str(t) => Some(Utf8(t))
    case Dict(j) => Some(Utf8(j))
    case Unsupported => None
  }

  /** `_generate_secure_filename`: the first 16 hex digits of the SHA-256 of
      the UTF-8 path, then `.dat`. */
  function SecureFilename(c: Codec, path: string): (name: string)
    requires Sound(c)
  {
    c.sha256Hex(Utf8(path))[..16] + ".dat"
  }

  lemma {:induction false} SecureFilenameShape(c: Codec, path: string)
    requires Sound(c)
    ensures |SecureFilename(c, path)| == 20
    ensures IsHex(SecureFilename(c, path)[..16]) && SecureFilename(c, path)[16..] == ".dat"
    ensures SecureFilename(c, path) != IndexFileName
  {
    var h := c.sha256Hex(Utf8(path));
    assert |h| == 64 && IsHex(h);
    assert SecureFilename(c, path)[..16] == h[..16];
  }

  /** One entry of the result of `list_files`. */
  datatype FileInfo = FileInfo(virtualPath: string, createdTime: string, size: nat)

  /** Manager state: `file_index` (`index` with key order `order`) and the
      storage directory. */
  datatype Storage = Storage(index: map<string, IndexEntry>, order: seq<string>, dir: map<string, DirEntry>)

  /** `order` lists each index key exactly once. */
  ghost predicate WellFormed(s: Storage) {
    Distinct(s.order) && forall k :: k in s.order <==> k in s.index
  }

  /** Why an operation raised. */
  datatype Cause = UnsupportedData | IsADirectory(name: string) | DecryptionFailed | IndexWriteFailed

  /** The exception each public operation re-raises, with its cause. */
  datatype StorageError = StoreFailed(cause: Cause) | LoadFailed(cause: Cause) | DeleteFailed(cause: Cause)

  datatype Result<+T> = Ok(value: T) | Err(error: StorageError)

  /** The state after an operation together with what it returned or raised. */
  datatype Step<+T> = Step(state: Storage, result: Result<T>)

  /** `s` without `x`, order kept. */
  function RemoveKey(s: seq<string>, x: string): (r: seq<string>)
    ensures forall y :: y in r <==> y in s && y != x
    ensures Distinct(s) ==> Distinct(r)
    ensures |r| <= |s|
    ensures x !in s ==> r == s
  {
    if s == [] then []
    else if s[0] == x then RemoveKey(s[1..], x)
    else
      var rest := RemoveKey(s[1..], x);
      assert Distinct(s) ==> Distinct(s[1..]) && s[0] !in s[1..];
      [s[0]] + rest
  }

  /** The index as the ordered list of pairs that `json.dumps` writes. */
  function Items(order: seq<string>, index: map<string, IndexEntry>): (items: seq<(string, IndexEntry)>)
    requires forall k :: k in order ==> k in index
    ensures |items| == |order|
  {
    if order == [] then []
    else Items(order[..|order| - 1], index) + [(order[|order| - 1], index[order[|order| - 1]])]
  }

  /** A dict built from an ordered list of pairs: a repeated key keeps its
      first position and takes its last value. */
  function FromItems(items: seq<(string, IndexEntry)>): (r: (seq<string>, map<string, IndexEntry>))
    ensures Distinct(r.0) && forall k :: k in r.0 <==> k in r.1
  {
    if items == [] then ([], map[])
    else
      var prev := FromItems(items[..|items| - 1]);
      var (k, v) := items[|items| - 1];
      (if k in prev.1 then prev.0 else prev.0 + [k], prev.1[k := v])
  }

  /** Rebuilding the dict from the pairs written for it gives it back. */
  lemma {:induction false} FromItemsOfItems(order: seq<string>, index: map<string, IndexEntry>)
    requires Distinct(order) && forall k :: k in order ==> k in index
    ensures FromItems(Items(order, index)) == (order, map k | k in order :: index[k])
  {
    if order != [] {
      var n := |order| - 1;
      var o := order[..n];
      var k := order[n];
      assert Distinct(o);
      var items := Items(order, index);
      assert items == Items(o, index) + [(k, index[k])];
      assert items[..|items| - 1] == Items(o, index);
      FromItemsOfItems(o, index);
      var prev := FromItems(Items(o, index));
      assert k !in o;
      assert k !in prev.1;
      assert order == o + [k];
      RestrictExtend(o, index, k);
    }
  }

  lemma {:induction false} RestrictExtend(o: seq<string>, index: map<string, IndexEntry>, k: string)
    requires forall j :: j in o ==> j in index
    requires k in index
    ensures (map j | j in o :: index[j])[k := index[k]] == map j | j in o + [k] :: index[j]
  {
  }

  /** `_load_index`: decrypt and parse `index.enc`; a missing, unreadable,
      undecryptable or unparsable index yields an empty one. */
  function LoadIndex(c: Codec, dir: map<string, DirEntry>): (r: (seq<string>, map<string, IndexEntry>))
    ensures Distinct(r.0) && forall k :: k in r.0 <==> k in r.1
  {
    if IndexFileName !in dir then ([], map[])
    else match dir[IndexFileName]
      case Subdirectory => ([], map[])
      case RegularFile(blob) =>
        match c.decrypt(blob)
        case None => ([], map[])
        case Some(plain) =>
          match c.decodeIndex(plain)
          case None => ([], map[])
          case Some(items) => FromItems(items)
  }

  /** `_save_index`: the directory with `index.enc` rewritten, or `None` when
      the write fails (the name is taken by a directory). */
  function PersistIndex(c: Codec, s: Storage): Option<map<string, DirEntry>>
    requires WellFormed(s)
  {
    if IndexFileName in s.dir && s.dir[IndexFileName].Subdirectory? then None
    else Some(s.dir[IndexFileName := RegularFile(c.encrypt(c.encodeIndex(Items(s.order, s.index))))])
  }

  /** After a successful `_save_index`, `_load_index` returns the index. */
  lemma {:induction false} SavedIndexReloads(c: Codec, s: Storage)
    requires Sound(c) && WellFormed(s)
    requires PersistIndex(c, s).Some?
    ensures LoadIndex(c, PersistIndex(c, s).value) == (s.order, s.index)
  {
    FromItemsOfItems(s.order, s.index);
    assert (map k | k in s.order :: s.index[k]) == s.index;
  }

  /** `store_file(path, data)` at time `now`. */
  function StoreStep(c: Codec, s: Storage, path: string, data: Payload, now: string): Step<bool>
    requires Sound(c) && WellFormed(s)
  {
    var name := SecureFilename(c, path);
    match Serialize(data)
    case None => Step(s, Err(StoreFailed(UnsupportedData)))
    case Some(plain) =>
      var blob := c.encrypt(plain);
      if name in s.dir && s.dir[name].Subdirectory? then Step(s, Err(StoreFailed(IsADirectory(name))))
      else
        var s1 := Storage(s.index[path := IndexEntry(name, now, |blob|)],
                          if path in s.index then s.order else s.order + [path],
                          s.dir[name := RegularFile(blob)]);
        assert WellFormed(s1);
        match PersistIndex(c, s1)
        case None => Step(s1, Err(StoreFailed(IndexWriteFailed)))
        case Some(dir) => Step(s1.(dir := dir), Ok(true))
  }

  /** `load_file(path)`: `Ok(None)` for an unknown path or (after pruning the
      entry) a missing physical file, otherwise the decrypted bytes. */
  function LoadStep(c: Codec, s: Storage, path: string): Step<Option<seq<byte>>>
    requires WellFormed(s)
  {
    if path !in s.index then Step(s, Ok(None))
    else
      var name := s.index[path].secureFilename;
      if name !in s.dir then
        var s1 := s.(index := s.index - {path}, order := RemoveKey(s.order, path));
        match PersistIndex(c, s1)
        case None => Step(s1, Err(LoadFailed(IndexWriteFailed)))
        case Some(dir) => Step(s1.(dir := dir), Ok(None))
      else match s.dir[name]
        case Subdirectory => Step(s, Err(LoadFailed(IsADirectory(name))))
        case RegularFile(blob) =>
          match c.decrypt(blob)
          case None => Step(s, Err(LoadFailed(DecryptionFailed)))
          case Some(plain) => Step(s, Ok(Some(plain)))
  }

  /** `delete_file(path)`. */
  function DeleteStep(c: Codec, s: Storage, path: string): Step<bool>
    requires WellFormed(s)
  {
    if path !in s.index then Step(s, Ok(false))
    else
      var name := s.index[path].secureFilename;
      if name in s.dir && s.dir[name].Subdirectory? then Step(s, Err(DeleteFailed(IsADirectory(name))))
      else
        var s1 := Storage(s.index - {path}, RemoveKey(s.order, path), s.dir - {name});
        match PersistIndex(c, s1)
        case None => Step(s1, Err(DeleteFailed(IndexWriteFailed)))
        case Some(dir) => Step(s1.(dir := dir), Ok(true))
  }

  function PathsOf(r: seq<FileInfo>): seq<string> {
    seq(|r|, i requires 0 <= i < |r| => r[i].virtualPath)
  }

  /** `list_files(prefix)`: the entries whose key starts with `prefix`, in
      index order. */
  function FileListing(order: seq<string>, index: map<string, IndexEntry>, prefix: string): (r: seq<FileInfo>)
    requires forall k :: k in order ==> k in index
    ensures forall k :: k in PathsOf(r) <==> k in order && StartsWith(k, prefix)
    ensures forall i :: 0 <= i < |r| ==>
              (r[i].virtualPath in index
               && r[i].createdTime == index[r[i].virtualPath].createdTime
               && r[i].size == index[r[i].virtualPath].size)
    ensures Distinct(order) ==> Distinct(PathsOf(r))
  {
    if order == [] then []
    else
      var rest := FileListing(order[1..], index, prefix);
      var k := order[0];
      if StartsWith(k, prefix) then
        var r := [FileInfo(k, index[k].createdTime, index[k].size)] + rest;
        assert PathsOf(r) == [k] + PathsOf(rest);
        r
      else rest
  }

  /** An empty prefix lists every entry. */
  lemma {:induction false} ListAllWithEmptyPrefix(s: Storage)
    requires WellFormed(s)
    ensures forall k :: k in PathsOf(FileListing(s.order, s.index, "")) <==> k in s.index
    ensures |FileListing(s.order, s.index, "")| == |s.index|
  {
    var r := FileListing(s.order, s.index, "");
    ListAllKeepsOrder(s.order, s.index);
    DistinctKeysCount(s.order, s.index);
  }

  lemma {:induction false} ListAllKeepsOrder(order: seq<string>, index: map<string, IndexEntry>)
    requires forall k :: k in order ==> k in index
    ensures PathsOf(FileListing(order, index, "")) == order
  {
    if order != [] {
      ListAllKeepsOrder(order[1..], index);
      assert StartsWith(order[0], "");
      var rest := FileListing(order[1..], index, "");
      assert PathsOf([FileInfo(order[0], index[order[0]].createdTime, index[order[0]].size)] + rest)
          == [order[0]] + PathsOf(rest);
    }
  }

  /** A duplicate-free listing of the keys of a map is as long as the map. */
  lemma {:induction false} DistinctKeysCount(order: seq<string>, index: map<string, IndexEntry>)
    requires Distinct(order) && forall k :: k in order <==> k in index
    ensures |order| == |index|
  {
    if order == [] {
      assert index.Keys == {};
    } else {
      var k := order[0];
      assert Distinct(order[1..]);
      assert forall j :: j in order[1..] <==> j in index - {k};
      DistinctKeysCount(order[1..], index - {k});
    }
  }

  /** The folder a key contributes to `list_virtual_folders`: a marker key
      with every `/.folder_marker` removed, otherwise everything before the
      last `/`; a key without `/` contributes nothing. */
  function FolderOf(key: string): Option<string> {
    if Contains(key, MarkerSuffix) then Some(ReplaceAll(key, MarkerSuffix, ""))
    else match LastIndexOf(key, '/')
      case Some(i) => Some(key[..i])
      case None => None
  }

  /** The set `list_virtual_folders` sorts. */
  function FolderSet(keys: seq<string>): set<string> {
    set k | k in keys && FolderOf(k).Some? :: FolderOf(k).value
  }

  lemma {:induction false} ContainsSuffix(s: string, p: string)
    ensures Contains(s + p, p)
    decreases |s|
  {
    if s == [] {
      assert s + p == p;
    } else {
      assert (s + p)[1..] == s[1..] + p;
      ContainsSuffix(s[1..], p);
    }
  }

  /** `f + "/.folder_marker"` never starts with the marker when `f` is
      non-empty and holds no marker: `/` occurs in the marker only at its
      start. */
  lemma {:induction false} MarkerNotAtStart(f: string)
    requires f != [] && !Contains(f, MarkerSuffix)
    ensures !StartsWith(f + MarkerSuffix, MarkerSuffix)
  {
    var s := f + MarkerSuffix;
    if |f| >= |MarkerSuffix| {
      assert s[..|MarkerSuffix|] == f[..|MarkerSuffix|];
    } else {
      assert forall i :: 1 <= i < |MarkerSuffix| ==> MarkerSuffix[i] != '/';
      assert s[|f|] == '/';
      assert s[..|MarkerSuffix|][|f|] == s[|f|];
    }
  }

  lemma {:induction false} StripMarkerSuffix(f: string)
    requires !Contains(f, MarkerSuffix)
    ensures ReplaceAll(f + MarkerSuffix, MarkerSuffix, "") == f
    decreases |f|
  {
    var s := f + MarkerSuffix;
    if f == [] {
      assert s == MarkerSuffix && StartsWith(s, MarkerSuffix);
      assert s[|MarkerSuffix|..] == [];
    } else {
      MarkerNotAtStart(f);
      assert s[1..] == f[1..] + MarkerSuffix;
      StripMarkerSuffix(f[1..]);
    }
  }

  /** The marker that `create_virtual_folder(f)` stores makes `f` a folder,
      provided `f` itself holds no `/.folder_marker`. */
  lemma {:induction false} MarkerKeyGivesFolder(f: string)
    requires !Contains(f, MarkerSuffix)
    ensures FolderOf(f + MarkerSuffix) == Some(f)
  {
    ContainsSuffix(f, MarkerSuffix);
    StripMarkerSuffix(f);
  }

  /** Names the index refers to. */
  function ReferencedNames(index: map<string, IndexEntry>): set<string> {
    set k | k in index :: index[k].secureFilename
  }

  /** What `cleanup_orphaned_files` removes: regular files other than
      `index.enc` that no entry names. */
  function Orphans(dir: map<string, DirEntry>, index: map<string, IndexEntry>): set<string> {
    set n | n in dir && n != IndexFileName && dir[n].RegularFile? && n !in ReferencedNames(index)
  }

  /** Regular files of the directory (`os.path.isfile`). */
  function RegularFiles(dir: map<string, DirEntry>): set<string> {
    set n | n in dir && dir[n].RegularFile?
  }

  function FileSize(dir: map<string, DirEntry>, n: string): nat {
    if n in dir && dir[n].RegularFile? then |dir[n].content| else 0
  }

  /** Total size of the regular files among `names`. */
  ghost function SizeSum(dir: map<string, DirEntry>, names: set<string>): nat
    decreases names
  {
    if names == {} then 0
    else var n :| n in names; FileSize(dir, n) + SizeSum(dir, names - {n})
  }

  /** The sum does not depend on the order in which names are taken. */
  lemma {:induction false} SizeSumRemove(dir: map<string, DirEntry>, names: set<string>, n: string)
    requires n in names
    ensures SizeSum(dir, names) == FileSize(dir, n) + SizeSum(dir, names - {n})
    decreases names
  {
    var m :| m in names && SizeSum(dir, names) == FileSize(dir, m) + SizeSum(dir, names - {m});
    if m != n {
      SizeSumRemove(dir, names - {m}, n);
      SizeSumRemove(dir, names - {n}, m);
      assert names - {m} - {n} == names - {n} - {m};
    }
  }

  /** `get_storage_stats()` without `total_size_mb`. */
  datatype Stats = Stats(virtualFiles: nat, physicalFiles: nat, totalSizeBytes: nat)

  ghost function StatsOf(s: Storage): Stats {
    Stats(|s.index|, |RegularFiles(s.dir)|, SizeSum(s.dir, s.dir.Keys))
  }

  /** The JSON text `create_virtual_folder` stores in its marker. */
  function MarkerJson(now: string): string {
    "{\"created_time\": \"" + now + "\", \"type\": \"folder\"}"
  }

  /** `create_virtual_folder(folder)`. */
  function CreateFolderStep(c: Codec, s: Storage, folder: string, now: string): Step<bool>
    requires Sound(c) && WellFormed(s)
  {
    StoreStep(c, s, folder + MarkerSuffix, Dict(MarkerJson(now)), now)
  }

  // ---------------------------------------------------------------------
  // What the operations promise.

  /** Every operation keeps the index keys and their order in step. */
  lemma {:induction false} StoreKeepsWellFormed(c: Codec, s: Storage, path: string, data: Payload, now: string)
    requires Sound(c) && WellFormed(s)
    ensures WellFormed(StoreStep(c, s, path, data, now).state)
  {
  }

  lemma {:induction false} LoadKeepsWellFormed(c: Codec, s: Storage, path: string)
    requires WellFormed(s)
    ensures WellFormed(LoadStep(c, s, path).state)
  {
  }

  lemma {:induction false} DeleteKeepsWellFormed(c: Codec, s: Storage, path: string)
    requires WellFormed(s)
    ensures WellFormed(DeleteStep(c, s, path).state)
  {
  }

  /** A successful store: the entry names the file derived from the path,
      records the time and the ciphertext length, adds at most one key (none
      on a re-store), writes exactly the data file and the index, and leaves
      every other entry alone. */
  lemma {:induction false} StoreEffect(c: Codec, s: Storage, path: string, data: Payload, now: string)
    requires Sound(c) && WellFormed(s)
    requires StoreStep(c, s, path, data, now).result.Ok?
    ensures var t := StoreStep(c, s, path, data, now).state;
            var name := SecureFilename(c, path);
            var blob := c.encrypt(Serialize(data).value);
            && Serialize(data).Some?
            && t.index == s.index[path := IndexEntry(name, now, |blob|)]
            && t.order == (if path in s.index then s.order else s.order + [path])
            && t.dir[name] == RegularFile(blob)
            && t.dir[IndexFileName].RegularFile?
            && (forall n :: n in s.dir && n != name && n != IndexFileName ==> n in t.dir && t.dir[n] == s.dir[n])
            && t.dir.Keys == s.dir.Keys + {name, IndexFileName}
  {
    SecureFilenameShape(c, path);
  }

  /** Re-storing to an indexed path keeps its key position and, for an entry
      that `store_file` made, its secure filename. */
  lemma {:induction false} RestoreReusesName(c: Codec, s: Storage, path: string, data: Payload, now: string)
    requires Sound(c) && WellFormed(s)
    requires path in s.index && s.index[path].secureFilename == SecureFilename(c, path)
    requires StoreStep(c, s, path, data, now).result.Ok?
    ensures StoreStep(c, s, path, data, now).state.order == s.order
    ensures StoreStep(c, s, path, data, now).state.index[path].secureFilename == s.index[path].secureFilename
    ensures StoreStep(c, s, path, data, now).state.index.Keys == s.index.Keys
  {
  }

  /** Round trip: what was stored is what loads, and loading changes nothing. */
  lemma {:induction false} StoreThenLoad(c: Codec, s: Storage, path: string, data: Payload, now: string)
    requires Sound(c) && WellFormed(s)
    requires StoreStep(c, s, path, data, now).result.Ok?
    ensures var t := StoreStep(c, s, path, data, now).state;
            LoadStep(c, t, path) == Step(t, Ok(Some(Serialize(data).value)))
  {
    SecureFilenameShape(c, path);
  }

  /** A `str` payload comes back as its UTF-8 bytes. */
  lemma {:induction false} StoreStrThenLoad(c: Codec, s: Storage, path: string, text: string, now: string)
    requires Sound(c) && WellFormed(s)
    requires StoreStep(c, s, path, Str(text), now).result.Ok?
    ensures LoadStep(c, StoreStep(c, s, path, Str(text), now).state, path).result == Ok(Some(Utf8(text)))
  {
    StoreThenLoad(c, s, path, Str(text), now);
  }

  /** Unsupported data raises before anything is written. */
  lemma {:induction false} StoreUnsupportedChangesNothing(c: Codec, s: Storage, path: string, now: string)
    requires Sound(c) && WellFormed(s)
    ensures StoreStep(c, s, path, Unsupported, now) == Step(s, Err(StoreFailed(UnsupportedData)))
  {
  }

  /** The only way a store into a writable index fails is a directory
      occupying the secure filename; then nothing changes. */
  lemma {:induction false} StoreOntoDirectory(c: Codec, s: Storage, path: string, data: Payload, now: string)
    requires Sound(c) && WellFormed(s) && Serialize(data).Some?
    requires SecureFilename(c, path) in s.dir && s.dir[SecureFilename(c, path)].Subdirectory?
    ensures StoreStep(c, s, path, data, now) == Step(s, Err(StoreFailed(IsADirectory(SecureFilename(c, path)))))
  {
  }

  /** Loading an unknown path returns `None` and changes nothing. */
  lemma {:induction false} LoadUnknown(c: Codec, s: Storage, path: string)
    requires WellFormed(s) && path !in s.index
    ensures LoadStep(c, s, path) == Step(s, Ok(None))
  {
  }

  /** Loading a path whose file is gone prunes exactly that entry. */
  lemma {:induction false} LoadDangling(c: Codec, s: Storage, path: string)
    requires WellFormed(s) && path in s.index && s.index[path].secureFilename !in s.dir
    requires IndexFileName !in s.dir || s.dir[IndexFileName].RegularFile?
    ensures var t := LoadStep(c, s, path);
            && t.result == Ok(None)
            && t.state.index == s.index - {path}
            && (forall k :: k in t.state.index ==> t.state.index[k] == s.index[k])
            && t.state.order == RemoveKey(s.order, path)
            && t.state.dir.Keys == s.dir.Keys + {IndexFileName}
            && (forall n :: n in s.dir && n != IndexFileName ==> t.state.dir[n] == s.dir[n])
  {
  }

  /** A file that is present but does not decrypt raises a decryption error
      instead of reading as missing. */
  lemma {:induction false} LoadTampered(c: Codec, s: Storage, path: string)
    requires WellFormed(s) && path in s.index
    requires var name := s.index[path].secureFilename;
             name in s.dir && s.dir[name].RegularFile? && c.decrypt(s.dir[name].content).None?
    ensures LoadStep(c, s, path) == Step(s, Err(LoadFailed(DecryptionFailed)))
  {
  }

  /** Deleting an unknown path returns false and changes nothing. */
  lemma {:induction false} DeleteUnknown(c: Codec, s: Storage, path: string)
    requires WellFormed(s) && path !in s.index
    ensures DeleteStep(c, s, path) == Step(s, Ok(false))
  {
  }

  /** Deleting an indexed path removes its entry and its file (if any) and
      returns true; every other entry and every other file stays. */
  lemma {:induction false} DeleteIndexed(c: Codec, s: Storage, path: string)
    requires WellFormed(s) && path in s.index
    requires var name := s.index[path].secureFilename; name !in s.dir || s.dir[name].RegularFile?
    requires IndexFileName !in s.dir || s.dir[IndexFileName].RegularFile?
    ensures var t := DeleteStep(c, s, path);
            var name := s.index[path].secureFilename;
            && t.result == Ok(true)
            && t.state.index == s.index - {path}
            && t.state.order == RemoveKey(s.order, path)
            && (forall k :: k in t.state.index ==> t.state.index[k] == s.index[k])
            && (name != IndexFileName ==> name !in t.state.dir)
            && t.state.dir.Keys <= s.dir.Keys + {IndexFileName}
            && (forall n :: n in s.dir && n != name && n != IndexFileName ==> n in t.state.dir && t.state.dir[n] == s.dir[n])
  {
  }

  /** With no other entry sharing its secure filename, deleting a path leaves
      the files of all other entries where they were. */
  lemma {:induction false} DeleteKeepsOthersFiles(c: Codec, s: Storage, path: string, other: string)
    requires WellFormed(s) && path in s.index && other in s.index && other != path
    requires s.index[other].secureFilename != s.index[path].secureFilename
    requires s.index[other].secureFilename != IndexFileName
    requires s.index[other].secureFilename in s.dir
    ensures var t := DeleteStep(c, s, path).state;
            other in t.index && t.index[other].secureFilename in t.dir
            && t.dir[t.index[other].secureFilename] == s.dir[s.index[other].secureFilename]
  {
  }

  /** Every mutation that reports success has rewritten `index.enc` so that
      loading it gives back the new index: a successful store, ... */
  lemma {:induction false} StorePersistsIndex(c: Codec, s: Storage, path: string, data: Payload, now: string)
    requires Sound(c) && WellFormed(s)
    requires StoreStep(c, s, path, data, now).result.Ok?
    ensures var t := StoreStep(c, s, path, data, now).state;
            LoadIndex(c, t.dir) == (t.order, t.index)
  {
    var name := SecureFilename(c, path);
    var blob := c.encrypt(Serialize(data).value);
    var s1 := Storage(s.index[path := IndexEntry(name, now, |blob|)],
                      if path in s.index then s.order else s.order + [path],
                      s.dir[name := RegularFile(blob)]);
    SavedIndexReloads(c, s1);
  }

  /** ... a delete that returns true, ... */
  lemma {:induction false} DeletePersistsIndex(c: Codec, s: Storage, path: string)
    requires Sound(c) && WellFormed(s)
    requires DeleteStep(c, s, path).result == Ok(true)
    ensures var t := DeleteStep(c, s, path).state;
            LoadIndex(c, t.dir) == (t.order, t.index)
  {
    var name := s.index[path].secureFilename;
    SavedIndexReloads(c, Storage(s.index - {path}, RemoveKey(s.order, path), s.dir - {name}));
  }

  /** ... and a load that pruned a dangling entry. */
  lemma {:induction false} PrunePersistsIndex(c: Codec, s: Storage, path: string)
    requires Sound(c) && WellFormed(s)
    requires path in s.index && s.index[path].secureFilename !in s.dir
    requires LoadStep(c, s, path).result.Ok?
    ensures var t := LoadStep(c, s, path).state;
            LoadIndex(c, t.dir) == (t.order, t.index)
  {
    SavedIndexReloads(c, s.(index := s.index - {path}, order := RemoveKey(s.order, path)));
  }

  /** `list_files` lists each matching path once: after `store_file(p, _)`
      succeeds, `p` is listed under any prefix it starts with. */
  lemma {:induction false} StoredPathIsListed(c: Codec, s: Storage, path: string, data: Payload, now: string, prefix: string)
    requires Sound(c) && WellFormed(s) && StartsWith(path, prefix)
    requires StoreStep(c, s, path, data, now).result.Ok?
    ensures var t := StoreStep(c, s, path, data, now).state;
            path in PathsOf(FileListing(t.order, t.index, prefix))
            && Distinct(PathsOf(FileListing(t.order, t.index, prefix)))
  {
  }

  /** After `create_virtual_folder(f)` succeeds, `f` is among the folders. */
  lemma {:induction false} CreatedFolderIsListed(c: Codec, s: Storage, folder: string, now: string)
    requires Sound(c) && WellFormed(s) && !Contains(folder, MarkerSuffix)
    requires CreateFolderStep(c, s, folder, now).result.Ok?
    ensures folder in FolderSet(CreateFolderStep(c, s, folder, now).state.order)
  {
    MarkerKeyGivesFolder(folder);
    var t := CreateFolderStep(c, s, folder, now).state;
    assert folder + MarkerSuffix in t.order;
  }

  /** Cleanup never removes a referenced file or the index file, and removes
      every unreferenced regular file. */
  lemma {:induction false} OrphansAreExactlyUnreferenced(dir: map<string, DirEntry>, index: map<string, IndexEntry>, n: string)
    requires n in dir
    ensures n in Orphans(dir, index) <==>
              n != IndexFileName && dir[n].RegularFile? && forall k :: k in index ==> index[k].secureFilename != n
  {
  }

  /** The concrete scenario: on a store with no orphans, storing one path and
      deleting it again leaves no entry and nothing for cleanup. */
  lemma {:induction false} StoreDeleteLeavesNoOrphan(c: Codec, s: Storage, path: string, data: Payload, now: string)
    requires Sound(c) && WellFormed(s) && s.index == map[] && Orphans(s.dir, s.index) == {}
    requires StoreStep(c, s, path, data, now).result.Ok?
    ensures |StoreStep(c, s, path, data, now).state.index| == 1
    ensures var t := StoreStep(c, s, path, data, now).state;
            var u := DeleteStep(c, t, path);
            && u.result == Ok(true)
            && |u.state.index| == 0
            && Orphans(u.state.dir, u.state.index) == {}
  {
    StoreEffect(c, s, path, data, now);
    SecureFilenameShape(c, path);
    var name := SecureFilename(c, path);
    var t := StoreStep(c, s, path, data, now).state;
    assert t.index.Keys == {path};
    DeleteIndexed(c, t, path);
    var u := DeleteStep(c, t, path).state;
    assert u.index == map[];
    forall n | n in u.dir && n != IndexFileName
      ensures !u.dir[n].RegularFile?
    {
      assert n in s.dir && u.dir[n] == t.dir[n] == s.dir[n];
      assert n !in Orphans(s.dir, s.index);
    }
  }
}
