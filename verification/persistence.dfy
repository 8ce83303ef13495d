/**
  The repository metadata store (src/mcp/persistence.rs): an in-memory
  map from repository key to metadata, loaded from and saved to one JSON
  file. The file system is a `Disk` object mapping paths to contents;
  JSON encoding and decoding are function parameters.
*/
module Persistence {
  import opened Errors

  datatype RepositoryMetadata = RepositoryMetadata(
    url: string,
    branch: string,
    commitHash: string,
    localPath: string,
    subdirectories: Option<seq<string>>,
    fileCount: nat,
    ingestedAt: nat)

  type Registry = map<string, RepositoryMetadata>

  /** What decoding a metadata file yields. */
  datatype Decoded = Parsed(entries: Registry) | Malformed(cause: string)

  /** The JSON codec: `to_string_pretty` and `from_str` on the map. */
  datatype Json = Json(encode: Registry -> string, decode: string -> Decoded)

  /** The codec reads back what it wrote. */
  ghost predicate RoundTrips(json: Json) {
    forall m: Registry {:trigger json.encode(m)} :: json.decode(json.encode(m)) == Parsed(m)
  }

  /** The files the store reads and writes, by path. */
  class Disk {
    var files: map<string, string>

    constructor(files: map<string, string>)
      ensures this.files == files
    {
      this.files := files;
    }
  }

  class MetadataStore {
    const storagePath: string
    var cache: Registry

    /** An empty store for the path; `Open` loads it. */
    constructor(storagePath: string)
      ensures this.storagePath == storagePath && cache == map[]
    {
      this.storagePath := storagePath;
      cache := map[];
    }

    /** `load`: with no file at the path nothing changes; a file that
        does not decode is an error and leaves the cache as it was;
        otherwise the cache becomes the decoded map. */
    method Load(disk: Disk, json: Json) returns (r: Outcome)
      modifies this
      ensures storagePath !in disk.files ==> r == Pass && cache == old(cache)
      ensures storagePath in disk.files ==>
        match json.decode(disk.files[storagePath])
        case Malformed(cause) => r == Fail(ConfigError("Failed to parse metadata: " + cause)) && cache == old(cache)
        case Parsed(entries) => r == Pass && cache == entries
    {
      if storagePath !in disk.files {
        return Pass;
      }
      var contents := disk.files[storagePath];
      var decoded := json.decode(contents);
      if decoded.Malformed? {
        return Fail(ConfigError("Failed to parse metadata: " + decoded.cause));
      }
      cache := decoded.entries;
      return Pass;
    }

    /** `save`: the file at the path holds the encoded cache; no other file
        changes. */
    method Save(disk: Disk, json: Json) returns (r: Outcome)
      modifies disk
      ensures r == Pass
      ensures disk.files == old(disk.files)[storagePath := json.encode(cache)]
    {
      disk.files := disk.files[storagePath := json.encode(cache)];
      return Pass;
    }

    /** `get`. */
    function Get(key: string): (r: Option<RepositoryMetadata>)
      reads this
      ensures r.Some? <==> key in cache
      ensures r.Some? ==> r.value == cache[key]
    {
      if key in cache then Some(cache[key]) else None
    }

    /** `list`. */
    function List(): Registry
      reads this
    {
      cache
    }

    /** `len`: the number of keys. */
    function Len(): (n: nat)
      reads this
      ensures n == |cache.Keys|
    {
      |cache|
    }

    /** `is_empty`. */
    function IsEmpty(): (b: bool)
      reads this
      ensures b <==> Len() == 0
      ensures b <==> forall k :: Get(k) == None
    {
      if |cache| == 0 then true
      else
        var k :| k in cache;
        assert Get(k) != None;
        false
    }

    /** `insert`: the key now maps to the metadata, replacing any earlier
        entry; every other key reads as before. */
    method Insert(key: string, metadata: RepositoryMetadata)
      modifies this
      ensures Get(key) == Some(metadata)
      ensures forall k :: k != key ==> Get(k) == old(Get(k))
      ensures cache.Keys == old(cache.Keys) + {key}
      ensures Len() == old(Len()) + (if key in old(cache) then 0 else 1)
    {
      cache := cache[key := metadata];
    }

    /** `remove`: hands back the entry it drops, if any; the key is absent
        afterwards and every other key reads as before. */
    method Remove(key: string) returns (previous: Option<RepositoryMetadata>)
      modifies this
      ensures previous == old(Get(key))
      ensures Get(key) == None
      ensures forall k :: k != key ==> Get(k) == old(Get(k))
      ensures previous.None? ==> cache == old(cache)
      ensures Len() == old(Len()) - (if previous.Some? then 1 else 0)
    {
      previous := Get(key);
      cache := cache - {key};
    }
  }

  /** `MetadataStore::new`: create the directory (its outcome is
      `makeDir`), then start empty and load whatever the file holds. */
  method Open(storagePath: string, disk: Disk, json: Json, makeDir: Outcome) returns (r: Result<MetadataStore>)
    ensures makeDir.Fail? ==> r == Err(makeDir.error)
    ensures makeDir.Pass? && storagePath !in disk.files ==>
      r.Ok? && fresh(r.value) && r.value.storagePath == storagePath && r.value.cache == map[]
    ensures makeDir.Pass? && storagePath in disk.files ==>
      match json.decode(disk.files[storagePath])
      case Malformed(cause) => r == Err(ConfigError("Failed to parse metadata: " + cause))
      case Parsed(entries) =>
        r.Ok? && fresh(r.value) && r.value.storagePath == storagePath && r.value.cache == entries
  {
    if makeDir.Fail? {
      return Err(makeDir.error);
    }
    var store := new MetadataStore(storagePath);
    var loaded := store.Load(disk, json);
    if loaded.Fail? {
      return Err(loaded.error);
    }
    return Ok(store);
  }

  /** Saving and then opening a store on the same path reproduces the
      saved entries, whatever the file held before. */
  method SaveThenOpen(store: MetadataStore, disk: Disk, json: Json) returns (reopened: Result<MetadataStore>)
    requires RoundTrips(json)
    modifies disk
    ensures reopened.Ok? && reopened.value.cache == store.cache
    ensures reopened.value.storagePath == store.storagePath
  {
    var saved := store.Save(disk, json);
    reopened := Open(store.storagePath, disk, json, Pass);
  }

  /** The module's own test: insert one entry, save, open the same path
      again, and read the entry back. */
  method PersistenceExample(json: Json) returns (count: nat, entry: Option<RepositoryMetadata>)
    requires RoundTrips(json)
    ensures count == 1
    ensures entry.Some? && entry.value.url == "https://github.com/test/repo" && entry.value.fileCount == 10
  {
    var disk := new Disk(map[]);
    var created := Open("/tmp/metadata.json", disk, json, Pass);
    var store := created.value;
    var metadata := RepositoryMetadata("https://github.com/test/repo", "main", "abc123", "/tmp/repo",
                                       None, 10, 1234567890);
    store.Insert("repo", metadata);
    var saved := store.Save(disk, json);
    var reopened := Open("/tmp/metadata.json", disk, json, Pass);
    count := reopened.value.Len();
    entry := reopened.value.Get("repo");
    assert reopened.value.cache == map["repo" := metadata];
  }
}
