/**
 * The in-memory storage backend (core_directory/storages/dummy_storage.py).
 *
 * The backend keeps every file in one dict, `_files`, that is a class
 * attribute: all instances read and write the same dict. Dafny has no
 * mutable globals, so the dict is an object of its own, `FileStore`, and
 * every `DummyStorage` holds a reference to it; building all instances over
 * one `FileStore` is what makes a save through one visible through another.
 */
module DummyStorage {
  import opened Wrappers

  type Bytes = seq<bv8>

  /** The class attribute `_files`: file name to stored bytes. */
  class FileStore {
    var files: map<string, Bytes>

    constructor ()
      ensures files == map[]
    {
      files := map[];
    }
  }

  /** A `ContentFile`: its bytes and the position of the next read. */
  class ContentFile {
    const name: string
    var data: Bytes
    var pos: nat

    constructor (name: string, data: Bytes)
      ensures this.name == name && this.data == data && pos == 0
    {
      this.name := name;
      this.data := data;
      pos := 0;
    }

    /** `seek(offset)`: only the position moves. */
    method Seek(offset: nat)
      modifies this
      ensures pos == offset && data == old(data)
    {
      pos := offset;
    }

    /** `read()`: everything from the position to the end, which becomes the new position. */
    method Read() returns (r: Bytes)
      modifies this
      ensures data == old(data)
      ensures old(pos) <= |data| ==> r == data[old(pos)..] && pos == |data|
      ensures old(pos) > |data| ==> r == [] && pos == old(pos)
    {
      if pos <= |data| {
        r := data[pos..];
        pos := |data|;
      } else {
        r := [];
      }
    }
  }

  /** Why one of the unsupported operations fails. */
  datatype NotImplementedError = NotImplementedError(message: string)

  class Storage {
    const store: FileStore

    constructor (store: FileStore)
      ensures this.store == store
    {
      this.store := store;
    }

    /** The bytes `_open(name)` wraps: the stored bytes, or nothing for an unknown name. */
    function Contents(name: string): (r: Bytes)
      reads store
      ensures name in store.files ==> r == store.files[name]
      ensures name !in store.files ==> r == []
    {
      if name in store.files then store.files[name] else []
    }

    /** `_open(name)`: a new file over `Contents(name)`, read from its start; an unknown name does not fail. */
    method Open(name: string) returns (f: ContentFile)
      ensures fresh(f)
      ensures f.name == name && f.data == Contents(name) && f.pos == 0
    {
      f := new ContentFile(name, Contents(name));
    }

    /**
     * `_save(name, content)`: rewinds `content`, stores all its bytes under
     * `name`, replacing what was there, and returns `name`.
     */
    method Save(name: string, content: ContentFile) returns (saved: string)
      modifies store, content
      ensures saved == name
      ensures store.files == old(store.files)[name := old(content.data)]
      ensures content.data == old(content.data) && content.pos == |content.data|
      ensures Exists(name) && Contents(name) == old(content.data)
    {
      content.Seek(0);
      var bytes := content.Read();
      store.files := store.files[name := bytes];
      saved := name;
    }

    /** `exists(name)`: bytes are stored under `name`; a name that does not exist opens as no bytes. */
    predicate Exists(name: string): (r: bool)
      reads store
      ensures r <==> name in store.files
      ensures r ==> Contents(name) == store.files[name]
      ensures !r ==> Contents(name) == []
    {
      name in store.files
    }

    /** `delete(name)`: removes `name` and nothing else; an absent name changes nothing. */
    method Delete(name: string)
      modifies store
      ensures store.files == old(store.files) - {name}
      ensures !Exists(name)
      ensures forall n :: n != name ==> (n in store.files <==> n in old(store.files))
      ensures forall n :: n != name && n in store.files ==> store.files[n] == old(store.files)[n]
      ensures name !in old(store.files) ==> store.files == old(store.files)
    {
      if name in store.files {
        store.files := store.files - {name};
      }
    }

    /** `url(name)`: the name under the `/dummy/` prefix. */
    function Url(name: string): (r: string)
      ensures |r| == |name| + 7 && r[..7] == "/dummy/" && r[7..] == name
    {
      "/dummy/" + name
    }

    /** `get_accessed_time(name)`: always raises. */
    function GetAccessedTime(name: string): (r: Result<int, NotImplementedError>)
      ensures r == Failure(NotImplementedError("get_accessed_time is not supported by DummyStorage."))
    {
      Failure(NotImplementedError("get_accessed_time is not supported by DummyStorage."))
    }

    /** `get_created_time(name)`: always raises. */
    function GetCreatedTime(name: string): (r: Result<int, NotImplementedError>)
      ensures r == Failure(NotImplementedError("get_created_time is not supported by DummyStorage."))
    {
      Failure(NotImplementedError("get_created_time is not supported by DummyStorage."))
    }

    /** `get_modified_time(name)`: always raises. */
    function GetModifiedTime(name: string): (r: Result<int, NotImplementedError>)
      ensures r == Failure(NotImplementedError("get_modified_time is not supported by DummyStorage."))
    {
      Failure(NotImplementedError("get_modified_time is not supported by DummyStorage."))
    }

    /** `path(name)`: always raises. */
    function Path(name: string): (r: Result<string, NotImplementedError>)
      ensures r == Failure(NotImplementedError("path() is not available for DummyStorage."))
    {
      Failure(NotImplementedError("path() is not available for DummyStorage."))
    }

    /** `listdir(path)`: always raises. */
    function ListDir(path: string): (r: Result<(seq<string>, seq<string>), NotImplementedError>)
      ensures r == Failure(NotImplementedError("listdir() is not available for DummyStorage."))
    {
      Failure(NotImplementedError("listdir() is not available for DummyStorage."))
    }

    /** `size(name)`: always raises. */
    function Size(name: string): (r: Result<nat, NotImplementedError>)
      ensures r == Failure(NotImplementedError("size() is not available for DummyStorage."))
    {
      Failure(NotImplementedError("size() is not available for DummyStorage."))
    }
  }

  /** Distinct names have distinct URLs. */
  lemma UrlInjective(s: Storage, a: string, b: string)
    ensures s.Url(a) == s.Url(b) ==> a == b
  {
    if s.Url(a) == s.Url(b) {
      assert a == s.Url(a)[7..];
    }
  }

  /**
   * Two instances over the shared dict: what one saves, the other finds and
   * opens, and what the other then deletes is gone for the first.
   */
  method SharedAcrossInstances(a: Storage, b: Storage, name: string, content: ContentFile)
    returns (seen: Bytes, existsAfterDelete: bool)
    requires a.store == b.store
    modifies a.store, content
    ensures seen == old(content.data)
    ensures !existsAfterDelete
  {
    var _ := a.Save(name, content);
    var f := b.Open(name);
    seen := f.Read();
    b.Delete(name);
    existsAfterDelete := a.Exists(name);
  }
}
