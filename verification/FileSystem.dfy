// The server's file system as its handlers use it: regular files and directories by real
// path, and which system calls fail for reasons of their own.

module FileSystem {
  import opened Files
  import Upload

  /** Regular files with their contents, directories with the size stat reports. */
  datatype Store = Store(files: map<string, File>, dirs: map<string, nat>)

  predicate ValidStore(s: Store) {
    && (forall p :: p in s.files ==> |s.files[p]| < OFF_T_LIMIT && p !in s.dirs)
    && (forall p :: p in s.dirs ==> s.dirs[p] < OFF_T_LIMIT)
  }

  /**
   * The real paths at which a system call fails although the store would let it succeed
   * (permissions, a missing parent, a directory that is not empty, an error of the disk),
   * the directories whose listing is too long for a reply, and what befalls an upload once
   * its target is open. Any faults are possible, and they may differ from request to request.
   */
  datatype Faults = Faults(
    open: set<string>, stat: set<string>, opendir: set<string>, remove: set<string>, mkdir: set<string>,
    listing: set<string>, puts: Upload.Env)

  predicate ValidFaults(f: Faults) {
    Upload.ValidEnv(f.puts)
  }

  /** open(2) for reading and writing, creating a missing file, succeeds. */
  predicate OpensToStore(s: Store, path: string, f: Faults) {
    path !in s.dirs && path !in f.open
  }

  /** open(2) for reading succeeds, on a file or a directory. */
  predicate OpensToSend(s: Store, path: string, f: Faults) {
    (path in s.files || path in s.dirs) && path !in f.open
  }

  /** opendir(3) succeeds. */
  predicate OpensDir(s: Store, path: string, f: Faults) {
    path in s.dirs && path !in f.opendir
  }

  /** remove(3) succeeds. */
  predicate Removes(s: Store, path: string, f: Faults) {
    (path in s.files || path in s.dirs) && path !in f.remove
  }

  /** mkdir(2) succeeds. */
  predicate MakesDir(s: Store, path: string, f: Faults) {
    path !in s.files && path !in s.dirs && path !in f.mkdir
  }

  /** What an upload starts from: the stored file, or a new empty one. */
  function Before(s: Store, path: string): File {
    if path in s.files then s.files[path] else []
  }

  function WithFile(s: Store, path: string, content: File): Store {
    s.(files := s.files[path := content])
  }

  function WithDir(s: Store, path: string, size: nat): Store {
    s.(dirs := s.dirs[path := size])
  }

  function Without(s: Store, path: string): Store {
    Store(s.files - {path}, s.dirs - {path})
  }

  /**
   * The disk. A session works on an opened file through an object of its own and no other
   * session uses that file meanwhile, so the disk takes its contents over when it is
   * released.
   */
  class Disk {
    var store: Store

    predicate Valid()
      reads this
    {
      ValidStore(store)
    }

    constructor (store: Store)
      ensures this.store == store
    {
      this.store := store;
    }

    method OpenToStore(path: string, faults: Faults) returns (file: Upload.StoredFile?)
      requires Valid()
      modifies this
      ensures Valid()
      ensures file != null <==> OpensToStore(old(store), path, faults)
      ensures file == null ==> store == old(store)
      ensures file != null ==>
                && fresh(file) && fresh(file.data) && file.Content() == Before(old(store), path)
                && store == WithFile(old(store), path, file.Content())
    {
      if path in store.dirs || path in faults.open {
        return null;
      }
      file := new Upload.StoredFile(if path in store.files then store.files[path] else []);
      store := WithFile(store, path, file.data[..]);
    }

    /** The descriptor of a directory has no contents to read. */
    method OpenToSend(path: string, faults: Faults) returns (file: Upload.StoredFile?)
      requires Valid()
      ensures file != null <==> OpensToSend(store, path, faults)
      ensures file != null ==>
                fresh(file) && fresh(file.data) && file.Content() == Before(store, path)
    {
      if path in faults.open || (path !in store.files && path !in store.dirs) {
        return null;
      }
      file := new Upload.StoredFile(if path in store.files then store.files[path] else []);
    }

    method Release(path: string, file: Upload.StoredFile)
      requires Valid() && |file.Content()| < OFF_T_LIMIT && path !in store.dirs
      modifies this
      ensures Valid() && store == WithFile(old(store), path, file.Content())
    {
      store := WithFile(store, path, file.data[..]);
    }

    method Remove(path: string, faults: Faults) returns (ok: bool)
      requires Valid()
      modifies this
      ensures Valid()
      ensures ok <==> Removes(old(store), path, faults)
      ensures store == if ok then Without(old(store), path) else old(store)
    {
      ok := (path in store.files || path in store.dirs) && path !in faults.remove;
      if ok {
        store := Without(store, path);
      }
    }

    method OpenDirectory(path: string, faults: Faults) returns (ok: bool)
      ensures ok <==> OpensDir(store, path, faults)
    {
      ok := path in store.dirs && path !in faults.opendir;
    }

    method MakeDirectory(path: string, faults: Faults) returns (ok: bool)
      requires Valid()
      modifies this
      ensures Valid()
      ensures ok <==> MakesDir(old(store), path, faults)
      ensures !ok ==> store == old(store)
      ensures ok ==> path in store.dirs && store == WithDir(old(store), path, store.dirs[path])
    {
      ok := path !in store.files && path !in store.dirs && path !in faults.mkdir;
      if ok {
        var size: nat := *;
        store := WithDir(store, path, size % OFF_T_LIMIT);
      }
    }
  }
}
