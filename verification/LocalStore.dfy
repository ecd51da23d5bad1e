/** The local backend over an abstract file system: `objectstore/local.go`. */
module LocalStore {
  import opened MemStore
  import opened Wrappers

  class FileSystem<T> {
    var files: map<string, seq<T>>

    constructor (files: map<string, seq<T>>)
      ensures this.files == files
    {
      this.files := files;
    }

    /** `Remove`: the path may not exist, and the system call may fail for another reason. */
    method Remove(path: string, fails: bool) returns (ok: bool)
      modifies this
      ensures ok <==> !fails && path in old(files)
      ensures files == if fails then old(files) else old(files) - {path}
    {
      if fails || path !in files {
        return false;
      }
      files := files - {path};
      ok := true;
    }
  }

  /** Which system calls of a Close fail. */
  datatype CloseFaults = CloseFaults(sync: bool, close: bool, rename: bool, remove: bool)

  predicate CommitSucceeds(f: CloseFaults) {
    !f.sync && !f.close && !f.rename
  }

  class LocalWriter<T> {
    const fs: FileSystem<T>
    const tmp: string
    const path: string
    const guard: OnceGuard
    var open: bool

    /** Until the first Close or Abort the temp file holds what was written. */
    ghost predicate Valid()
      reads this, fs, guard
    {
      tmp != path && (open <==> !guard.done) && (open ==> tmp in fs.files)
    }

    ghost function Written(): seq<T>
      reads this, fs, guard
      requires Valid() && !guard.done
    {
      fs.files[tmp]
    }

    /** `Create`: the temp name is new to the directory. */
    constructor (fs: FileSystem<T>, path: string, tmp: string)
      requires tmp !in fs.files && tmp != path
      modifies fs
      ensures Valid() && !guard.done && Written() == [] && fresh(guard)
      ensures this.fs == fs && this.path == path && this.tmp == tmp
      ensures fs.files == old(fs.files)[tmp := []]
    {
      this.fs, this.path, this.tmp, open := fs, path, tmp, true;
      guard := new OnceGuard();
      new;
      fs.files := fs.files[tmp := []];
    }

    /** A failing write may still put some of the items down; a closed file takes none. */
    method Write(p: seq<T>, accepted: nat) returns (ok: bool)
      requires Valid()
      modifies fs
      ensures Valid()
      ensures ok <==> open && accepted >= |p|
      ensures guard.done ==> fs.files == old(fs.files)
      ensures !guard.done ==>
                fs.files == old(fs.files)[tmp := old(Written()) + if accepted >= |p| then p else p[..accepted]]
    {
      if !open {
        return false;
      }
      var n := if accepted >= |p| then |p| else accepted;
      assert p[..|p|] == p;
      fs.files := fs.files[tmp := fs.files[tmp] + p[..n]];
      ok := n == |p|;
    }

    method RemoveTmp(fails: bool)
      modifies fs
      ensures fs.files == if fails then old(fs.files) else old(fs.files) - {tmp}
    {
      if !fails {
        fs.files := fs.files - {tmp};
      }
    }

    /** Only a first Close acts: it publishes the whole temp file, or nothing and cleans up. */
    method Close(faults: CloseFaults) returns (ok: bool)
      requires Valid()
      modifies this`open, guard, fs
      ensures Valid() && guard.done
      ensures old(guard.done) ==> ok && fs.files == old(fs.files)
      ensures !old(guard.done) ==> (ok <==> !faults.sync && !faults.close && !faults.rename)
      ensures !old(guard.done) && ok ==> fs.files == (old(fs.files) - {tmp})[path := old(Written())]
      ensures !old(guard.done) && !ok ==> fs.files == if faults.remove then old(fs.files) else old(fs.files) - {tmp}
    {
      var first := guard.Begin();
      if !first {
        return true;
      }
      open := false;
      if faults.sync || faults.close || faults.rename {
        RemoveTmp(faults.remove);
        return false;
      }
      var content := fs.files[tmp];
      fs.files := (fs.files - {tmp})[path := content];
      ok := true;
    }

    method Abort(removeFails: bool) returns (ok: bool)
      requires Valid()
      modifies this`open, guard, fs
      ensures Valid() && guard.done
      ensures old(guard.done) ==> ok && fs.files == old(fs.files)
      ensures !old(guard.done) ==>
                fs.files == (if removeFails then old(fs.files) else old(fs.files) - {tmp}) && ok == !removeFails
    {
      var first := guard.Begin();
      if !first {
        return true;
      }
      open := false;
      RemoveTmp(removeFails);
      ok := !removeFails;
    }
  }

  /** `Create`: making the directory or the temp file may fail, and then nothing has happened. */
  method Create<T>(fs: FileSystem<T>, path: string, tmp: string, fails: bool) returns (w: Option<LocalWriter<T>>)
    requires tmp !in fs.files && tmp != path
    modifies fs
    ensures w.None? <==> fails
    ensures w.None? ==> fs.files == old(fs.files)
    ensures w.Some? ==> fs.files == old(fs.files)[tmp := []]
    ensures w.Some? ==> fresh(w.value) && fresh(w.value.guard) && w.value.Valid() && !w.value.guard.done
    ensures w.Some? ==> w.value.fs == fs && w.value.path == path && w.value.tmp == tmp && w.value.Written() == []
  {
    if fails {
      return None;
    }
    var created := new LocalWriter(fs, path, tmp);
    w := Some(created);
  }
}
