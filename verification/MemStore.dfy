/** The one-shot write guard and the in-memory backend: `objectstore/writeguard.go`, `objectstore/mem.go`. */
module MemStore {
  import opened Wrappers
  import opened Values

  /** `onceGuard`: the first of all Close and Abort calls wins. */
  class OnceGuard {
    var done: bool

    constructor ()
      ensures !done
    {
      done := false;
    }

    method Begin() returns (first: bool)
      modifies this
      ensures first == !old(done) && done
    {
      if done {
        return false;
      }
      done := true;
      first := true;
    }
  }

  /** An open object reads the bytes stored when it was opened. */
  class MemObject {
    const data: array<Byte>

    constructor (data: array<Byte>)
      ensures this.data == data
    {
      this.data := data;
    }
  }

  class MemStore {
    var objs: map<string, array<Byte>>
    /** Every byte array ever stored, still listed or not; open objects may share them. */
    ghost var published: set<array<Byte>>

    ghost predicate Valid()
      reads this
    {
      forall p | p in objs :: objs[p] in published
    }

    ghost function Contents(): map<string, seq<Byte>>
      reads this, published
      requires Valid()
    {
      map p | p in objs :: objs[p][..]
    }

    constructor ()
      ensures Valid() && Contents() == map[] && published == {}
    {
      objs, published := map[], {};
    }

    method Open(path: string) returns (obj: Option<MemObject>)
      requires Valid()
      ensures obj.Some? <==> path in Contents()
      ensures obj.Some? ==> obj.value.data in published && obj.value.data[..] == Contents()[path]
    {
      if path !in objs {
        return None;
      }
      var o := new MemObject(objs[path]);
      obj := Some(o);
    }

    method Remove(path: string) returns (existed: bool)
      requires Valid()
      modifies this`objs
      ensures Valid() && existed == (path in old(Contents()))
      ensures Contents() == old(Contents()) - {path}
    {
      if path !in objs {
        return false;
      }
      objs := objs - {path};
      existed := true;
    }

    /** Lists an array nobody else holds. */
    method Put(path: string, data: array<Byte>)
      requires Valid()
      modifies this
      ensures Valid() && Contents() == old(Contents())[path := data[..]]
      ensures published == old(published) + {data}
    {
      objs := objs[path := data];
      published := published + {data};
    }

    method Create(path: string) returns (w: MemWriter)
      requires Valid()
      ensures fresh(w) && fresh(w.guard) && fresh(w.buf) && w.Valid()
      ensures w.store == this && w.path == path && w.Written() == [] && !w.guard.done
    {
      w := new MemWriter(this, path);
    }
  }

  method CopyOf(src: array<Byte>, n: nat) returns (data: array<Byte>)
    requires n <= src.Length
    ensures fresh(data) && data[..] == src[..n]
  {
    data := new Byte[n](_ => 'a');
    forall i | 0 <= i < n {
      data[i] := src[i];
    }
  }

  class MemWriter {
    const store: MemStore
    const path: string
    const guard: OnceGuard
    var buf: array<Byte>
    var len: nat

    /** The writer's buffer is its own: no stored array is it. */
    ghost predicate Valid()
      reads this, store
    {
      len <= buf.Length && store.Valid() && buf !in store.published
    }

    ghost function Written(): seq<Byte>
      reads this, store, buf
      requires Valid()
    {
      buf[..len]
    }

    constructor (store: MemStore, path: string)
      requires store.Valid()
      ensures Valid() && this.store == store && this.path == path
      ensures Written() == [] && !guard.done && fresh(guard) && fresh(buf)
    {
      this.store, this.path := store, path;
      guard := new OnceGuard();
      buf := new Byte[64](_ => 'a');
      len := 0;
    }

    /** Grows the buffer in place or moves it; nothing stored, listed or open changes, before Close and after it. */
    method Write(p: seq<Byte>)
      requires Valid()
      modifies this, buf
      ensures Valid() && Written() == old(Written()) + p
      ensures buf == old(buf) || fresh(buf)
      ensures store.Contents() == old(store.Contents())
      ensures forall a | a in store.published :: a[..] == old(a[..])
    {
      if len + |p| > buf.Length {
        var bigger := new Byte[2 * buf.Length + |p|](_ => 'a');
        forall i | 0 <= i < len {
          bigger[i] := buf[i];
        }
        buf := bigger;
      }
      forall i | 0 <= i < |p| {
        buf[len + i] := p[i];
      }
      len := len + |p|;
      assert buf[..len] == old(Written()) + p;
    }

    /** Only a first Close stores, exactly the written bytes, under this path, in an array of their own. */
    method Close()
      requires Valid()
      modifies store, guard
      ensures Valid() && guard.done && buf == old(buf) && Written() == old(Written())
      ensures old(guard.done) ==> store.objs == old(store.objs) && store.published == old(store.published)
      ensures old(guard.done) ==> store.Contents() == old(store.Contents())
      ensures !old(guard.done) ==> store.Contents() == old(store.Contents())[path := Written()]
      ensures old(store.published) <= store.published && fresh(store.published - old(store.published))
      ensures forall a | a in old(store.published) :: a[..] == old(a[..])
    {
      var first := guard.Begin();
      if !first {
        return;
      }
      var data := CopyOf(buf, len);
      store.Put(path, data);
    }

    method Abort()
      requires Valid()
      modifies guard
      ensures Valid() && guard.done
      ensures store.Contents() == old(store.Contents()) && Written() == old(Written())
    {
      var first := guard.Begin();
    }
  }
}
