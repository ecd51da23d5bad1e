/** INSERT into a Parquet table, `providers/parquet/insert.go`, over the local backend. */
module Insert {
  import opened Wrappers
  import opened Limit
  import opened LocalStore

  // ----- Parquet objects -----

  /** What a Parquet writer puts down: magic bytes, row groups, and the footer without which nothing can be read. */
  datatype Piece<T> = Magic | Rows(batch: Batch<T>) | Footer

  function Pieces<T>(batches: seq<Batch<T>>): seq<Piece<T>> {
    seq(|batches|, i requires 0 <= i < |batches| => Rows(batches[i]))
  }

  function Encode<T>(batches: seq<Batch<T>>): seq<Piece<T>> {
    [Magic] + Pieces(batches) + [Footer]
  }

  /** The batches of a complete object; None for anything truncated or half-written. */
  function Readable<T>(content: seq<Piece<T>>): Option<seq<Batch<T>>> {
    var n := |content|;
    if n >= 2 && content[0].Magic? && content[n - 1].Footer? && forall i | 1 <= i < n - 1 :: content[i].Rows?
    then Some(seq(n - 2, i requires 0 <= i < n - 2 => content[i + 1].batch))
    else None
  }

  lemma EncodeIsReadable<T>(batches: seq<Batch<T>>)
    ensures Readable(Encode(batches)) == Some(batches)
  {
    var content := Encode(batches);
    assert forall i | 1 <= i < |content| - 1 :: content[i] == Rows(batches[i - 1]);
    assert Readable(content).value == batches;
  }

  /** Nothing else can be read: not a truncated object, nor one with pieces out of place. */
  lemma OnlyCompleteIsReadable<T>(content: seq<Piece<T>>, batches: seq<Batch<T>>)
    ensures Readable(content) == Some(batches) <==> content == Encode(batches)
  {
    EncodeIsReadable(batches);
    if Readable(content) == Some(batches) {
      var n := |content|;
      assert n == |batches| + 2;
      forall i | 0 <= i < n ensures content[i] == Encode(batches)[i] {
        if 1 <= i < n - 1 {
          assert content[i] == Rows(batches[i - 1]);
        }
      }
    }
  }

  // ----- Calls and failures -----

  datatype InsertOp = Append | Overwrite | Replace

  /**
   * What goes wrong, if anything: Create, the first failing write (counting from zero; creating the Parquet writer
   * makes write 0), opening the existing table, its reader after some batches, the commit and the clean-up.
   */
  datatype Faults = Faults(create: bool, firstBadWrite: Option<nat>, scan: bool, scanStops: Option<nat>,
                           close: CloseFaults)

  /** The insert's input: the batches it delivers and whether it then ends in an error. */
  datatype Input<T> = Input(batches: seq<Batch<T>>, fails: bool)

  const TWO64 := 0x1_0000_0000_0000_0000

  /** Rows as Go counts them, in 64 bits. */
  function CountRows<T>(batches: seq<Batch<T>>): nat {
    |Flatten(batches)| % TWO64
  }

  /** The count is the number of rows exactly when that fits. */
  lemma CountIsExact<T>(batches: seq<Batch<T>>)
    ensures CountRows(batches) == |Flatten(batches)| <==> |Flatten(batches)| < TWO64
  {
  }

  lemma CountOneMore<T>(batches: seq<Batch<T>>, batch: Batch<T>)
    ensures CountRows(batches + [batch]) == (CountRows(batches) + |batch|) % TWO64
  {
    FlattenAppend(batches, [batch]);
    assert [batch][1..] == [];
    assert Flatten([batch]) == batch + Flatten<T>([]);
  }

  /** What the table holds before: None when there is no complete object at the path. */
  function Existing<T>(files: map<string, seq<Piece<T>>>, path: string): Option<seq<Batch<T>>> {
    if path in files then Readable(files[path]) else None
  }

  function KeptRows<T>(files: map<string, seq<Piece<T>>>, path: string, op: InsertOp): seq<Batch<T>> {
    if op.Append? && Existing(files, path).Some? then Existing(files, path).value else []
  }

  // ----- The insert -----

  ghost predicate SameElsewhere<C>(before: map<string, C>, after: map<string, C>, tmp: string) {
    after.Keys == before.Keys && forall p | p in after && p != tmp :: after[p] == before[p]
  }

  /** One call of the underlying writer; the count of calls decides whether it fails. */
  method Put<T>(w: LocalWriter<Piece<T>>, piece: Piece<T>, calls: nat, f: Faults) returns (ok: bool)
    requires w.Valid() && !w.guard.done
    modifies w.fs
    ensures w.Valid() && SameElsewhere(old(w.fs.files), w.fs.files, w.tmp)
    ensures ok <==> f.firstBadWrite != Some(calls)
    ensures w.Written() == old(w.Written()) + if ok then [piece] else []
  {
    ok := w.Write([piece], if f.firstBadWrite == Some(calls) then 0 else 1);
    assert [piece][..0] == [];
  }

  method PutAll<T>(w: LocalWriter<Piece<T>>, batches: seq<Batch<T>>, calls: nat, f: Faults)
      returns (ok: bool, rowCount: nat)
    requires w.Valid() && !w.guard.done
    requires f.firstBadWrite.Some? ==> f.firstBadWrite.value >= calls
    modifies w.fs
    ensures w.Valid()
    ensures ok <==> f.firstBadWrite.None? || f.firstBadWrite.value >= calls + |batches|
    ensures SameElsewhere(old(w.fs.files), w.fs.files, w.tmp)
    ensures ok ==> w.Written() == old(w.Written()) + Pieces(batches) && rowCount == CountRows(batches)
  {
    rowCount := 0;
    assert batches[..0] == [];
    assert old(w.Written()) + Pieces(batches[..0]) == old(w.Written());
    for i := 0 to |batches|
      invariant w.Valid()
      invariant SameElsewhere(old(w.fs.files), w.fs.files, w.tmp)
      invariant w.Written() == old(w.Written()) + Pieces(batches[..i])
      invariant f.firstBadWrite.Some? ==> f.firstBadWrite.value >= calls + i
      invariant rowCount == CountRows(batches[..i])
    {
      var put := Put(w, Rows(batches[i]), calls + i, f);
      if !put {
        return false, rowCount;
      }
      CountOneMore(batches[..i], batches[i]);
      assert batches[..i + 1] == batches[..i] + [batches[i]];
      rowCount := (rowCount + |batches[i]|) % TWO64;
      assert Pieces(batches[..i + 1]) == Pieces(batches[..i]) + [Rows(batches[i])];
    }
    assert batches[..|batches|] == batches;
    ok := true;
  }

  /** Scanning the existing table works to its end. */
  predicate ScanSucceeds<T>(files: map<string, seq<Piece<T>>>, path: string, f: Faults) {
    !f.scan && f.scanStops.None? && Existing(files, path).Some?
  }

  predicate WritesSucceed(f: Faults, calls: nat) {
    f.firstBadWrite.None? || f.firstBadWrite.value >= calls
  }

  /** `streamExistingRows`: the old rows, as long as their reader does not fail. */
  method StreamExistingRows<T>(w: LocalWriter<Piece<T>>, calls: nat, f: Faults) returns (copied: Result<nat>)
    requires w.Valid() && !w.guard.done && WritesSucceed(f, calls)
    modifies w.fs
    ensures w.Valid() && SameElsewhere(old(w.fs.files), w.fs.files, w.tmp)
    ensures copied.Ok? <==> ScanSucceeds(old(w.fs.files), w.path, f) &&
                            WritesSucceed(f, calls + |Existing(old(w.fs.files), w.path).value|)
    ensures copied.Ok? ==> copied.value == |Existing(old(w.fs.files), w.path).value|
    ensures copied.Ok? ==> w.Written() == old(w.Written()) + Pieces(Existing(old(w.fs.files), w.path).value)
  {
    var existing := Existing(w.fs.files, w.path);
    if f.scan || existing.None? {
      return Err;
    }
    var all := existing.value;
    var upTo := if f.scanStops.Some? && f.scanStops.value < |all| then f.scanStops.value else |all|;
    var put, _ := PutAll(w, all[..upTo], calls, f);
    if !put || f.scanStops.Some? {
      return Err;
    }
    assert all[..upTo] == all;
    copied := Ok(|all|);
  }

  /** Opens the Parquet writer and, for an append, puts the old rows ahead of the insert's. */
  method FillKept<T>(w: LocalWriter<Piece<T>>, op: InsertOp, f: Faults) returns (calls: Result<nat>)
    requires w.Valid() && !w.guard.done && w.Written() == [] && !op.Replace?
    modifies w.fs
    ensures w.Valid() && SameElsewhere(old(w.fs.files), w.fs.files, w.tmp)
    ensures calls.Ok? <==> (op.Append? ==> ScanSucceeds(old(w.fs.files), w.path, f)) &&
                           WritesSucceed(f, |KeptRows(old(w.fs.files), w.path, op)| + 1)
    ensures calls.Ok? ==> calls.value == |KeptRows(old(w.fs.files), w.path, op)| + 1
    ensures calls.Ok? ==> w.Written() == [Magic] + Pieces(KeptRows(old(w.fs.files), w.path, op))
  {
    var put := Put(w, Magic, 0, f);
    if !put {
      return Err;
    }
    assert Existing(w.fs.files, w.path) == Existing(old(w.fs.files), w.path);
    if op.Append? {
      var copied := StreamExistingRows(w, 1, f);
      if copied.Err? {
        return Err;
      }
      calls := Ok(1 + copied.value);
    } else {
      assert Pieces<T>([]) == [];
      calls := Ok(1);
    }
  }

  /** The object half of `rewrite`: header, kept rows, new rows and footer into the temp file. */
  method Fill<T>(w: LocalWriter<Piece<T>>, op: InsertOp, input: Input<T>, f: Faults) returns (count: Result<nat>)
    requires w.Valid() && !w.guard.done && w.Written() == [] && !op.Replace?
    modifies w.fs
    ensures w.Valid() && SameElsewhere(old(w.fs.files), w.fs.files, w.tmp)
    ensures count.Ok? ==> count.value == CountRows(input.batches)
    ensures count.Ok? ==> w.Written() == Encode(KeptRows(old(w.fs.files), w.path, op) + input.batches)
    ensures count.Ok? <==>
            && !input.fails && (op.Append? ==> ScanSucceeds(old(w.fs.files), w.path, f))
            && WritesSucceed(f, |KeptRows(old(w.fs.files), w.path, op)| + |input.batches| + 2)
  {
    ghost var kept := KeptRows(w.fs.files, w.path, op);
    var calls := FillKept(w, op, f);
    if calls.Err? {
      return Err;
    }
    var put, rowCount := PutAll(w, input.batches, calls.value, f);
    if !put || input.fails {
      return Err;
    }
    put := Put(w, Footer, calls.value + |input.batches|, f);
    if !put {
      return Err;
    }
    EncodeInParts(kept, input.batches);
    count := Ok(rowCount);
  }

  lemma EncodeInParts<T>(kept: seq<Batch<T>>, added: seq<Batch<T>>)
    ensures Encode(kept + added) == [Magic] + Pieces(kept) + Pieces(added) + [Footer]
  {
    assert Pieces(kept + added) == Pieces(kept) + Pieces(added);
  }

  /** A complete object replaces the old one, or every object stays; no temp file remains if it can be removed. */
  method Rewrite<T>(fs: FileSystem<Piece<T>>, path: string, tmp: string, op: InsertOp, input: Input<T>, f: Faults)
      returns (count: Result<nat>)
    requires tmp !in fs.files && tmp != path && !op.Replace?
    modifies fs
    ensures count.Ok? <==>
            && !input.fails && !f.create && (op.Append? ==> ScanSucceeds(old(fs.files), path, f))
            && WritesSucceed(f, |KeptRows(old(fs.files), path, op)| + |input.batches| + 2)
            && CommitSucceeds(f.close)
    ensures count.Ok? ==> count.value == CountRows(input.batches)
    ensures count.Ok? ==>
              fs.files == old(fs.files)[path := Encode(KeptRows(old(fs.files), path, op) + input.batches)]
    ensures count.Err? ==> fs.files - {tmp} == old(fs.files) && (!f.close.remove ==> tmp !in fs.files)
  {
    ghost var before := fs.files;
    var created := Create(fs, path, tmp, f.create);
    if created.None? {
      return Err;
    }
    var w := created.value;
    assert Existing(fs.files, path) == Existing(before, path);
    count := Fill(w, op, input, f);
    if count.Err? {
      var removed := w.Abort(f.close.remove);
      assert fs.files - {tmp} == before;
      return Err;
    }
    assert fs.files - {tmp} == before;
    var ok := w.Close(f.close);
    if !ok {
      var ignored := w.Abort(f.close.remove);
      return Err;
    }
  }

  /**
   * All or nothing. After a success a scan reads the old batches and then the new (Append) or the new ones only
   * (Overwrite, no batches at all included), every other object is as it was, and the rows delivered are counted; an
   * append of nothing touches nothing. After a failure every object is as it was.
   */
  method InsertInto<T>(fs: FileSystem<Piece<T>>, path: string, tmp: string, op: InsertOp, input: Input<T>, f: Faults)
      returns (count: Result<nat>)
    requires tmp !in fs.files && tmp != path
    modifies fs
    ensures count.Ok? ==> !op.Replace? && !input.fails
    ensures op.Append? && input.batches == [] && !input.fails ==> count.Ok?
    ensures !op.Replace? && !input.fails && (op.Overwrite? || input.batches != []) ==>
              var was := Existing(old(fs.files), path);
              count.Ok? <==>
              && !f.create && (op.Append? ==> !f.scan && f.scanStops.None? && was.Some?)
              && (f.firstBadWrite.Some? ==>
                    f.firstBadWrite.value >= (if op.Append? then |was.value| else 0) + |input.batches| + 2)
              && !f.close.sync && !f.close.close && !f.close.rename
    ensures count.Ok? ==> count.value == |Flatten(input.batches)| % TWO64
    ensures count.Ok? && op.Overwrite? ==> Existing(fs.files, path) == Some(input.batches)
    ensures count.Ok? && op.Append? && input.batches == [] ==> fs.files == old(fs.files)
    ensures count.Ok? && op.Append? && input.batches != [] ==>
              var was := Existing(old(fs.files), path);
              was.Some? && Existing(fs.files, path) == Some(was.value + input.batches)
    ensures count.Ok? ==> fs.files - {path} == old(fs.files) - {path}
    ensures count.Err? ==> fs.files - {tmp} == old(fs.files) && (!f.close.remove ==> tmp !in fs.files)
  {
    if op.Replace? {
      return Err;
    }
    if input.batches == [] {
      if input.fails {
        return Err;
      }
      if op.Append? {
        return Ok(0);
      }
    }
    ghost var kept := KeptRows(fs.files, path, op);
    count := Rewrite(fs, path, tmp, op, input, f);
    EncodeIsReadable(kept + input.batches);
    assert [] + input.batches == input.batches;
  }

  lemma {:induction false} FlattenAppend<T>(a: seq<Batch<T>>, b: seq<Batch<T>>)
    ensures Flatten(a + b) == Flatten(a) + Flatten(b)
  {
    if a == [] {
      assert a + b == b;
    } else {
      assert (a + b)[1..] == a[1..] + b;
      FlattenAppend(a[1..], b);
    }
  }

  /** What a scan reads after a successful insert: the old rows, if kept, then exactly the delivered ones. */
  lemma InsertedRowsAreRead<T>(files: map<string, seq<Piece<T>>>, path: string, op: InsertOp, input: Input<T>)
    requires op.Append? ==> Existing(files, path).Some?
    ensures var after := Existing(files[path := Encode(KeptRows(files, path, op) + input.batches)], path);
            && after.Some?
            && Flatten(after.value) ==
               (if op.Append? then Flatten(Existing(files, path).value) else []) + Flatten(input.batches)
  {
    EncodeIsReadable(KeptRows(files, path, op) + input.batches);
    FlattenAppend(KeptRows(files, path, op), input.batches);
  }
}
