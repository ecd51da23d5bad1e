/** Record readers, and the limit hint of `providers/parquet/pushdown.go`. */
module Limit {
  import opened Wrappers

  /** A record batch, row by row. */
  type Batch<T> = seq<T>

  function Flatten<T>(batches: seq<Batch<T>>): seq<T> {
    if batches == [] then [] else batches[0] + Flatten(batches[1..])
  }

  /** A record reader: the batches still to come, the current one and the references held. */
  class BatchReader<T> {
    var pending: seq<Batch<T>>
    var cur: Option<Batch<T>>
    var references: int

    constructor (batches: seq<Batch<T>>)
      ensures pending == batches && cur.None? && references == 1
    {
      pending, cur, references := batches, None, 1;
    }

    method Retain()
      modifies this`references
      ensures references == old(references) + 1
    {
      references := references + 1;
    }

    method Release()
      modifies this`references
      ensures references == old(references) - 1
    {
      references := references - 1;
    }

    method Next() returns (more: bool)
      modifies this`pending, this`cur
      ensures more <==> old(pending) != []
      ensures more ==> cur == Some(old(pending)[0]) && pending == old(pending)[1..]
      ensures !more ==> cur.None? && pending == []
    {
      if pending == [] {
        cur := None;
        return false;
      }
      cur, pending := Some(pending[0]), pending[1..];
      more := true;
    }
  }

  /** What a limit of n lets through. */
  function LimitPrefix<T>(batches: seq<Batch<T>>, n: int): seq<Batch<T>> {
    if n <= 0 || batches == [] then [] else [batches[0]] + LimitPrefix(batches[1..], n - |batches[0]|)
  }

  class LimitReader<T> {
    const inner: BatchReader<T>
    var remaining: int

    constructor (inner: BatchReader<T>, n: nat)
      ensures this.inner == inner && remaining == n
    {
      this.inner, remaining := inner, n;
    }

    /** The batches this reader will still deliver. */
    ghost function Coming(): seq<Batch<T>>
      reads this, inner
    {
      LimitPrefix(inner.pending, remaining)
    }

    method Next() returns (more: bool)
      modifies this, inner
      ensures more <==> old(Coming()) != []
      ensures more ==> inner.cur == Some(old(Coming())[0]) && Coming() == old(Coming())[1..]
      ensures !more ==> Coming() == []
      ensures more ==> |inner.pending| < old(|inner.pending|)
    {
      if remaining <= 0 {
        return false;
      }
      more := inner.Next();
      if !more {
        return false;
      }
      remaining := remaining - |inner.cur.value|;
    }
  }

  /** The engine pulling a limited scan to its end. */
  method Drain<T>(reader: LimitReader<T>) returns (delivered: seq<Batch<T>>)
    modifies reader, reader.inner
    ensures delivered == old(LimitPrefix(reader.inner.pending, reader.remaining))
  {
    delivered := [];
    var more := reader.Next();
    if more {
      delivered := [reader.inner.cur.value];
    }
    while more
      invariant delivered + reader.Coming() == old(reader.Coming())
      invariant !more ==> reader.Coming() == []
      decreases more, |reader.inner.pending|
    {
      more := reader.Next();
      if more {
        delivered := delivered + [reader.inner.cur.value];
      }
    }
  }

  /** A limited scan delivers the shortest prefix of the batches that holds n rows, or everything. */
  lemma {:induction false} LimitPrefixIsShortest<T>(batches: seq<Batch<T>>, n: int)
    ensures var out := LimitPrefix(batches, n);
            && |out| <= |batches| && out == batches[..|out|]
            && (|Flatten(out)| >= n || out == batches)
            && forall k | 0 <= k < |out| :: |Flatten(batches[..k])| < n
  {
    if n > 0 && batches != [] {
      var rest, m := batches[1..], n - |batches[0]|;
      LimitPrefixIsShortest(rest, m);
      var out := LimitPrefix(batches, n);
      assert out[1..] == LimitPrefix(rest, m);
      forall k | 0 <= k < |out| ensures |Flatten(batches[..k])| < n {
        if k > 0 {
          assert batches[..k][1..] == rest[..k - 1];
        }
      }
    }
  }

  /** Its first n rows are the first n rows of the full scan. */
  lemma {:induction false} LimitRefinesTake<T>(batches: seq<Batch<T>>, n: nat)
    ensures var all, some := Flatten(batches), Flatten(LimitPrefix(batches, n));
            Take(some, n) == Take(all, n)
  {
    if n > 0 && batches != [] {
      assert LimitPrefix(batches, n)[1..] == LimitPrefix(batches[1..], n - |batches[0]|);
      if n >= |batches[0]| {
        LimitRefinesTake(batches[1..], n - |batches[0]|);
        TakeBeyond(batches[0], Flatten(batches[1..]), n);
        TakeBeyond(batches[0], Flatten(LimitPrefix(batches[1..], n - |batches[0]|)), n);
      }
    }
  }

  function Take<T>(rows: seq<T>, n: nat): seq<T> {
    if |rows| <= n then rows else rows[..n]
  }

  lemma TakeBeyond<T>(a: seq<T>, b: seq<T>, n: nat)
    requires |a| <= n
    ensures Take(a + b, n) == a + Take(b, n - |a|)
  {
  }

  /** With filters still to come the hint would cut matches off, so it must not come together with them. */
  lemma LimitBeforeFiltersLoses<T>(miss: T, hit: T, keep: T -> bool)
    requires keep(hit) && !keep(miss)
    ensures (exists r :: r in Flatten([[miss], [hit]]) && keep(r))
            && !exists r :: r in Flatten(LimitPrefix([[miss], [hit]], 1)) && keep(r)
  {
    var batches := [[miss], [hit]];
    assert batches[1..] == [[hit]] && [[hit]][1..] == [];
    assert hit in Flatten([[hit]]);
    assert Flatten(batches)[1] == hit;
    assert LimitPrefix(batches, 1) == [[miss]] by {
      assert LimitPrefix(batches[1..], 0) == [];
    }
    assert [[miss]][1..] == [];
    assert Flatten([[miss]]) == [miss];
  }
}
