/**
 * The batched insert at the end of both `save_results_to_db` routines:
 *
 *     for i in range(0, len(data), batch_size):
 *         batch = data[i:i + batch_size]
 *         executemany + commit, or rollback and re-raise
 *
 * The database is a parameter `write(k, batch)` that says whether the
 * `executemany` and `commit` of batch number `k` succeed.
 */
module Batches {

  /** `(n + batch_size - 1) // batch_size`, the number of batches announced. */
  function BatchCount(n: nat, size: nat): nat
    requires size > 0
  {
    (n + size - 1) / size
  }

  /**
   * The batches of the loop, in order: `data[0:size]`, `data[size:2 * size]`,
   * …, the last one clamped at the end of the data as Python's slices are.
   */
  function Chunks<R>(rows: seq<R>, size: nat): seq<seq<R>>
    requires size > 0
    decreases |rows|
  {
    if rows == [] then []
    else if |rows| <= size then [rows]
    else [rows[..size]] + Chunks(rows[size..], size)
  }

  /** The concatenation of a sequence of batches. */
  function Flatten<R>(bs: seq<seq<R>>): seq<R> {
    if bs == [] then [] else bs[0] + Flatten(bs[1..])
  }

  lemma {:induction false} FlattenAppend<R>(a: seq<seq<R>>, b: seq<seq<R>>)
    ensures Flatten(a + b) == Flatten(a) + Flatten(b)
  {
    if a == [] {
      assert a + b == b;
    } else {
      assert (a + b)[0] == a[0] && (a + b)[1..] == a[1..] + b;
      calc {
        Flatten(a + b);
        a[0] + Flatten(a[1..] + b);
        { FlattenAppend(a[1..], b); }
        a[0] + (Flatten(a[1..]) + Flatten(b));
        (a[0] + Flatten(a[1..])) + Flatten(b);
      }
    }
  }

  lemma DivStep(m: nat, size: nat)
    requires size > 0
    ensures (m + size) / size == m / size + 1
  {
    var q, r := m / size, m % size;
    var q', r' := (m + size) / size, (m + size) % size;
    assert (q' - q - 1) * size == r - r' by {
      assert m == q * size + r;
      assert m + size == q' * size + r';
    }
    var d := q' - q - 1;
    if d >= 1 {
    } else if d <= -1 {
    }
  }

  /** There are `(n + size - 1) // size` batches, as the progress messages announce. */
  lemma {:induction false} ChunkCount<R>(rows: seq<R>, size: nat)
    requires size > 0
    ensures |Chunks(rows, size)| == BatchCount(|rows|, size)
    decreases |rows|
  {
    if rows == [] {
      assert (size - 1) / size == 0;
    } else if |rows| <= size {
      BatchOne(|rows|, size);
    } else {
      ChunkCount(rows[size..], size);
      BatchStep(|rows|, size);
    }
  }

  /** Up to `size` rows make one batch. */
  lemma BatchOne(n: nat, size: nat)
    requires 0 < n <= size
    ensures BatchCount(n, size) == 1
  {
    DivStep(n - 1, size);
    assert (n - 1) / size == 0;
    assert n + size - 1 == (n - 1) + size;
  }

  /** Taking one full batch off leaves one batch fewer. */
  lemma BatchStep(n: nat, size: nat)
    requires 0 < size < n
    ensures BatchCount(n, size) == BatchCount(n - size, size) + 1
  {
    DivStep(n - 1, size);
    assert n + size - 1 == (n - 1) + size;
    assert (n - size) + size - 1 == n - 1;
  }

  /** Every batch holds between 1 and `size` rows, and every batch but the last exactly `size`. */
  lemma {:induction false} ChunkSizes<R>(rows: seq<R>, size: nat)
    requires size > 0
    ensures forall k :: 0 <= k < |Chunks(rows, size)| ==> 1 <= |Chunks(rows, size)[k]| <= size
    ensures forall k :: 0 <= k < |Chunks(rows, size)| - 1 ==> |Chunks(rows, size)[k]| == size
    decreases |rows|
  {
    if |rows| > size {
      ChunkSizes(rows[size..], size);
      var cs := Chunks(rows, size);
      assert forall k :: 1 <= k < |cs| ==> cs[k] == Chunks(rows[size..], size)[k - 1];
    }
  }

  /** The batches cover every row once, in order: their concatenation is the whole list. */
  lemma {:induction false} ChunksFlatten<R>(rows: seq<R>, size: nat)
    requires size > 0
    ensures Flatten(Chunks(rows, size)) == rows
    decreases |rows|
  {
    if rows == [] {
    } else if |rows| <= size {
      assert Flatten([rows]) == rows + Flatten([]);
    } else {
      ChunksFlatten(rows[size..], size);
      var cs := Chunks(rows, size);
      assert cs[1..] == Chunks(rows[size..], size);
      assert rows[..size] + rows[size..] == rows;
    }
  }

  /** `executemany` + `commit` of every batch went through, or batch `batch` failed and was rolled back. */
  datatype Outcome = Saved | Failed(batch: nat)

  /**
   * The batch loop. Batches are written in order; the first failure is
   * rolled back and re-raised, so `committed` holds exactly the batches that
   * reached the table and no later batch is attempted.
   */
  method WriteInBatches<R>(rows: seq<R>, size: nat, write: (nat, seq<R>) -> bool)
    returns (committed: seq<seq<R>>, outcome: Outcome)
    requires size > 0
    ensures |committed| <= |Chunks(rows, size)|
    ensures committed == Chunks(rows, size)[..|committed|]
    ensures forall k :: 0 <= k < |committed| ==> write(k, committed[k])
    ensures outcome.Saved? ==> committed == Chunks(rows, size)
    ensures outcome.Failed? ==>
      (outcome.batch == |committed| < |Chunks(rows, size)|
       && !write(outcome.batch, Chunks(rows, size)[outcome.batch]))
  {
    ghost var all := Chunks(rows, size);
    committed := [];
    var i := 0;
    while i < |rows|
      invariant i <= |rows|
      invariant committed + Chunks(rows[i..], size) == all
      invariant forall k :: 0 <= k < |committed| ==> write(k, committed[k])
      decreases |rows| - i
    {
      var batch := rows[i..Min(i + size, |rows|)];
      ChunksFrom(rows, size, i);
      ghost var rest := Chunks(rows[Min(i + size, |rows|)..], size);
      assert all == (committed + [batch]) + rest;
      if !write(|committed|, batch) {
        outcome := Failed(|committed|);
        NextOf(all, committed, batch, rest);
        return;
      }
      committed := committed + [batch];
      i := Min(i + size, |rows|);
    }
    assert rows[i..] == [];
    outcome := Saved;
  }

  /** In `all == done + [next] + rest`, `next` follows the prefix `done`. */
  lemma NextOf<T>(all: seq<T>, done: seq<T>, next: T, rest: seq<T>)
    requires all == (done + [next]) + rest
    ensures |done| < |all| && all[|done|] == next && all[..|done|] == done
  {
    assert all[..|done|] == (done + [next])[..|done|];
  }

  /** The batch starting at offset `i` is the slice there, followed by the batches after it. */
  lemma ChunksFrom<R>(rows: seq<R>, size: nat, i: nat)
    requires size > 0 && i < |rows|
    ensures Chunks(rows[i..], size)
      == [rows[i..Min(i + size, |rows|)]] + Chunks(rows[Min(i + size, |rows|)..], size)
  {
    var t := rows[i..];
    if |t| > size {
      assert t[..size] == rows[i..i + size];
      assert t[size..] == rows[i + size..];
    } else {
      assert t == rows[i..Min(i + size, |rows|)];
      assert rows[Min(i + size, |rows|)..] == [];
    }
  }

  function Min(a: int, b: int): int {
    if a <= b then a else b
  }

  /** A run that saved everything leaves every row in the table, once and in order. */
  lemma SavedAllRows<R>(rows: seq<R>, size: nat, committed: seq<seq<R>>)
    requires size > 0 && committed == Chunks(rows, size)
    ensures Flatten(committed) == rows
    ensures |committed| == BatchCount(|rows|, size)
  {
    ChunksFlatten(rows, size);
    ChunkCount(rows, size);
  }

  /** A failed run leaves a prefix of the rows in the table: the batches before the failing one. */
  lemma FailedPrefix<R>(rows: seq<R>, size: nat, committed: seq<seq<R>>)
    requires size > 0 && |committed| <= |Chunks(rows, size)|
    requires committed == Chunks(rows, size)[..|committed|]
    ensures |Flatten(committed)| <= |rows| && Flatten(committed) == rows[..|Flatten(committed)|]
  {
    var cs := Chunks(rows, size);
    assert cs == committed + cs[|committed|..];
    FlattenAppend(committed, cs[|committed|..]);
    ChunksFlatten(rows, size);
  }
}
