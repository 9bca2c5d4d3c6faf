/** Pushing the changed files of a memory tree in batches that fit one request. */
module PushBatches {

  /** A file of the walk: its size, and whether its hash differs from the server's copy. */
  datatype File = File(path: string, size: nat, changed: bool)

  const PUSH_MAX_FILES := 200
  const MEBIBYTE := 0x10_0000
  const PUSH_MAX_BYTES := 6 * MEBIBYTE

  datatype Outcome = Pushed(pushed: nat, kept: nat) | PushFailed

  function Bytes(batch: seq<File>): nat {
    if batch == [] then 0 else Bytes(batch[..|batch| - 1]) + batch[|batch| - 1].size
  }

  function Concat(batches: seq<seq<File>>): seq<File> {
    if batches == [] then [] else Concat(batches[..|batches| - 1]) + batches[|batches| - 1]
  }

  /** The files that are sent: changed, and no larger than one mebibyte. */
  function ToSend(files: seq<File>): seq<File> {
    if files == [] then []
    else
      var f := files[|files| - 1];
      ToSend(files[..|files| - 1]) + (if f.changed && f.size <= 1024 * 1024 then [f] else [])
  }

  function Unchanged(files: seq<File>): nat {
    if files == [] then 0 else Unchanged(files[..|files| - 1]) + (if files[|files| - 1].changed then 0 else 1)
  }

  predicate Fits(batch: seq<File>) {
    |batch| <= 200 && Bytes(batch) <= 6 * 1024 * 1024
  }

  /** A batch another file would not have fitted. */
  predicate Full(batch: seq<File>) {
    |batch| == 200 || Bytes(batch) > 5 * 1024 * 1024
  }

  /** Every request fits, and every request before the last is full. */
  predicate Packed(batches: seq<seq<File>>) {
    && (forall b <- batches :: Fits(b))
    && (forall i :: 0 <= i < |batches| - 1 ==> Full(batches[i]))
  }

  /**
   * The push: `accepts(i)` says whether the server takes the i-th request. On success the
   * requests concatenated are exactly the changed files of at most one mebibyte, each once
   * and in walk order; each fits, and each but the last is full.
   */
  method PushMemory(files: seq<File>, agents: seq<string>, accepts: nat -> bool)
    returns (r: Outcome, batches: seq<seq<File>>)
    ensures Packed(batches)
    ensures r.Pushed? ==> Concat(batches) == ToSend(files)
    ensures r.Pushed? ==> r.pushed == |ToSend(files)| && r.kept == Unchanged(files)
    ensures r.Pushed? ==> forall i :: 0 <= i < |batches| ==> accepts(i)
    ensures r.Pushed? ==> (batches == [] <==> ToSend(files) == [] && agents == [])
    ensures r.PushFailed? ==> batches != [] && !accepts(|batches| - 1)
    ensures r.PushFailed? ==> Concat(batches) <= ToSend(files)
  {
    hide Full, Fits, Bytes, Concat, ToSend, Unchanged, Packed;
    batches := [];
    var batch: seq<File> := [];
    var size, pushed, kept := 0, 0, 0;
    StartFacts();
    for i := 0 to |files|
      invariant Concat(batches) + batch == ToSend(files[..i])
      invariant size == Bytes(batch) && Fits(batch)
      invariant Packed(batches) && (batches != [] ==> Full(batches[|batches| - 1]) && batch != [])
      invariant pushed == |Concat(batches)| && kept == Unchanged(files[..i])
      invariant forall j :: 0 <= j < |batches| ==> accepts(j)
    {
      var f := files[i];
      NextFile(files, i);
      if !f.changed {
        kept := kept + 1;
      } else if f.size <= MEBIBYTE {
        if |batch| >= PUSH_MAX_FILES || size + f.size > PUSH_MAX_BYTES {
          NoRoomIsFull(batch, f);
          ConcatOne(batches, batch);
          PackedOne(batches, batch);
          batches := batches + [batch];
          if !accepts(|batches| - 1) {
            ToSendPrefix(files, i);
            return PushFailed, batches;
          }
          pushed := pushed + |batch|;
          batch, size := [], 0;
          StartFacts();
          assert Concat(batches) + [] == Concat(batches);
        }
        AddFile(batch, f);
        assert Concat(batches) + (batch + [f]) == Concat(batches) + batch + [f];
        batch := batch + [f];
        size := size + f.size;
      }
    }
    assert files[..|files|] == files;
    ghost var all := Concat(batches) + batch;
    if batch != [] || agents != [] {
      ConcatOne(batches, batch);
      PackedOne(batches, batch);
      batches := batches + [batch];
      if !accepts(|batches| - 1) { return PushFailed, batches; }
      pushed := pushed + |batch|;
    } else {
      assert Concat(batches) + [] == Concat(batches);
    }
    return Pushed(pushed, kept), batches;
  }

  lemma StartFacts()
    ensures Concat([]) == [] && ToSend([]) == [] && Bytes([]) == 0 && Unchanged([]) == 0
    ensures Fits([]) && Packed([])
  {}

  lemma NextFile(files: seq<File>, i: nat)
    requires i < |files|
    ensures var f := files[i];
            && ToSend(files[..i + 1]) == ToSend(files[..i]) + (if f.changed && f.size <= MEBIBYTE then [f] else [])
            && Unchanged(files[..i + 1]) == Unchanged(files[..i]) + (if f.changed then 0 else 1)
  {
    assert files[..i + 1][..i] == files[..i];
  }

  lemma NoRoomIsFull(batch: seq<File>, f: File)
    requires Fits(batch) && f.size <= MEBIBYTE
    requires |batch| >= PUSH_MAX_FILES || Bytes(batch) + f.size > PUSH_MAX_BYTES
    ensures Full(batch) && batch != []
  {}

  lemma AddFile(batch: seq<File>, f: File)
    ensures Bytes(batch + [f]) == Bytes(batch) + f.size
    ensures |batch| < PUSH_MAX_FILES && Bytes(batch) + f.size <= PUSH_MAX_BYTES ==> Fits(batch + [f])
  {
    assert (batch + [f])[..|batch|] == batch;
  }

  lemma PackedOne(batches: seq<seq<File>>, batch: seq<File>)
    requires Packed(batches) && Fits(batch) && (batches != [] ==> Full(batches[|batches| - 1]))
    ensures Packed(batches + [batch])
  {
    hide Full, Fits;
  }

  lemma ConcatOne(batches: seq<seq<File>>, batch: seq<File>)
    ensures Concat(batches + [batch]) == Concat(batches) + batch
  {
    assert (batches + [batch])[..|batches|] == batches;
  }

  lemma {:induction false} ToSendPrefix(files: seq<File>, k: nat)
    requires k <= |files|
    ensures ToSend(files[..k]) <= ToSend(files)
    decreases |files|
  {
    if k == |files| {
      assert files[..k] == files;
    } else {
      ToSendPrefix(files[..|files| - 1], k);
      assert files[..|files| - 1][..k] == files[..k];
    }
  }

  lemma {:induction false} BytesSplit(a: seq<File>, b: seq<File>)
    ensures Bytes(a + b) == Bytes(a) + Bytes(b)
    decreases |b|
  {
    if b == [] {
      assert a + b == a;
    } else {
      assert (a + b)[..|a + b| - 1] == a + b[..|b| - 1];
      BytesSplit(a, b[..|b| - 1]);
    }
  }

  lemma OneMore(n: nat, size: nat, before: nat, more: nat)
    requires n * size <= before && size <= more
    ensures (n + 1) * size <= before + more
  {}

  /** Full batches number at most one per 200 files and one per five mebibytes. */
  lemma {:induction false} FullBatches(batches: seq<seq<File>>)
    returns (byCount: nat, bySize: nat)
    requires forall b <- batches :: Full(b)
    ensures |batches| == byCount + bySize
    ensures byCount * 200 <= |Concat(batches)|
    ensures bySize * (5 * 1024 * 1024) <= Bytes(Concat(batches))
  {
    if batches == [] {
      byCount, bySize := 0, 0;
    } else {
      var front, last := batches[..|batches| - 1], batches[|batches| - 1];
      byCount, bySize := FullBatches(front);
      BytesSplit(Concat(front), last);
      assert last in batches;
      var whole := Concat(batches);
      assert whole == Concat(front) + last;
      if |last| == PUSH_MAX_FILES {
        OneMore(byCount, PUSH_MAX_FILES, |Concat(front)|, |last|);
        byCount := byCount + 1;
      } else {
        OneMore(bySize, PUSH_MAX_BYTES - MEBIBYTE, Bytes(Concat(front)), Bytes(last));
        bySize := bySize + 1;
      }
    }
  }

  /** The number of requests: at most one more than files / 200 plus bytes / 5 MiB. */
  lemma RequestBound(batches: seq<seq<File>>)
    requires Packed(batches)
    ensures var all := Concat(batches);
            |batches| <= 1 + |all| / PUSH_MAX_FILES + Bytes(all) / (PUSH_MAX_BYTES - MEBIBYTE)
  {
    if batches != [] {
      var front, last := batches[..|batches| - 1], batches[|batches| - 1];
      forall b | b in front
        ensures Full(b)
      {
        var i :| 0 <= i < |front| && front[i] == b;
        assert batches[i] == b;
      }
      var byCount, bySize := FullBatches(front);
      BytesSplit(Concat(front), last);
      Quotient(byCount, PUSH_MAX_FILES, |Concat(batches)|);
      Quotient(bySize, PUSH_MAX_BYTES - MEBIBYTE, Bytes(Concat(batches)));
    }
  }

  lemma Quotient(q: nat, d: nat, n: nat)
    requires d > 0 && q * d <= n
    ensures q <= n / d
  {
    var k := n / d;
    assert n < (k + 1) * d;
    Product(k + 1, q, d);
  }

  lemma Product(a: nat, b: nat, d: nat)
    ensures a <= b ==> a * d <= b * d
  {
    if a <= b {
      assert b * d == a * d + (b - a) * d;
    }
  }
}
