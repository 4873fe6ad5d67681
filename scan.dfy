/** The shape shared by both carving loops: visit a run of clusters in
    order, classify each, report the hits in order, and stop at the first
    cluster whose classification raised (a short read). The loops differ
    only in where the run starts and ends, how a cluster is numbered in the
    report and which classifier they call; those are parameters here. */
module Scan {
  import opened Results

  /** How a carving run ended. */
  datatype Status =
    | Completed
    /** A read ran short at the cluster reported as `cluster`; the hits
        found before it stand, nothing after it is examined. */
    | Truncated(cluster: int)
    /** The FSInfo counters were never set, so the loop cannot start
        (the program raises on the missing attribute before any read). */
    | MissingFsInfo

  /** One reported hit: the cluster number as printed, and the kind. */
  datatype Hit<K> = Hit(cluster: int, kind: K)

  datatype Carve<K> = Carve(hits: seq<Hit<K>>, status: Status)

  /** The report of a run whose i-th visited cluster classified as
      `cls[i]` and is reported with number `first + i`. Defined from the
      end, as the loop extends its report one cluster at a time. */
  function Collect<K>(cls: seq<Result<Option<K>>>, first: int): (r: Carve<K>)
    ensures |r.hits| <= |cls|
    ensures r.status == Completed || r.status.Truncated?
  {
    if cls == [] then Carve([], Completed)
    else
      var prev := Collect(cls[..|cls| - 1], first);
      var at := first + |cls| - 1;
      if prev.status != Completed then prev
      else match cls[|cls| - 1]
        case Err(_) => Carve(prev.hits, Truncated(at))
        case Ok(None) => prev
        case Ok(Some(k)) => Carve(prev.hits + [Hit(at, k)], Completed)
  }

  /** Every reported hit is a cluster of the run that classified as that
      kind, and hits come in strictly increasing cluster order. */
  lemma {:induction false} CollectSound<K>(cls: seq<Result<Option<K>>>, first: int)
    ensures var r := Collect(cls, first);
      forall h :: 0 <= h < |r.hits| ==>
        first <= r.hits[h].cluster < first + |cls| &&
        cls[r.hits[h].cluster - first] == Ok(Some(r.hits[h].kind))
    ensures var r := Collect(cls, first);
      forall i, j :: 0 <= i < j < |r.hits| ==> r.hits[i].cluster < r.hits[j].cluster
  {
    if cls != [] {
      var pre := cls[..|cls| - 1];
      CollectSound(pre, first);
      assert forall x :: 0 <= x < |pre| ==> pre[x] == cls[x];
      var last := cls[|cls| - 1];
      if Collect(pre, first).status == Completed && last.Ok? && last.value.Some? {
        var hits := Collect(cls, first).hits;
        assert hits == Collect(pre, first).hits + [Hit(first + |cls| - 1, last.value.value)];
        assert hits[|hits| - 1].cluster - first == |cls| - 1;
        assert last == Ok(Some(hits[|hits| - 1].kind));
        forall i, j | 0 <= i < j < |hits| ensures hits[i].cluster < hits[j].cluster {
          assert hits[i] == Collect(pre, first).hits[i];
          if j < |hits| - 1 {
            assert hits[j] == Collect(pre, first).hits[j];
          }
        }
      } else {
        assert Collect(cls, first).hits == Collect(pre, first).hits;
      }
    }
  }

  /** The run completes exactly when no cluster's classification raised. */
  lemma {:induction false} CollectCompletes<K>(cls: seq<Result<Option<K>>>, first: int)
    ensures Collect(cls, first).status == Completed <==> forall i :: 0 <= i < |cls| ==> cls[i].Ok?
  {
    if cls != [] {
      var pre := cls[..|cls| - 1];
      CollectCompletes(pre, first);
      assert forall x :: 0 <= x < |pre| ==> pre[x] == cls[x];
    }
  }

  /** Every cluster before the point where the run stopped (all of them,
      if it completed) that classified as a kind is reported. */
  lemma {:induction false} CollectComplete<K>(cls: seq<Result<Option<K>>>, first: int)
    ensures var r := Collect(cls, first);
      var stop := if r.status.Truncated? then r.status.cluster - first else |cls|;
      forall i :: 0 <= i < stop && 0 <= i < |cls| && cls[i].Ok? && cls[i].value.Some? ==>
        Hit(first + i, cls[i].value.value) in r.hits
  {
    if cls != [] {
      var pre := cls[..|cls| - 1];
      CollectComplete(pre, first);
      CollectStops(pre, first);
      assert forall x :: 0 <= x < |pre| ==> pre[x] == cls[x];
    }
  }

  /** A run stops at the first cluster whose classification raised, and
      every hit is reported before that cluster. */
  lemma {:induction false} CollectStops<K>(cls: seq<Result<Option<K>>>, first: int)
    ensures var r := Collect(cls, first);
      r.status.Truncated? ==>
        var n := r.status.cluster - first;
        && 0 <= n < |cls| && cls[n].Err?
        && (forall i :: 0 <= i < n ==> cls[i].Ok?)
        && (forall h :: 0 <= h < |r.hits| ==> r.hits[h].cluster < r.status.cluster)
  {
    if cls != [] {
      var pre := cls[..|cls| - 1];
      CollectStops(pre, first);
      CollectCompletes(pre, first);
      CollectSound(pre, first);
      assert forall x :: 0 <= x < |pre| ==> pre[x] == cls[x];
    }
  }

  /** Once a prefix of the run has stopped, the rest of the run changes
      nothing: the loop may return at the failing cluster. */
  lemma {:induction false} CollectStoppedPrefix<K>(cls: seq<Result<Option<K>>>, first: int, k: nat)
    requires k <= |cls| && Collect(cls[..k], first).status != Completed
    ensures Collect(cls, first) == Collect(cls[..k], first)
    decreases |cls| - k
  {
    if k < |cls| {
      var pre := cls[..|cls| - 1];
      assert pre[..k] == cls[..k];
      CollectStoppedPrefix(pre, first, k);
    } else {
      assert cls[..k] == cls;
    }
  }

  /** Extending a completed prefix by one cluster is one step of the loop. */
  lemma CollectStep<K>(cls: seq<Result<Option<K>>>, first: int, i: nat)
    requires i < |cls| && Collect(cls[..i], first).status == Completed
    ensures var prev := Collect(cls[..i], first);
      Collect(cls[..i + 1], first) == match cls[i]
        case Err(_) => Carve(prev.hits, Truncated(first + i))
        case Ok(None) => prev
        case Ok(Some(k)) => Carve(prev.hits + [Hit(first + i, k)], Completed)
  {
    assert cls[..i + 1][..i] == cls[..i];
  }

  /** A run in which no cluster carries a signature completes with no
      hits. */
  lemma {:induction false} CollectQuiet<K>(cls: seq<Result<Option<K>>>, first: int)
    requires forall i :: 0 <= i < |cls| ==> cls[i] == Ok(None)
    ensures Collect(cls, first) == Carve([], Completed)
  {
    if cls != [] {
      CollectQuiet(cls[..|cls| - 1], first);
    }
  }

  /** A run in which exactly the `j`-th cluster carries a signature
      completes with that one hit. */
  lemma {:induction false} CollectLone<K>(cls: seq<Result<Option<K>>>, first: int, j: nat, k: K)
    requires j < |cls| && cls[j] == Ok(Some(k))
    requires forall i :: 0 <= i < |cls| && i != j ==> cls[i] == Ok(None)
    ensures Collect(cls, first) == Carve([Hit(first + j, k)], Completed)
  {
    var pre := cls[..|cls| - 1];
    if j == |cls| - 1 {
      CollectQuiet(pre, first);
    } else {
      CollectLone(pre, first, j, k);
    }
  }

  // ----- a run over consecutive clusters -----

  /** The byte offset of the `n`-th cluster the loop visits when it starts
      at `first` and moves `step` bytes per cluster. */
  function OffsetAt(first: nat, step: nat, n: nat): nat
  {
    if n == 0 then first else OffsetAt(first, step, n - 1) + step
  }

  /** The classifications of the first `count` clusters the loop visits. */
  function Visit<K>(classify: nat -> Result<Option<K>>, first: nat, step: nat, count: nat): (r: seq<Result<Option<K>>>)
    ensures |r| == count
  {
    seq(count, i requires 0 <= i < count => classify(OffsetAt(first, step, i)))
  }

  /** The report of a loop that visits `count` clusters from byte `first`,
      `step` bytes apart, and reports the i-th of them as `number + i`. */
  function Run<K>(classify: nat -> Result<Option<K>>, first: nat, step: nat, count: nat, number: int): Carve<K>
  {
    Collect(Visit(classify, first, step, count), number)
  }

  /** Visiting one more cluster after a completed prefix is one loop step. */
  lemma RunStep<K>(classify: nat -> Result<Option<K>>, first: nat, step: nat, n: nat, number: int,
                   next: Result<Option<K>>)
    requires Run(classify, first, step, n, number).status == Completed
    requires classify(OffsetAt(first, step, n)) == next
    ensures var prev := Run(classify, first, step, n, number);
      Run(classify, first, step, n + 1, number) == match next
        case Err(_) => Carve(prev.hits, Truncated(number + n))
        case Ok(None) => prev
        case Ok(Some(k)) => Carve(prev.hits + [Hit(number + n, k)], Completed)
  {
    var cls := Visit(classify, first, step, n + 1);
    assert cls[..n] == Visit(classify, first, step, n);
    CollectStep(cls, number, n);
  }

  /** A run that has stopped stays stopped: visiting more clusters
      changes nothing, so the loop may return at once. */
  lemma RunStoppedPrefix<K>(classify: nat -> Result<Option<K>>, first: nat, step: nat, n: nat, m: nat, number: int)
    requires n <= m && Run(classify, first, step, n, number).status != Completed
    ensures Run(classify, first, step, m, number) == Run(classify, first, step, n, number)
  {
    var cls := Visit(classify, first, step, m);
    assert cls[..n] == Visit(classify, first, step, n);
    CollectStoppedPrefix(cls, number, n);
  }

  /** Hits come in strictly increasing cluster order. */
  lemma RunOrdered<K>(classify: nat -> Result<Option<K>>, first: nat, step: nat, count: nat, number: int)
    ensures var r := Run(classify, first, step, count, number);
      forall i, j :: 0 <= i < j < |r.hits| ==> r.hits[i].cluster < r.hits[j].cluster
  {
    var cls := Visit(classify, first, step, count);
    CollectSound(cls, number);
    var r := Run(classify, first, step, count, number);
    assert r == Collect(cls, number);
    forall i, j | 0 <= i < j < |r.hits| ensures r.hits[i].cluster < r.hits[j].cluster {
      assert Collect(cls, number).hits[i] == r.hits[i];
    }
  }

  /** Every hit is the number of a visited cluster whose offset classified
      as the hit's kind. */
  lemma RunSound<K>(classify: nat -> Result<Option<K>>, first: nat, step: nat, count: nat, number: int)
    ensures var r := Run(classify, first, step, count, number);
      forall h :: 0 <= h < |r.hits| ==>
        0 <= r.hits[h].cluster - number < count &&
        classify(OffsetAt(first, step, r.hits[h].cluster - number)) == Ok(Some(r.hits[h].kind))
  {
    var cls := Visit(classify, first, step, count);
    CollectSound(cls, number);
    var r := Run(classify, first, step, count, number);
    forall h | 0 <= h < |r.hits|
      ensures 0 <= r.hits[h].cluster - number < count &&
        classify(OffsetAt(first, step, r.hits[h].cluster - number)) == Ok(Some(r.hits[h].kind))
    {
      assert Collect(cls, number).hits[h] == r.hits[h];
      assert cls[r.hits[h].cluster - number] == classify(OffsetAt(first, step, r.hits[h].cluster - number));
    }
  }

  /** A run completes exactly when no visited cluster's classification
      raised. */
  lemma RunCompletes<K>(classify: nat -> Result<Option<K>>, first: nat, step: nat, count: nat, number: int)
    ensures Run(classify, first, step, count, number).status == Completed <==>
      forall i :: 0 <= i < count ==> classify(OffsetAt(first, step, i)).Ok?
  {
    var cls := Visit(classify, first, step, count);
    CollectCompletes(cls, number);
    if Run(classify, first, step, count, number).status == Completed {
      forall i | 0 <= i < count ensures classify(OffsetAt(first, step, i)).Ok? {
        assert cls[i].Ok?;
      }
    } else {
      var i :| 0 <= i < |cls| && !cls[i].Ok?;
      assert !classify(OffsetAt(first, step, i)).Ok?;
    }
  }

  /** A completed run reports every visited cluster that classified as a
      kind, under its number. */
  lemma RunComplete<K>(classify: nat -> Result<Option<K>>, first: nat, step: nat, count: nat, number: int)
    ensures var r := Run(classify, first, step, count, number);
      r.status == Completed ==>
        forall i, k :: 0 <= i < count && classify(OffsetAt(first, step, i)) == Ok(Some(k)) ==>
          Hit(number + i, k) in r.hits
  {
    var cls := Visit(classify, first, step, count);
    CollectComplete(cls, number);
    var r := Run(classify, first, step, count, number);
    if r.status == Completed {
      forall i, k | 0 <= i < count && classify(OffsetAt(first, step, i)) == Ok(Some(k))
        ensures Hit(number + i, k) in r.hits
      {
        assert cls[i] == Ok(Some(k));
      }
    }
  }

  /** A truncated run still reports every visited cluster before the one
      where it stopped that classified as a kind, under its number. */
  lemma RunTruncatedComplete<K>(classify: nat -> Result<Option<K>>, first: nat, step: nat, count: nat, number: int)
    ensures var r := Run(classify, first, step, count, number);
      r.status.Truncated? ==>
        forall i, k :: 0 <= i < r.status.cluster - number && classify(OffsetAt(first, step, i)) == Ok(Some(k)) ==>
          Hit(number + i, k) in r.hits
  {
    var cls := Visit(classify, first, step, count);
    CollectComplete(cls, number);
    CollectStops(cls, number);
    var r := Run(classify, first, step, count, number);
    if r.status.Truncated? {
      forall i, k | 0 <= i < r.status.cluster - number && classify(OffsetAt(first, step, i)) == Ok(Some(k))
        ensures Hit(number + i, k) in r.hits
      {
        assert i < count;
        assert cls[i] == Ok(Some(k));
      }
    }
  }

  /** A run stops only at a visited cluster whose classification raised,
      after every cluster before it classified. */
  lemma RunStops<K>(classify: nat -> Result<Option<K>>, first: nat, step: nat, count: nat, number: int)
    ensures var r := Run(classify, first, step, count, number);
      r.status.Truncated? ==>
        && 0 <= r.status.cluster - number < count
        && classify(OffsetAt(first, step, r.status.cluster - number)).Err?
        && forall i :: 0 <= i < r.status.cluster - number ==> classify(OffsetAt(first, step, i)).Ok?
  {
    var cls := Visit(classify, first, step, count);
    CollectStops(cls, number);
    var r := Run(classify, first, step, count, number);
    if r.status.Truncated? {
      assert cls[r.status.cluster - number] == classify(OffsetAt(first, step, r.status.cluster - number));
      forall i | 0 <= i < r.status.cluster - number ensures classify(OffsetAt(first, step, i)).Ok? {
        assert cls[i] == classify(OffsetAt(first, step, i));
      }
    }
  }

  // ----- the loop -----

  /** The carving loop shared by both copies: from byte `first`, read and
      classify one cluster, report a hit as `number` plus the clusters
      already visited, move `step` bytes on, `count` times; stop at the
      first classification that raises, keeping the hits printed so far. */
  method Sweep<K>(classify: nat -> Result<Option<K>>, first: nat, step: nat, count: nat, number: int)
    returns (r: Carve<K>)
    ensures r == Run(classify, first, step, count, number)
  {
    var n := 0;
    var offset := first;
    var hits: seq<Hit<K>> := [];
    while n < count
      invariant n <= count && offset == OffsetAt(first, step, n)
      invariant Run(classify, first, step, n, number) == Carve(hits, Completed)
    {
      var sig := classify(offset);
      RunStep(classify, first, step, n, number, sig);
      if sig.Err? {
        RunStoppedPrefix(classify, first, step, n + 1, count, number);
        return Carve(hits, Truncated(number + n));
      }
      if sig.value.Some? {
        hits := hits + [Hit(number + n, sig.value.value)];
      }
      n := n + 1;
      offset := offset + step;
    }
    r := Carve(hits, Completed);
  }
}
