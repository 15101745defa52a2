/**
 * The inner hash join operator. It first builds: it receives the hash map
 * of the build side and then the build batches, which are chunks of a
 * fixed size. It then probes: for every probe batch it looks each row up
 * in the hash map and emits one output row per matching build row. A
 * probe call stops at the first chunk start where the output already holds
 * a full batch, and the next call resumes from that row.
 *
 * The hash map and the expression evaluator are not modelled:
 * - the lookup of every probe row is given with the probe batch;
 * - the row groups of the map (`Sels`) are a map from the group index;
 * - the residual join condition is given per pair, with null as no value.
 * The registers are scripted sequences of messages (see `Common`).
 */
module HashJoin {
  import opened Common

  /**
   * The hash map's answer for one probe row: whether the row's bucket is
   * in use, whether its key has no null, and the 1-based group index
   * (0 means no match).
   */
  datatype Lookup = Lookup(inBucket: bool, zval: bool, val: nat)

  /** The build side's hash map: the build row ids of each group. */
  datatype HashMap = HashMap(sels: map<nat, seq<nat>>)

  /** The build row ids of group `k`; the map has no other groups, so any other index is an empty group. */
  function Group(m: HashMap, k: nat): seq<nat>
  {
    if k in m.sels then m.sels[k] else []
  }

  /**
   * A batch as it travels through a register. A build batch may carry the
   * hash map as auxiliary data. A probe batch carries one lookup per row,
   * and the residual condition on the (probe row, build row id) pairs,
   * where a pair without a value is SQL null.
   */
  datatype Batch = Batch(
    rowCount: nat,
    last: bool,
    aux: Option<HashMap>,
    lookups: seq<Lookup>,
    cond: map<(nat, nat), bool>)

  /** The residual condition on a pair: its value, or `None` (null) when the pair has none. */
  function Cond(b: Batch, row: nat, id: nat): Option<bool>
  {
    if (row, id) in b.cond then Some(b.cond[(row, id)]) else None
  }

  /** An output row: a probe row joined with the build row of id `buildRow` (see `Locate`). */
  datatype OutRow = OutRow(probeRow: nat, buildRow: nat)

  /** What a call returns: a forwarded probe batch, or the joined rows and the declared row count. */
  datatype Output = Forward(batch: Batch) | Joined(rows: seq<OutRow>, rowCount: nat)

  datatype JoinState = Build | Probe | End

  /**
   * The operator's settings: whether the join key is the build side's
   * primary key, whether there is a residual condition, whether the join
   * is a shuffle join, and the constants `UnitLimit` (rows per hash-map
   * lookup) and `DefaultBatchSize` (rows per batch).
   */
  datatype Config = Config(hashOnPK: bool, hasCond: bool, isShuffle: bool, unitLimit: nat, batchSize: nat)

  predicate ValidConfig(c: Config)
  {
    c.unitLimit > 0 && c.batchSize > 0
  }

  /** A probe batch holds one lookup per row. */
  predicate WellFormedProbe(b: Batch)
  {
    |b.lookups| == b.rowCount
  }

  /** Every batch in a probe register's script is well formed. */
  predicate WellFormedProbeScript(script: seq<Message<Batch>>)
  {
    forall i :: 0 <= i < |script| && script[i].batch.Some? ==> WellFormedProbe(script[i].batch.value)
  }

  // ----- Build side -----

  /** The total number of rows of the batches. */
  function RowSum(bs: seq<Batch>): nat
  {
    if |bs| == 0 then 0 else RowSum(bs[..|bs| - 1]) + bs[|bs| - 1].rowCount
  }

  /** Every batch but the last has exactly `size` rows. */
  predicate ChunksFull(bs: seq<Batch>, size: nat)
  {
    forall i :: 0 <= i && i + 1 < |bs| ==> bs[i].rowCount == size
  }

  /** What a run of build-side receives collects, why it stopped, and where the register is then. */
  datatype BuildScan = BuildScan(batches: seq<Batch>, err: Option<Error>, next: nat)

  /**
   * The batches received from `pos` on, in arrival order, up to the first
   * message that carries an error or no batch.
   */
  function ScanBuild(script: seq<Message<Batch>>, pos: nat): BuildScan
    decreases |script| - pos
  {
    var m := At(script, pos);
    if m.err.Some? || m.batch.None? then BuildScan([], m.err, Next(script, pos))
    else
      var rest := ScanBuild(script, pos + 1);
      BuildScan([m.batch.value] + rest.batches, rest.err, rest.next)
  }

  /**
   * The scan collects exactly the batches of the messages from `pos` on,
   * in order, and stops at the first message with an error or without a
   * batch, passing that error on.
   */
  lemma {:induction false} ScanBuildMessages(script: seq<Message<Batch>>, pos: nat)
    ensures |ScanBuild(script, pos).batches| > 0 ==> pos + |ScanBuild(script, pos).batches| <= |script|
    ensures forall k :: 0 <= k < |ScanBuild(script, pos).batches| ==>
      script[pos + k] == Message(Some(ScanBuild(script, pos).batches[k]), None)
    ensures ScanBuild(script, pos).err == At(script, pos + |ScanBuild(script, pos).batches|).err
    ensures ScanBuild(script, pos).err.None? ==> At(script, pos + |ScanBuild(script, pos).batches|).batch.None?
    ensures ScanBuild(script, pos).next == Next(script, pos + |ScanBuild(script, pos).batches|)
    decreases |script| - pos
  {
    var n := |ScanBuild(script, pos).batches|;
    if n > 0 {
      ScanBuildAt(script, pos, n - 1);
    }
    forall k | 0 <= k < n
      ensures script[pos + k] == Message(Some(ScanBuild(script, pos).batches[k]), None)
    {
      ScanBuildAt(script, pos, k);
    }
    var m := At(script, pos);
    if m.err.None? && m.batch.Some? {
      ScanBuildMessages(script, pos + 1);
      var r, rest := ScanBuild(script, pos), ScanBuild(script, pos + 1);
      assert r.batches == [m.batch.value] + rest.batches;
      assert pos + |r.batches| == pos + 1 + |rest.batches|;
    }
  }

  /** The `k`-th collected batch is that of the `k`-th message from `pos`, which carries no error. */
  lemma {:induction false} ScanBuildAt(script: seq<Message<Batch>>, pos: nat, k: nat)
    requires k < |ScanBuild(script, pos).batches|
    ensures pos + k < |script| && script[pos + k] == Message(Some(ScanBuild(script, pos).batches[k]), None)
    decreases k
  {
    var m := At(script, pos);
    assert m.err.None? && m.batch.Some?;
    var rest := ScanBuild(script, pos + 1);
    assert ScanBuild(script, pos).batches == [m.batch.value] + rest.batches;
    if k == 0 {
      assert script[pos] == m;
    } else {
      ScanBuildAt(script, pos + 1, k - 1);
      assert pos + 1 + (k - 1) == pos + k;
    }
  }

  /** A message with a batch and no error is collected, and the scan goes on after it. */
  lemma ScanBuildStep(script: seq<Message<Batch>>, pos: nat)
    requires At(script, pos).err.None? && At(script, pos).batch.Some?
    ensures pos < |script| && Next(script, pos) == pos + 1
    ensures ScanBuild(script, pos).batches == [At(script, pos).batch.value] + ScanBuild(script, pos + 1).batches
    ensures ScanBuild(script, pos).err == ScanBuild(script, pos + 1).err
    ensures ScanBuild(script, pos).next == ScanBuild(script, pos + 1).next
  {
  }

  /** A message with an error or without a batch ends the scan. */
  lemma ScanBuildStop(script: seq<Message<Batch>>, pos: nat)
    requires At(script, pos).err.Some? || At(script, pos).batch.None?
    ensures ScanBuild(script, pos) == BuildScan([], At(script, pos).err, Next(script, pos))
  {
  }

  /** What `build` leaves: the hash map it received (if any), the build batches, its error and the register position. */
  datatype BuildResult = BuildResult(aux: Option<HashMap>, batches: seq<Batch>, err: Option<Error>, next: nat)

  /**
   * The effect of `build` from register position `pos` with the batches
   * `batches0` already held: the first message gives the hash map, the
   * scan after it the build batches, then the chunk check.
   */
  function BuildOutcome(script: seq<Message<Batch>>, pos: nat, batches0: seq<Batch>, size: nat): (r: BuildResult)
    ensures r.err.None? ==> ChunksFull(r.batches, size)
    ensures r.err.None? ==> At(script, pos).err.None? && ScanBuild(script, Next(script, pos)).err.None?
  {
    var msg := At(script, pos);
    if msg.err.Some? then BuildResult(None, batches0, msg.err, Next(script, pos))
    else
      var aux := if msg.batch.Some? then msg.batch.value.aux else None;
      var sc := ScanBuild(script, Next(script, pos));
      var all := batches0 + sc.batches;
      var err := if sc.err.Some? then sc.err else if !ChunksFull(all, size) then Some(WrongBuildBatch) else None;
      BuildResult(aux, all, err, sc.next)
  }

  /** A place in the build batches: the batch (chunk) and the row in it. */
  datatype Slot = Slot(chunk: nat, offset: nat)

  /** Where build row `id` is read from: chunk `id / size`, offset `id % size`. */
  function Locate(size: nat, id: nat): (s: Slot)
    requires size > 0
    ensures s.chunk * size + s.offset == id && s.offset < size
  {
    Slot(id / size, id % size)
  }

  /**
   * When every chunk but the last is full and the last is not larger, a
   * build row id below the total row count names a chunk that exists and
   * an offset inside it.
   */
  lemma LocateInBounds(bs: seq<Batch>, size: nat, id: nat)
    requires size > 0 && ChunksFull(bs, size)
    requires |bs| > 0 ==> bs[|bs| - 1].rowCount <= size
    requires id < RowSum(bs)
    ensures Locate(size, id).chunk < |bs|
    ensures Locate(size, id).offset < bs[Locate(size, id).chunk].rowCount
  {
    var n := |bs| - 1;
    FullChunksSum(bs[..n], size);
    assert RowSum(bs) == n * size + bs[n].rowCount;
    if id < n * size {
      DivLess(id, size, n);
    } else {
      DivBounds(id, size, n);
    }
  }

  /** An id below `n` blocks of `size` lies in one of the first `n` blocks. */
  lemma DivLess(id: nat, size: nat, n: nat)
    requires size > 0 && id < n * size
    ensures id / size < n
  {
    var d := id / size;
    assert d * size <= id;
    if d >= n {
      MulMonotone(n, d, size);
    }
  }

  /** Full chunks hold `size` rows each. */
  lemma {:induction false} FullChunksSum(bs: seq<Batch>, size: nat)
    requires forall i :: 0 <= i < |bs| ==> bs[i].rowCount == size
    ensures RowSum(bs) == |bs| * size
    decreases |bs|
  {
    if |bs| > 0 {
      FullChunksSum(bs[..|bs| - 1], size);
    }
  }

  /** An id in the `q`-th block of `size` ids has quotient `q` and the remainder of its place in the block. */
  lemma DivBounds(id: nat, size: nat, q: nat)
    requires size > 0
    requires q * size <= id < q * size + size
    ensures id / size == q
    ensures id % size == id - q * size
  {
    var d, m := id / size, id % size;
    assert id == d * size + m && m < size;
    if d < q {
      MulMonotone(d + 1, q, size);
    }
    if d > q {
      MulMonotone(q + 1, d, size);
    }
  }

  lemma MulMonotone(a: nat, b: nat, c: nat)
    requires a <= b
    ensures a * c <= b * c
  {
    assert b * c == a * c + (b - a) * c;
  }

  // ----- Probe side -----

  /** What a run of probe-side receives found, what it skipped, and where the register is then. */
  datatype InputKind = InputError(e: Error) | InputEnd | InputLast(b: Batch) | InputBatch(b: Batch)
  datatype ProbeInput = ProbeInput(kind: InputKind, skipped: seq<Batch>, next: nat)

  /**
   * Receiving probe batches from `pos` on: an error, the end of the stream
   * or a last-batch marker stops the receiving; an empty batch, or any
   * batch while there is no hash map, is skipped; any other batch is the
   * one to probe.
   */
  function ScanProbe(script: seq<Message<Batch>>, pos: nat, hasMap: bool): ProbeInput
    decreases |script| - pos
  {
    var m := At(script, pos);
    if m.err.Some? then ProbeInput(InputError(m.err.value), [], Next(script, pos))
    else if m.batch.None? then ProbeInput(InputEnd, [], Next(script, pos))
    else if m.batch.value.last then ProbeInput(InputLast(m.batch.value), [], pos + 1)
    else if m.batch.value.rowCount == 0 || !hasMap then
      var rest := ScanProbe(script, pos + 1, hasMap);
      ProbeInput(rest.kind, [m.batch.value] + rest.skipped, rest.next)
    else ProbeInput(InputBatch(m.batch.value), [], pos + 1)
  }

  /**
   * The receiving only moves forward; a batch to probe is a non-empty
   * batch received while there is a hash map, and a batch passed on as a
   * last-batch marker is one the register delivered; every skipped batch is
   * empty or was received while there is no hash map.
   */
  lemma {:induction false} ScanProbeFacts(script: seq<Message<Batch>>, pos: nat, hasMap: bool)
    ensures var r := ScanProbe(script, pos, hasMap);
      && pos <= r.next
      && (r.kind.InputBatch? ==> r.kind.b.rowCount > 0 && !r.kind.b.last && hasMap)
      && (r.kind.InputBatch? || r.kind.InputLast? ==> exists i :: pos <= i < |script| && script[i].batch == Some(r.kind.b))
      && (forall k :: 0 <= k < |r.skipped| ==> r.skipped[k].rowCount == 0 || !hasMap)
    decreases |script| - pos
  {
    var m := At(script, pos);
    if m.err.None? && m.batch.Some? && !m.batch.value.last && (m.batch.value.rowCount == 0 || !hasMap) {
      ScanProbeFacts(script, pos + 1, hasMap);
      var rest := ScanProbe(script, pos + 1, hasMap);
      if rest.kind.InputBatch? || rest.kind.InputLast? {
        var i :| pos + 1 <= i < |script| && script[i].batch == Some(rest.kind.b);
      }
    }
  }

  /** Moving one element from the front of the rest to the end of the part before it keeps the whole. */
  lemma ConsAssoc<T>(xs: seq<T>, x: T, ys: seq<T>)
    ensures xs + ([x] + ys) == (xs + [x]) + ys
  {
  }

  function Min(a: nat, b: nat): nat
  {
    if a < b then a else b
  }

  /** The build row ids a probe row's lookup selects. */
  function Candidates(c: Config, m: HashMap, l: Lookup): seq<nat>
  {
    if !l.inBucket || !l.zval || l.val == 0 then []
    else if c.hashOnPK then [l.val - 1]
    else Group(m, l.val - 1)
  }

  /** The output row for the pair, if the residual condition (when there is one) holds. */
  function EmitOne(c: Config, b: Batch, row: nat, id: nat): seq<OutRow>
  {
    if !c.hasCond || Cond(b, row, id) == Some(true) then [OutRow(row, id)] else []
  }

  /** The output rows for probe row `row` paired with each of `ids`, in that order. */
  function Emit(c: Config, b: Batch, row: nat, ids: seq<nat>): seq<OutRow>
  {
    if |ids| == 0 then [] else Emit(c, b, row, ids[..|ids| - 1]) + EmitOne(c, b, row, ids[|ids| - 1])
  }

  /**
   * A probe row emits at most one row per candidate, exactly one without a
   * residual condition, and every row it emits is its own.
   */
  lemma {:induction false} EmitLength(c: Config, b: Batch, row: nat, ids: seq<nat>)
    ensures |Emit(c, b, row, ids)| <= |ids|
    ensures !c.hasCond ==> |Emit(c, b, row, ids)| == |ids|
    ensures forall j :: 0 <= j < |Emit(c, b, row, ids)| ==> Emit(c, b, row, ids)[j].probeRow == row
    decreases |ids|
  {
    if |ids| > 0 {
      EmitLength(c, b, row, ids[..|ids| - 1]);
    }
  }

  /** One more id extends the output by that id's row. */
  lemma EmitStep(c: Config, b: Batch, row: nat, ids: seq<nat>, s: nat)
    requires s < |ids|
    ensures Emit(c, b, row, ids[..s + 1]) == Emit(c, b, row, ids[..s]) + EmitOne(c, b, row, ids[s])
  {
    assert ids[..s + 1][..s] == ids[..s];
  }

  /** The output rows of probe row `row`. */
  function Emitted(c: Config, m: HashMap, b: Batch, row: nat): seq<OutRow>
    requires row < |b.lookups|
  {
    Emit(c, b, row, Candidates(c, m, b.lookups[row]))
  }

  /** What probe row `row` adds to the declared row count: one per candidate. */
  function Counted(c: Config, m: HashMap, b: Batch, row: nat): nat
    requires row < |b.lookups|
  {
    |Candidates(c, m, b.lookups[row])|
  }

  /** The output rows of probe rows `from` to `to`, in row order. */
  function EmittedRange(c: Config, m: HashMap, b: Batch, from: nat, to: nat): seq<OutRow>
    requires from <= to <= |b.lookups|
    decreases (to)
  {
    if from == to then [] else EmittedRange(c, m, b, from, to - 1) + Emitted(c, m, b, to - 1)
  }

  /** The declared row count for probe rows `from` to `to`. */
  function CountedRange(c: Config, m: HashMap, b: Batch, from: nat, to: nat): nat
    requires from <= to <= |b.lookups|
    decreases (to)
  {
    if from == to then 0 else CountedRange(c, m, b, from, to - 1) + Counted(c, m, b, to - 1)
  }

  /**
   * Where a probe call that started at row `start` stops early: the first
   * chunk start `i`, `i`, `i + unitLimit`, ..., below the row count, where
   * the output already declares a full batch; `None` if it runs to the end.
   */
  function ProbeStop(c: Config, m: HashMap, b: Batch, start: nat, i: nat): (r: Option<nat>)
    requires ValidConfig(c) && WellFormedProbe(b)
    requires start <= i
    ensures r.Some? ==> i <= r.value < b.rowCount && start < r.value
    decreases b.rowCount - i
  {
    if i >= b.rowCount then None
    else if CountedRange(c, m, b, start, i) >= c.batchSize then Some(i)
    else ProbeStop(c, m, b, start, i + c.unitLimit)
  }

  /** The probe stops early only once the declared row count has reached a batch. */
  lemma {:induction false} ProbeStopFull(c: Config, m: HashMap, b: Batch, start: nat, i: nat)
    requires ValidConfig(c) && WellFormedProbe(b)
    requires start <= i
    ensures var r := ProbeStop(c, m, b, start, i);
      r.Some? ==> CountedRange(c, m, b, start, r.value) >= c.batchSize
    decreases b.rowCount - i
  {
    if i < b.rowCount && CountedRange(c, m, b, start, i) < c.batchSize {
      ProbeStopFull(c, m, b, start, i + c.unitLimit);
    }
  }

  /** The probe stops only at chunk starts: a whole number of chunks after `i`. */
  lemma {:induction false} ProbeStopAligned(c: Config, m: HashMap, b: Batch, start: nat, i: nat)
    requires ValidConfig(c) && WellFormedProbe(b)
    requires start <= i
    ensures var r := ProbeStop(c, m, b, start, i);
      r.Some? ==> (r.value - i) % c.unitLimit == 0
    decreases b.rowCount - i
  {
    if i < b.rowCount && CountedRange(c, m, b, start, i) < c.batchSize {
      ProbeStopAligned(c, m, b, start, i + c.unitLimit);
      var r := ProbeStop(c, m, b, start, i + c.unitLimit);
      assert ProbeStop(c, m, b, start, i) == r;
      if r.Some? {
        AlignedStep(r.value, i, c.unitLimit);
      }
    } else if i < b.rowCount {
      assert ProbeStop(c, m, b, start, i) == Some(i);
      assert (i - i) % c.unitLimit == 0 % c.unitLimit == 0;
    }
  }

  /**
   * The converse: the probe stops no later than the first chunk start
   * (below the row count) where the declared count has reached a batch.
   */
  lemma {:induction false} ProbeStopFirst(c: Config, m: HashMap, b: Batch, start: nat, i: nat, t: nat, j: nat)
    requires ValidConfig(c) && WellFormedProbe(b)
    requires j == i + t * c.unitLimit
    requires start <= i && j < b.rowCount && CountedRange(c, m, b, start, j) >= c.batchSize
    ensures var r := ProbeStop(c, m, b, start, i);
      r.Some? && r.value <= j
    decreases t
  {
    StepsDown(i, t, c.unitLimit);
    if CountedRange(c, m, b, start, i) < c.batchSize {
      ProbeStopFirst(c, m, b, start, i + c.unitLimit, t - 1, j);
      ProbeStopContinues(c, m, b, start, i);
    } else {
      assert ProbeStop(c, m, b, start, i) == Some(i);
    }
  }

  /** `i + t * u` lies at or past `i`, and one step of `u` on it is one of the `t` steps. */
  lemma StepsDown(i: nat, t: nat, u: nat)
    ensures i <= i + t * u
    ensures t > 0 ==> (i + u) + (t - 1) * u == i + t * u
  {
  }

  lemma AlignedStep(v: nat, i: nat, u: nat)
    requires u > 0 && i + u <= v && (v - (i + u)) % u == 0
    ensures (v - i) % u == 0
  {
    AddModulus(v - (i + u), u);
  }

  lemma AddModulus(x: nat, u: nat)
    requires u > 0
    ensures (x + u) % u == x % u
  {
    var q := x / u + 1;
    assert x == (x / u) * u + x % u;
    assert q * u == (x / u) * u + u;
    DivBounds(x + u, u, q);
  }

  /** Below a full batch, the probe goes on to the next chunk. */
  lemma ProbeStopContinues(c: Config, m: HashMap, b: Batch, start: nat, i: nat)
    requires ValidConfig(c) && WellFormedProbe(b)
    requires start <= i < b.rowCount
    requires CountedRange(c, m, b, start, i) < c.batchSize
    ensures ProbeStop(c, m, b, start, i + c.unitLimit) == ProbeStop(c, m, b, start, i)
  {
  }

  /** The row a probe call from `start` stops at: its early stop, or the row count. */
  function ProbeEnd(c: Config, m: HashMap, b: Batch, start: nat): (e: nat)
    requires ValidConfig(c) && WellFormedProbe(b)
    requires start < b.rowCount
    ensures start < e <= b.rowCount
  {
    match ProbeStop(c, m, b, start, start)
    case Some(j) => j
    case None => b.rowCount
  }

  /** The output of a probe call from `start`: the rows up to its end and their declared count. */
  function ProbeOutput(c: Config, m: HashMap, b: Batch, start: nat): Output
    requires ValidConfig(c) && WellFormedProbe(b)
    requires start < b.rowCount
  {
    var e := ProbeEnd(c, m, b, start);
    Joined(EmittedRange(c, m, b, start, e), CountedRange(c, m, b, start, e))
  }

  /** The cursor after a probe call from `start`: its early stop, or 0 when the batch is done. */
  function ProbeCursor(c: Config, m: HashMap, b: Batch, start: nat): (r: nat)
    requires ValidConfig(c) && WellFormedProbe(b)
    requires start < b.rowCount
    ensures r == 0 || start < r < b.rowCount
    ensures r == 0 <==> ProbeEnd(c, m, b, start) == b.rowCount
  {
    match ProbeStop(c, m, b, start, start)
    case Some(j) => j
    case None => 0
  }

  // ----- Properties of the probe -----

  /** With the key on the primary key and no residual condition, a probe row emits at most one row. */
  lemma PrimaryKeyEmitsAtMostOne(c: Config, m: HashMap, b: Batch, row: nat)
    requires c.hashOnPK && !c.hasCond
    requires row < |b.lookups|
    ensures |Emitted(c, m, b, row)| <= 1
    ensures |Emitted(c, m, b, row)| == 1 <==> b.lookups[row].inBucket && b.lookups[row].zval && b.lookups[row].val > 0
    ensures |Emitted(c, m, b, row)| == 1 ==> Emitted(c, m, b, row)[0] == OutRow(row, b.lookups[row].val - 1)
  {
    var l := b.lookups[row];
    EmitLength(c, b, row, Candidates(c, m, l));
    if l.inBucket && l.zval && l.val > 0 {
      assert Candidates(c, m, l) == [l.val - 1];
      assert Candidates(c, m, l)[..0] == [];
    }
  }

  /** In general mode without a residual condition, a probe row emits one row per group member, in group order. */
  lemma GroupEmitsInOrder(c: Config, m: HashMap, b: Batch, row: nat)
    requires !c.hashOnPK && !c.hasCond
    requires row < |b.lookups|
    requires b.lookups[row].inBucket && b.lookups[row].zval && b.lookups[row].val > 0
    ensures |Emitted(c, m, b, row)| == |Group(m, b.lookups[row].val - 1)|
    ensures forall j :: 0 <= j < |Emitted(c, m, b, row)| ==> Emitted(c, m, b, row)[j] == OutRow(row, Group(m, b.lookups[row].val - 1)[j])
  {
    EmitAll(c, b, row, Group(m, b.lookups[row].val - 1));
    EmitLength(c, b, row, Group(m, b.lookups[row].val - 1));
  }

  lemma {:induction false} EmitAll(c: Config, b: Batch, row: nat, ids: seq<nat>)
    requires !c.hasCond
    ensures |Emit(c, b, row, ids)| == |ids|
    ensures forall j :: 0 <= j < |ids| ==> Emit(c, b, row, ids)[j] == OutRow(row, ids[j])
    decreases |ids|
  {
    EmitLength(c, b, row, ids);
    if |ids| > 0 {
      var init := ids[..|ids| - 1];
      EmitAll(c, b, row, init);
      forall j | 0 <= j < |ids| - 1 ensures Emit(c, b, row, ids)[j] == OutRow(row, ids[j]) {
        assert ids[j] == init[j];
      }
    }
  }

  /** Without a residual condition, the declared row count is the number of rows emitted. */
  lemma {:induction false} NoCondCountsEmitted(c: Config, m: HashMap, b: Batch, from: nat, to: nat)
    requires !c.hasCond
    requires from <= to <= |b.lookups|
    ensures |EmittedRange(c, m, b, from, to)| == CountedRange(c, m, b, from, to)
    decreases (to)
  {
    if from < to {
      NoCondCountsEmitted(c, m, b, from, to - 1);
      EmitLength(c, b, to - 1, Candidates(c, m, b.lookups[to - 1]));
    }
  }

  /**
   * With a residual condition, the declared row count counts every
   * candidate pair, so it is at least the number of rows emitted.
   */
  lemma {:induction false} CondCountsCandidates(c: Config, m: HashMap, b: Batch, from: nat, to: nat)
    requires from <= to <= |b.lookups|
    ensures |EmittedRange(c, m, b, from, to)| <= CountedRange(c, m, b, from, to)
    decreases (to)
  {
    if from < to {
      CondCountsCandidates(c, m, b, from, to - 1);
      EmitLength(c, b, to - 1, Candidates(c, m, b.lookups[to - 1]));
    }
  }

  /**
   * A candidate pair whose condition is null or false is not emitted, yet
   * it is counted: one probe row with one candidate and a false condition
   * declares one row and emits none.
   */
  lemma CondCountsRejectedPair(c: Config, m: HashMap)
    requires c.hashOnPK && c.hasCond
    ensures var b := Batch(1, false, None, [Lookup(true, true, 1)], map[(0, 0) := false]);
      |EmittedRange(c, m, b, 0, 1)| == 0 && CountedRange(c, m, b, 0, 1) == 1
  {
    var b := Batch(1, false, None, [Lookup(true, true, 1)], map[(0, 0) := false]);
    assert Candidates(c, m, b.lookups[0]) == [0];
    assert Candidates(c, m, b.lookups[0])[..0] == [];
    assert Cond(b, 0, 0) == Some(false);
    assert Emitted(c, m, b, 0) == Emit(c, b, 0, []) + EmitOne(c, b, 0, 0) == [];
  }

  /** One more probe row extends the output and the count by its own. */
  lemma RangeStep(c: Config, m: HashMap, b: Batch, from: nat, to: nat)
    requires from <= to < |b.lookups|
    ensures EmittedRange(c, m, b, from, to + 1) == EmittedRange(c, m, b, from, to) + Emitted(c, m, b, to)
    ensures CountedRange(c, m, b, from, to + 1) == CountedRange(c, m, b, from, to) + Counted(c, m, b, to)
  {
  }

  /** The declared count of rows `from` to `to` is that of `from` to `mid` plus that of `mid` to `to`. */
  lemma {:induction false} CountedRangeSplit(c: Config, m: HashMap, b: Batch, from: nat, mid: nat, to: nat)
    requires from <= mid <= to <= |b.lookups|
    ensures CountedRange(c, m, b, from, to) == CountedRange(c, m, b, from, mid) + CountedRange(c, m, b, mid, to)
    decreases (to)
  {
    if mid < to {
      CountedRangeSplit(c, m, b, from, mid, to - 1);
    }
  }

  /** The output of rows `from` to `to` is that of `from` to `mid` followed by that of `mid` to `to`. */
  lemma {:induction false} EmittedRangeSplit(c: Config, m: HashMap, b: Batch, from: nat, mid: nat, to: nat)
    requires from <= mid <= to <= |b.lookups|
    ensures EmittedRange(c, m, b, from, to) == EmittedRange(c, m, b, from, mid) + EmittedRange(c, m, b, mid, to)
    decreases (to)
  {
    if mid < to {
      EmittedRangeSplit(c, m, b, from, mid, to - 1);
    }
  }

  // ----- The probe loop -----

  /**
   * `evalApCondForOneSel`: the rows the residual condition lets through
   * for one candidate pair, the pair's row when the condition is true and
   * none when it is false or null.
   */
  method EvalApCondForOneSel(cfg: Config, b: Batch, row: nat, sel: nat) returns (rows: seq<OutRow>)
    ensures Cond(b, row, sel) == Some(true) ==> rows == [OutRow(row, sel)]
    ensures Cond(b, row, sel) != Some(true) ==> rows == []
  {
    var v := Cond(b, row, sel);
    if v.None? {
      return [];
    }
    if !v.value {
      return [];
    }
    return [OutRow(row, sel)];
  }

  /**
   * The body of the probe loop for one probe row: the output rows of its
   * candidates (those the residual condition lets through, when there is
   * one) and what it adds to the declared row count.
   */
  method ProbeRow(cfg: Config, b: Batch, m: HashMap, row: nat) returns (rows: seq<OutRow>, cnt: nat)
    requires row < |b.lookups|
    ensures rows == Emitted(cfg, m, b, row)
    ensures cnt == Counted(cfg, m, b, row)
  {
    var l := b.lookups[row];
    rows, cnt := [], 0;
    if !l.inBucket || !l.zval || l.val == 0 {
      assert Candidates(cfg, m, l) == [];
      assert Emitted(cfg, m, b, row) == [];
      return;
    }
    var idx := l.val - 1;
    if !cfg.hasCond {
      if cfg.hashOnPK {
        assert [idx][..0] == [];
        assert Emitted(cfg, m, b, row) == Emit(cfg, b, row, []) + EmitOne(cfg, b, row, idx);
        rows, cnt := [OutRow(row, idx)], 1;
      } else {
        var sels := Group(m, idx);
        for s := 0 to |sels|
          invariant rows == Emit(cfg, b, row, sels[..s])
        {
          EmitStep(cfg, b, row, sels, s);
          rows := rows + [OutRow(row, sels[s])];
        }
        assert sels[..|sels|] == sels;
        cnt := |sels|;
      }
    } else {
      if cfg.hashOnPK {
        assert [idx][..0] == [];
        assert Emitted(cfg, m, b, row) == Emit(cfg, b, row, []) + EmitOne(cfg, b, row, idx);
        rows := EvalApCondForOneSel(cfg, b, row, idx);
        cnt := 1;
      } else {
        var sels := Group(m, idx);
        for s := 0 to |sels|
          invariant rows == Emit(cfg, b, row, sels[..s])
        {
          EmitStep(cfg, b, row, sels, s);
          var r := EvalApCondForOneSel(cfg, b, row, sels[s]);
          rows := rows + r;
        }
        assert sels[..|sels|] == sels;
        cnt := |sels|;
      }
    }
  }

  /** The loop of `probe` over the rows of `b` from `start`. */
  method ProbeFrom(cfg: Config, m: HashMap, b: Batch, start: nat) returns (out: Output, cursor: nat)
    requires ValidConfig(cfg) && WellFormedProbe(b) && start < b.rowCount
    ensures out == ProbeOutput(cfg, m, b, start)
    ensures cursor == ProbeCursor(cfg, m, b, start)
  {
    var rows: seq<OutRow> := [];
    var count := b.rowCount;
    var rowCount := 0;
    var i := start;
    ghost var done := start;
    ghost var stop := ProbeStop(cfg, m, b, start, start);
    while i < count
      invariant start <= i && done == Min(i, count)
      invariant rows == EmittedRange(cfg, m, b, start, done)
      invariant rowCount == CountedRange(cfg, m, b, start, done)
      invariant ProbeStop(cfg, m, b, start, i) == stop
      decreases count - i
    {
      if rowCount >= cfg.batchSize {
        return Joined(rows, rowCount), i;
      }
      rows, rowCount, done := ProbeNext(cfg, m, b, start, i, rows, rowCount);
      i := i + cfg.unitLimit;
    }
    return Joined(rows, rowCount), 0;
  }

  /**
   * One pass of the probe loop below a full batch: the chunk of at most
   * `unitLimit` rows from `i`. The next chunk starts `unitLimit` rows on,
   * and the probe does not stop at `i`.
   */
  method ProbeNext(cfg: Config, m: HashMap, b: Batch, start: nat, i: nat, rows0: seq<OutRow>, count0: nat)
    returns (rows: seq<OutRow>, count: nat, ghost done: nat)
    requires ValidConfig(cfg) && WellFormedProbe(b) && start <= i < b.rowCount
    requires rows0 == EmittedRange(cfg, m, b, start, i) && count0 == CountedRange(cfg, m, b, start, i)
    requires count0 < cfg.batchSize
    ensures done == Min(i + cfg.unitLimit, b.rowCount)
    ensures rows == EmittedRange(cfg, m, b, start, Min(i + cfg.unitLimit, b.rowCount))
    ensures count == CountedRange(cfg, m, b, start, Min(i + cfg.unitLimit, b.rowCount))
    ensures ProbeStop(cfg, m, b, start, i + cfg.unitLimit) == ProbeStop(cfg, m, b, start, i)
  {
    ProbeStopContinues(cfg, m, b, start, i);
    var n := b.rowCount - i;
    if n > cfg.unitLimit {
      n := cfg.unitLimit;
    }
    rows, count := ProbeChunk(cfg, m, b, start, i, n, rows0, count0);
    done := i + n;
  }

  /** One chunk of the probe loop: extends the output of rows `start` to `i` by that of rows `i` to `i + n`. */
  method ProbeChunk(cfg: Config, m: HashMap, b: Batch, start: nat, i: nat, n: nat, rows0: seq<OutRow>, count0: nat)
    returns (rows: seq<OutRow>, count: nat)
    requires start <= i && i + n <= |b.lookups|
    requires rows0 == EmittedRange(cfg, m, b, start, i) && count0 == CountedRange(cfg, m, b, start, i)
    ensures rows == EmittedRange(cfg, m, b, start, i + n)
    ensures count == CountedRange(cfg, m, b, start, i + n)
  {
    rows, count := rows0, count0;
    for k := 0 to n
      invariant rows == EmittedRange(cfg, m, b, start, i + k)
      invariant count == CountedRange(cfg, m, b, start, i + k)
    {
      var row := i + k;
      var r, c := ProbeRow(cfg, b, m, row);
      RangeStep(cfg, m, b, start, row);
      rows, count := rows + r, count + c;
      assert row + 1 == i + (k + 1);
    }
  }

  /** The inner join operator and the state it keeps between calls. */
  class InnerJoin {
    const cfg: Config
    /** Register 0 delivers the probe batches, register 1 the hash map and the build batches. */
    const probeReg: seq<Message<Batch>>
    const buildReg: seq<Message<Batch>>
    var probePos: nat
    var buildPos: nat

    var state: JoinState
    var mp: Option<HashMap>
    var batches: seq<Batch>
    var batchRowCount: nat
    var bat: Option<Batch>
    var lastrow: nat
    var rbat: Option<Output>
    /** The probe batches handed back to the pool. */
    ghost var released: seq<Batch>
    /** The rows emitted so far for the probe batch in progress. */
    ghost var probed: seq<OutRow>

    ghost predicate Valid()
      reads this
    {
      && ValidConfig(cfg)
      && WellFormedProbeScript(probeReg)
      && batchRowCount == RowSum(batches)
      && (state != Build ==> ChunksFull(batches, cfg.batchSize))
      && ProbeInvariant()
    }

    /**
     * A probe batch is held only in the probe state, only with a hash map,
     * and its cursor is inside it; the rows emitted for it so far are those
     * of the rows before the cursor.
     */
    ghost predicate ProbeInvariant()
      reads this`state, this`bat, this`mp, this`lastrow, this`probed
    {
      && ValidConfig(cfg)
      && (state != Probe ==> bat.None?)
      && (bat.Some? ==>
            && mp.Some? && WellFormedProbe(bat.value)
            && !bat.value.last && lastrow < bat.value.rowCount
            && probed == EmittedRange(cfg, mp.value, bat.value, 0, lastrow))
    }

    /** `Prepare`: a fresh operator in the build state. */
    constructor (cfg: Config, probeReg: seq<Message<Batch>>, buildReg: seq<Message<Batch>>)
      requires ValidConfig(cfg) && WellFormedProbeScript(probeReg)
      ensures Valid()
      ensures this.cfg == cfg && this.probeReg == probeReg && this.buildReg == buildReg
      ensures state == Build && mp.None? && batches == [] && batchRowCount == 0 && bat.None? && lastrow == 0
      ensures probePos == 0 && buildPos == 0 && rbat.None? && released == []
    {
      this.cfg := cfg;
      this.probeReg := probeReg;
      this.buildReg := buildReg;
      probePos, buildPos := 0, 0;
      state := Build;
      mp := None;
      batches, batchRowCount := [], 0;
      bat, lastrow, rbat := None, 0, None;
      released, probed := [], [];
    }

    /** Receives the hash map: a message's auxiliary data becomes the map. */
    method ReceiveHashMap() returns (err: Option<Error>)
      modifies this`buildPos, this`mp
      ensures buildPos == Next(buildReg, old(buildPos))
      ensures err == At(buildReg, old(buildPos)).err
      ensures var msg := At(buildReg, old(buildPos));
        mp == if msg.err.None? && msg.batch.Some? && msg.batch.value.aux.Some? then msg.batch.value.aux else old(mp)
    {
      var msg := At(buildReg, buildPos);
      buildPos := Next(buildReg, buildPos);
      if msg.err.Some? {
        return msg.err;
      }
      if msg.batch.Some? && msg.batch.value.aux.Some? {
        mp := msg.batch.value.aux;
      }
      return None;
    }

    /**
     * Receives the build batches until a message without a batch, then
     * checks that every batch but the last is a full chunk (a panic in the
     * code, an error here).
     */
    method ReceiveBatch() returns (err: Option<Error>)
      requires batchRowCount == RowSum(batches)
      modifies this`buildPos, this`batches, this`batchRowCount
      ensures var sc := ScanBuild(buildReg, old(buildPos));
        && batches == old(batches) + sc.batches
        && buildPos == sc.next
        && err == if sc.err.Some? then sc.err else if !ChunksFull(batches, cfg.batchSize) then Some(WrongBuildBatch) else None
      ensures batchRowCount == RowSum(batches)
    {
      ghost var sc := ScanBuild(buildReg, buildPos);
      ghost var batches0 := batches;
      while true
        invariant batchRowCount == RowSum(batches)
        invariant var rest := ScanBuild(buildReg, buildPos);
          batches + rest.batches == batches0 + sc.batches && rest.err == sc.err && rest.next == sc.next
        decreases |buildReg| - buildPos
      {
        ghost var pos, before := buildPos, batches;
        var more, e := ReceiveBuildOne();
        if !more {
          if e.Some? {
            return e;
          }
          break;
        }
        ghost var b := At(buildReg, pos).batch.value;
        ConsAssoc(before, b, ScanBuild(buildReg, buildPos).batches);
      }
      err := CheckBuildBatches();
    }

    /**
     * One receive of the build batches: a message with a batch adds it
     * (`more`), and the receiving goes on after it; a message with an error
     * or without a batch ends the receiving with that error.
     */
    method ReceiveBuildOne() returns (more: bool, err: Option<Error>)
      requires batchRowCount == RowSum(batches)
      modifies this`buildPos, this`batches, this`batchRowCount
      ensures batchRowCount == RowSum(batches)
      ensures var before := ScanBuild(buildReg, old(buildPos));
        var after := ScanBuild(buildReg, buildPos);
        var m := At(buildReg, old(buildPos));
        more ==>
          && err.None? && m.batch.Some? && old(buildPos) < buildPos <= |buildReg|
          && batches == old(batches) + [m.batch.value]
          && before == BuildScan([m.batch.value] + after.batches, after.err, after.next)
      ensures !more ==> batches == old(batches) && ScanBuild(buildReg, old(buildPos)) == BuildScan([], err, buildPos)
    {
      var msg := At(buildReg, buildPos);
      ghost var pos, before := buildPos, batches;
      buildPos := Next(buildReg, buildPos);
      if msg.err.Some? {
        ScanBuildStop(buildReg, pos);
        return false, msg.err;
      }
      if msg.batch.None? {
        ScanBuildStop(buildReg, pos);
        return false, None;
      }
      ScanBuildStep(buildReg, pos);
      batchRowCount := batchRowCount + msg.batch.value.rowCount;
      batches := batches + [msg.batch.value];
      assert batches[..|batches| - 1] == before;
      return true, None;
    }

    /**
     * Every build batch but the last must be a full chunk; the code panics
     * otherwise, the model reports `WrongBuildBatch`.
     */
    method CheckBuildBatches() returns (err: Option<Error>)
      ensures err.None? <==> ChunksFull(batches, cfg.batchSize)
      ensures err.Some? ==> err == Some(WrongBuildBatch)
    {
      var i := 0;
      while i + 1 < |batches|
        invariant forall j :: 0 <= j < i && j + 1 < |batches| ==> batches[j].rowCount == cfg.batchSize
      {
        if batches[i].rowCount != cfg.batchSize {
          return Some(WrongBuildBatch);
        }
        i := i + 1;
      }
      return None;
    }

    /** `build`: receives the hash map, then the build batches. */
    method BuildSide() returns (err: Option<Error>)
      requires Valid() && state == Build
      modifies this`buildPos, this`mp, this`batches, this`batchRowCount
      ensures Valid()
      ensures var o := BuildOutcome(buildReg, old(buildPos), old(batches), cfg.batchSize);
        && err == o.err && batches == o.batches && buildPos == o.next
        && mp == (if o.aux.Some? then o.aux else old(mp))
    {
      err := ReceiveHashMap();
      if err.Some? {
        return;
      }
      err := ReceiveBatch();
    }

    /**
     * The receiving part of the probe state, while no probe batch is held:
     * receives until a batch to probe, a last-batch marker, the end of the
     * stream or an error; empty batches, and every batch while there is no
     * hash map, are handed back to the pool.
     */
    method ReceiveProbe() returns (kind: InputKind)
      requires WellFormedProbeScript(probeReg)
      modifies this`probePos, this`released
      ensures var sc := ScanProbe(probeReg, old(probePos), mp.Some?);
        kind == sc.kind && probePos == sc.next && released == old(released) + sc.skipped
      ensures kind.InputBatch? ==> WellFormedProbe(kind.b) && kind.b.rowCount > 0 && !kind.b.last && mp.Some?
    {
      ghost var hasMap := mp.Some?;
      ghost var sc := ScanProbe(probeReg, probePos, hasMap);
      ghost var released0 := released;
      ghost var skipped: seq<Batch> := [];
      while true
        invariant released == released0 + skipped
        invariant var rest := ScanProbe(probeReg, probePos, hasMap);
          rest.kind == sc.kind && rest.next == sc.next && sc.skipped == skipped + rest.skipped
        decreases |probeReg| - probePos
      {
        ghost var pos := probePos;
        var got := ReceiveProbeOne();
        if got.Some? {
          return got.value;
        }
        ghost var b := At(probeReg, pos).batch.value;
        ConsAssoc(skipped, b, ScanProbe(probeReg, probePos, hasMap).skipped);
        skipped := skipped + [b];
      }
    }

    /**
     * One receive of the probe state: an error, the end of the stream, a
     * last-batch marker or a batch to probe ends the receiving; an empty
     * batch, or any batch while there is no hash map, is handed back to the
     * pool (`None`), and the receiving goes on after it.
     */
    method ReceiveProbeOne() returns (got: Option<InputKind>)
      requires WellFormedProbeScript(probeReg)
      modifies this`probePos, this`released
      ensures var before := ScanProbe(probeReg, old(probePos), mp.Some?);
        got.Some? ==> before == ProbeInput(got.value, [], probePos) && released == old(released)
      ensures var before := ScanProbe(probeReg, old(probePos), mp.Some?);
        var after := ScanProbe(probeReg, probePos, mp.Some?);
        var m := At(probeReg, old(probePos));
        got.None? ==>
          && old(probePos) < probePos <= |probeReg| && m.batch.Some?
          && released == old(released) + [m.batch.value]
          && before == ProbeInput(after.kind, [m.batch.value] + after.skipped, after.next)
      ensures got.Some? && got.value.InputBatch? ==>
        var b := got.value.b; WellFormedProbe(b) && b.rowCount > 0 && !b.last && mp.Some?
    {
      var msg := At(probeReg, probePos);
      probePos := Next(probeReg, probePos);
      if msg.err.Some? {
        return Some(InputError(msg.err.value));
      }
      var b := msg.batch;
      if b.None? {
        return Some(InputEnd);
      }
      if b.value.last {
        return Some(InputLast(b.value));
      }
      if b.value.rowCount == 0 || mp.None? {
        released := released + [b.value];
        return None;
      }
      return Some(InputBatch(b.value));
    }

    /**
     * `probe`: probes the held batch from the cursor, a chunk of at most
     * `unitLimit` rows at a time, and stops at the first chunk start where
     * the declared row count has reached a batch; the cursor is then that
     * row, or 0 when the batch is done.
     */
    method ProbeBatch() returns (out: Output)
      requires Valid() && bat.Some?
      modifies this`rbat, this`lastrow, this`probed
      ensures out == ProbeOutput(cfg, mp.value, bat.value, old(lastrow))
      ensures rbat == Some(out)
      ensures lastrow == ProbeCursor(cfg, mp.value, bat.value, old(lastrow))
      ensures probed == old(probed) + out.rows
      ensures probed == EmittedRange(cfg, mp.value, bat.value, 0, ProbeEnd(cfg, mp.value, bat.value, old(lastrow)))
    {
      var cursor;
      out, cursor := ProbeFrom(cfg, mp.value, bat.value, lastrow);
      EmittedRangeSplit(cfg, mp.value, bat.value, 0, lastrow, ProbeEnd(cfg, mp.value, bat.value, lastrow));
      rbat := Some(out);
      probed := probed + out.rows;
      lastrow := cursor;
    }

    /**
     * What probing the held batch `b` from row `from` leaves: the joined
     * output and no error; the cursor after the call; the batch kept when
     * the cursor is inside it and handed back to the pool when it is done,
     * in which case the rows emitted for it over all calls are those of
     * all its rows. The output stays in `rbat` until the next probe.
     */
    ghost predicate HeldStep(b: Batch, from: nat, probed0: seq<OutRow>, released0: seq<Batch>,
                             result: CallResult<Output>, err: Option<Error>)
      reads this`mp, this`lastrow, this`bat, this`released, this`rbat, this`probed
    {
      && ValidConfig(cfg) && WellFormedProbe(b) && mp.Some? && from < b.rowCount
      && err.None?
      && result == CallResult(Some(ProbeOutput(cfg, mp.value, b, from)), ExecNext)
      && rbat == result.batch
      && lastrow == ProbeCursor(cfg, mp.value, b, from)
      && probed == (if lastrow == 0 then [] else probed0 + ProbeOutput(cfg, mp.value, b, from).rows)
      && bat == (if lastrow == 0 then None else Some(b))
      && released == released0 + (if lastrow == 0 then [b] else [])
      && (lastrow == 0 ==> probed0 + ProbeOutput(cfg, mp.value, b, from).rows == EmittedRange(cfg, mp.value, b, 0, b.rowCount))
    }

    /**
     * What one step in the probe state leaves, from register position
     * `pos0`, held batch `bat0` with cursor `lastrow0`: with no batch held it
     * receives first, and an error is returned, the end of the stream moves
     * to the end state, and a last-batch marker is passed on, all three
     * leaving the cursor, the last output `rbat0` and the emitted rows as
     * they were; a batch to probe (or the held one) is then probed.
     */
    ghost predicate ProbeStepped(pos0: nat, bat0: Option<Batch>, lastrow0: nat, rbat0: Option<Output>, probed0: seq<OutRow>,
                                 released0: seq<Batch>, result: CallResult<Output>, err: Option<Error>)
      reads this`probePos, this`state, this`mp, this`lastrow, this`bat, this`released, this`rbat, this`probed
    {
      if bat0.Some? then
        probePos == pos0 && state == Probe && HeldStep(bat0.value, lastrow0, probed0, released0, result, err)
      else
        var inp := ScanProbe(probeReg, pos0, mp.Some?);
        && probePos == inp.next
        && (!inp.kind.InputBatch? ==> lastrow == lastrow0 && rbat == rbat0 && probed == probed0)
        && match inp.kind
           case InputError(e) =>
             err == Some(e) && result == NewCallResult() && state == Probe && bat.None? && released == released0 + inp.skipped
           case InputEnd =>
             err.None? && result == CallResult(None, ExecStop) && state == End && bat.None? && released == released0 + inp.skipped
           case InputLast(b) =>
             err.None? && result == CallResult(Some(Forward(b)), ExecNext) && state == Probe && bat.None? && released == released0 + inp.skipped
           case InputBatch(b) =>
             state == Probe && HeldStep(b, 0, [], released0 + inp.skipped, result, err)
    }

    /** The probing part of the probe state, with a batch held (`probe` and what follows it). */
    method ProbeHeld() returns (result: CallResult<Output>, err: Option<Error>)
      requires Valid() && state == Probe && bat.Some?
      modifies this`released, this`bat, this`lastrow, this`rbat, this`probed
      ensures Valid()
      ensures HeldStep(old(bat).value, old(lastrow), old(probed), old(released), result, err)
    {
      var startrow := lastrow;
      var out := ProbeBatch();
      result := CallResult(Some(out), ExecNext);
      if lastrow == 0 {
        released := released + [bat.value];
        bat := None;
        probed := [];
      } else if lastrow == startrow {
        assert false;
        return result, Some(InnerJoinHanging);
      }
      return result, None;
    }

    /**
     * The build state: builds, then moves to the end state when there is no
     * hash map and the join is not a shuffle join, to the probe state
     * otherwise; a failed build stays in the build state.
     */
    method BuildState() returns (err: Option<Error>)
      requires Valid() && state == Build
      modifies this`buildPos, this`mp, this`batches, this`batchRowCount, this`state
      ensures Valid()
      ensures var o := BuildOutcome(buildReg, old(buildPos), old(batches), cfg.batchSize);
        && err == o.err && batches == o.batches && buildPos == o.next
        && mp == (if o.aux.Some? then o.aux else old(mp))
        && state == (if o.err.Some? then Build else if mp.None? && !cfg.isShuffle then End else Probe)
    {
      err := BuildSide();
      if err.Some? {
        return;
      }
      if mp.None? && !cfg.isShuffle {
        state := End;
      } else {
        state := Probe;
      }
    }

    /**
     * The probe state: takes the next batch to probe when none is held, then
     * probes it. The "inner join hanging" check of the code cannot fire: a
     * cursor left inside the batch is always past where the call started.
     */
    method ProbeState() returns (result: CallResult<Output>, err: Option<Error>)
      requires Valid() && state == Probe
      modifies this`probePos, this`released, this`state, this`bat, this`lastrow, this`rbat, this`probed
      ensures Valid()
      ensures ProbeStepped(old(probePos), old(bat), old(lastrow), old(rbat), old(probed), old(released), result, err)
    {
      if bat.None? {
        var kind := ReceiveProbe();
        match kind
        case InputError(e) =>
          return NewCallResult(), Some(e);
        case InputEnd =>
          state := End;
          return CallResult(None, ExecStop), None;
        case InputLast(b) =>
          return CallResult(Some(Forward(b)), ExecNext), None;
        case InputBatch(b) =>
          bat := Some(b);
          lastrow := 0;
          probed := [];
      }
      result, err := ProbeHeld();
    }

    /**
     * What a call in the build state leaves, from build position `buildPos0`,
     * build batches `batches0`, hash map `mp0` and the probe side as given:
     * the batches and the map the build received (the map is kept even when
     * the build fails); a failed build returns its error and stays in the
     * build state, and a build without a hash map for a join that is not a
     * shuffle join stops in the end state, both leaving the probe side as it
     * was; otherwise the call goes on as one step of the probe state.
     */
    ghost predicate BuildStepped(buildPos0: nat, batches0: seq<Batch>, mp0: Option<HashMap>,
                                 probePos0: nat, lastrow0: nat, rbat0: Option<Output>, probed0: seq<OutRow>,
                                 released0: seq<Batch>, result: CallResult<Output>, err: Option<Error>)
      reads this`batches, this`buildPos, this`mp, this`state, this`probePos, this`bat, this`lastrow, this`rbat,
        this`probed, this`released
    {
      var o := BuildOutcome(buildReg, buildPos0, batches0, cfg.batchSize);
      var probeSideKept := probePos == probePos0 && bat.None? && lastrow == lastrow0 && rbat == rbat0
        && probed == probed0 && released == released0;
      && batches == o.batches && buildPos == o.next
      && mp == (if o.aux.Some? then o.aux else mp0)
      && (o.err.Some? ==> err == o.err && result == NewCallResult() && state == Build && probeSideKept)
      && (o.err.None? && mp.None? && !cfg.isShuffle ==>
            state == End && result == CallResult(None, ExecStop) && err.None? && probeSideKept)
      && (o.err.None? && (mp.Some? || cfg.isShuffle) ==>
            ProbeStepped(probePos0, None, lastrow0, rbat0, probed0, released0, result, err))
    }

    /**
     * A call in the build state (the `Build` case of the call's loop): builds;
     * a failed build returns its error, and otherwise the loop goes round
     * once more in the state the build chose.
     */
    method BuildThenProbe() returns (result: CallResult<Output>, err: Option<Error>)
      requires Valid() && state == Build
      modifies this
      ensures Valid()
      ensures BuildStepped(old(buildPos), old(batches), old(mp), old(probePos), old(lastrow), old(rbat), old(probed), old(released), result, err)
    {
      var e := BuildState();
      if e.Some? {
        return NewCallResult(), e;
      }
      if state == End {
        return CallResult(None, ExecStop), None;
      }
      assert probePos == old(probePos) && bat.None? && lastrow == old(lastrow) && rbat == old(rbat)
        && probed == old(probed) && released == old(released);
      result, err := ProbeState();
      assert ProbeStepped(old(probePos), None, old(lastrow), old(rbat), old(probed), old(released), result, err);
    }

    /**
     * One call of the operator: after the cancellation check, builds (in the
     * build state), then probes (in the probe state); the end state returns
     * no batch and the stop status.
     */
    method Call(cancelled: bool) returns (result: CallResult<Output>, err: Option<Error>)
      requires Valid()
      modifies this
      ensures Valid()
      ensures cancelled ==> result == CancelResult() && err == Some(Canceled) && unchanged(this)
      ensures !cancelled && old(state) == End ==> result == CallResult(None, ExecStop) && err.None? && unchanged(this)
      ensures !cancelled && old(state) == Probe ==>
        ProbeStepped(old(probePos), old(bat), old(lastrow), old(rbat), old(probed), old(released), result, err)
      ensures old(state) != Build ==> mp == old(mp) && batches == old(batches) && buildPos == old(buildPos)
      ensures !cancelled && old(state) == Build ==>
        BuildStepped(old(buildPos), old(batches), old(mp), old(probePos), old(lastrow), old(rbat), old(probed), old(released), result, err)
    {
      if cancelled {
        return CancelResult(), Some(Canceled);
      }
      if state == Build {
        result, err := BuildThenProbe();
        return;
      }
      if state == Probe {
        result, err := ProbeState();
        return;
      }
      return CallResult(None, ExecStop), None;
    }
  }
}
