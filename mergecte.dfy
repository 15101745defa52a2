/**
 * The merge operator of a recursive common table expression. Its first
 * register delivers the anchor part of the query; the others deliver the
 * rows each recursive worker produces, each round closed by a last-batch
 * marker. The operator first passes on the anchor batches, then sends one
 * marker batch of its own to start the recursion, and from then on passes
 * on the recursive batches; when every worker has sent its marker for a
 * round, one marker goes out and the recursion is one level deeper.
 *
 * The registers are scripted sequences of messages (see `Common`); the
 * messages of all the recursive registers arrive as one sequence, in the
 * order receiving from all of them yields them.
 */
module MergeCte {
  import opened Common

  /** A batch: column names, the (varchar) values of each column, the row count and the last-batch flag. */
  datatype CteBatch = CteBatch(attrs: seq<string>, cols: seq<seq<string>>, rowCount: nat, last: bool)

  /** One column name per column, and each column holds one value per row. */
  predicate WellShaped(b: CteBatch)
  {
    |b.attrs| == |b.cols| && forall j :: 0 <= j < |b.cols| ==> |b.cols[j]| == b.rowCount
  }

  /**
   * `makeRecursiveBatch`: the marker that starts the recursion, one row in
   * one varchar column. It is flagged last, so the recursive workers and
   * this operator read it as a marker, not as rows.
   */
  function MakeRecursiveBatch(): (b: CteBatch)
    ensures WellShaped(b) && b.rowCount == 1 && |b.cols| == 1 && b.last
  {
    CteBatch(["recursive_col"], [["check recursive status"]], 1, true)
  }

  datatype Status = SendInitial | SendLastTag | SendRecursive

  /** The batch `b` as a sequence of one, or the empty sequence. */
  function Held(b: Option<CteBatch>): seq<CteBatch>
  {
    if b.Some? then [b.value] else []
  }

  /** The last batch of `s`, if any. */
  function LastOf(s: seq<CteBatch>): Option<CteBatch>
  {
    if |s| == 0 then None else Some(s[|s| - 1])
  }

  // ----- Receiving in the recursive state -----

  /**
   * Why a run of receives in the recursive state stopped: the registers
   * are all closed; a batch of rows arrived; the marker closing a round
   * arrived; or that marker took the recursion past its limit.
   */
  datatype RecvKind = RecvEnd | RecvData(b: CteBatch) | RecvRound(b: CteBatch) | RecvTooDeep(b: CteBatch)

  /**
   * What the run found, the markers it handed back to the pool, the
   * countdown and the level after it, and where the registers are then.
   */
  datatype RecursiveScan = RecursiveScan(kind: RecvKind, released: seq<CteBatch>, cur: int, level: int, next: nat)

  /** The markers a run receives: those it hands back, and the one that completes a round, if any. */
  function MarkersOf(sc: RecursiveScan): nat
  {
    |sc.released| + (if sc.kind.RecvRound? || sc.kind.RecvTooDeep? then 1 else 0)
  }

  /**
   * Receiving from `pos` on with countdown `cur` at level `level`: a
   * missing batch ends the stream and a batch of rows stops the receiving;
   * a marker counts down; a marker that brings the countdown to zero
   * resets it to `nodeCnt`, deepens the level and stops the receiving
   * (with an error past `max`); any other marker is handed back and the
   * receiving goes on.
   */
  function ScanRecursive(script: seq<Message<CteBatch>>, pos: nat, nodeCnt: int, cur: int, level: int, max: int): RecursiveScan
    decreases |script| - pos
  {
    var m := At(script, pos);
    if m.batch.None? then RecursiveScan(RecvEnd, [], cur, level, Next(script, pos))
    else if !m.batch.value.last then RecursiveScan(RecvData(m.batch.value), [], cur, level, pos + 1)
    else if cur - 1 == 0 then
      if level + 1 > max then RecursiveScan(RecvTooDeep(m.batch.value), [], nodeCnt, level + 1, pos + 1)
      else RecursiveScan(RecvRound(m.batch.value), [], nodeCnt, level + 1, pos + 1)
    else
      var rest := ScanRecursive(script, pos + 1, nodeCnt, cur - 1, level, max);
      RecursiveScan(rest.kind, [m.batch.value] + rest.released, rest.cur, rest.level, rest.next)
  }

  /**
   * What a run of receives does to the counters: a batch of rows or the
   * end of the stream leaves the level alone and counts the handed-back
   * markers off the countdown; a round's marker is the one that brings the
   * countdown to zero, resets it and deepens the level by one, and the
   * level then passes `max` exactly when the run reports the error. Every
   * handed-back marker is flagged last, and a batch of rows is not.
   */
  lemma {:induction false} ScanRecursiveFacts(script: seq<Message<CteBatch>>, pos: nat, nodeCnt: int, cur: int, level: int, max: int)
    ensures var r := ScanRecursive(script, pos, nodeCnt, cur, level, max);
      && pos <= r.next
      && (r.kind.RecvEnd? || r.kind.RecvData? ==> r.level == level && r.cur == cur - |r.released|)
      && (r.kind.RecvRound? || r.kind.RecvTooDeep? ==>
            r.level == level + 1 && r.cur == nodeCnt && cur - |r.released| == 1 && r.kind.b.last)
      && (r.kind.RecvRound? ==> r.level <= max)
      && (r.kind.RecvTooDeep? ==> r.level > max)
      && (r.kind.RecvData? ==> !r.kind.b.last)
      && (forall k :: 0 <= k < |r.released| ==> r.released[k].last)
    decreases |script| - pos
  {
    var m := At(script, pos);
    if m.batch.Some? && m.batch.value.last && cur - 1 != 0 {
      ScanRecursiveFacts(script, pos + 1, nodeCnt, cur - 1, level, max);
    }
  }

  /** A marker that leaves the countdown above zero is handed back, and the receiving goes on after it. */
  lemma ScanRecursiveSkip(script: seq<Message<CteBatch>>, pos: nat, nodeCnt: int, cur: int, level: int, max: int)
    requires pos < |script| && script[pos].batch.Some? && script[pos].batch.value.last && cur - 1 != 0
    ensures var rest := ScanRecursive(script, pos + 1, nodeCnt, cur - 1, level, max);
      ScanRecursive(script, pos, nodeCnt, cur, level, max)
        == RecursiveScan(rest.kind, [script[pos].batch.value] + rest.released, rest.cur, rest.level, rest.next)
  {
  }

  /**
   * With a countdown between 1 and `nodeCnt`, a run of receives hands back
   * fewer markers than the countdown, and leaves it between 1 and
   * `nodeCnt` again.
   */
  lemma {:induction false} ScanRecursiveBounds(script: seq<Message<CteBatch>>, pos: nat, nodeCnt: int, cur: int, level: int, max: int)
    requires 1 <= cur <= nodeCnt
    ensures var r := ScanRecursive(script, pos, nodeCnt, cur, level, max);
      |r.released| < cur && 1 <= r.cur <= nodeCnt
    decreases |script| - pos
  {
    var m := At(script, pos);
    if m.batch.Some? && m.batch.value.last && cur - 1 != 0 {
      ScanRecursiveBounds(script, pos + 1, nodeCnt, cur - 1, level, max);
    }
  }

  /**
   * The barrier: when every marker received so far was counted, the level
   * is the number of complete rounds of `nodeCnt` markers, and the
   * countdown says how many markers of the round in progress are still
   * missing.
   */
  lemma LevelCountsRounds(markers: nat, nodeCnt: int, cur: int, level: int)
    requires 1 <= cur <= nodeCnt && 0 <= level
    requires markers == level * nodeCnt + (nodeCnt - cur)
    ensures level == markers / nodeCnt
    ensures nodeCnt - cur == markers % nodeCnt
  {
    var q, r := markers / nodeCnt, markers % nodeCnt;
    assert markers == q * nodeCnt + r;
    if q < level {
      assert level * nodeCnt == (level - q) * nodeCnt + q * nodeCnt;
      MultipleGap(level - q, nodeCnt);
    } else if q > level {
      assert q * nodeCnt == (q - level) * nodeCnt + level * nodeCnt;
      MultipleGap(q - level, nodeCnt);
    }
    assert level * nodeCnt == q * nodeCnt;
  }

  /** The marker that completes a round is counted by the next level and a full countdown. */
  lemma RoundCounted(markers: nat, nodeCnt: int, level: int)
    requires markers == level * nodeCnt + (nodeCnt - 1) + 1
    ensures markers == (level + 1) * nodeCnt + (nodeCnt - nodeCnt)
  {
    assert (level + 1) * nodeCnt == level * nodeCnt + nodeCnt;
  }

  /** The multiples of a positive `n` are at least `n` apart. */
  lemma MultipleGap(d: int, n: int)
    requires d >= 1 && n >= 1
    ensures d * n >= n
  {
    assert d * n == (d - 1) * n + n;
    assert (d - 1) * n >= 0;
  }

  /** The recursive CTE merge operator and the state it keeps between calls. */
  class Argument {
    /** The recursion limit (`moDefaultRecursionMax`). */
    const recursionMax: int
    /** The anchor's register, and the messages of all the recursive registers as received. */
    const anchorReg: seq<Message<CteBatch>>
    const recursiveReg: seq<Message<CteBatch>>
    var anchorPos: nat
    var recursivePos: nat
    /** Whether the anchor's register is still among those received from. */
    var anchorPolled: bool

    var status: Status
    /** The number of recursive workers (set once, by `Prepare`), and the markers still missing in this round. */
    const nodeCnt: int
    var curNodeCnt: int
    var recursiveLever: int
    /** The batch returned by the previous call, handed back to the pool at the start of the next. */
    var buf: Option<CteBatch>
    /** The batches handed back to the pool. */
    ghost var released: seq<CteBatch>
    /** The markers received from the recursive registers. */
    ghost var markers: nat

    /**
     * Between calls the status is never `SendLastTag`; before the recursion
     * starts nothing is counted; the countdown stays at most `nodeCnt`
     * (and at least 1 when there is a worker); and the counters account
     * for every marker received.
     */
    ghost predicate Valid()
      reads this
    {
      && status != SendLastTag
      && (status == SendInitial ==>
            anchorPolled && recursivePos == 0 && markers == 0 && recursiveLever == 0 && curNodeCnt == nodeCnt)
      && (status == SendRecursive ==> !anchorPolled)
      && Counted()
    }

    ghost predicate Counted()
      reads this`curNodeCnt, this`recursiveLever, this`markers
    {
      && curNodeCnt <= nodeCnt && 0 <= recursiveLever
      && (nodeCnt >= 1 ==> 1 <= curNodeCnt)
      && (nodeCnt < 1 ==> recursiveLever == 0)
      && markers == recursiveLever * nodeCnt + (nodeCnt - curNodeCnt)
    }

    /**
     * `Prepare`: with `receivers` registers, one anchor and the recursive
     * workers, the countdown starts full at the number of workers, in the
     * initial state at level 0.
     */
    constructor (receivers: nat, anchorReg: seq<Message<CteBatch>>, recursiveReg: seq<Message<CteBatch>>, recursionMax: int)
      ensures Valid()
      ensures this.anchorReg == anchorReg && this.recursiveReg == recursiveReg && this.recursionMax == recursionMax
      ensures nodeCnt == receivers - 1 && curNodeCnt == nodeCnt
      ensures status == SendInitial && recursiveLever == 0
      ensures anchorPos == 0 && recursivePos == 0 && anchorPolled && buf.None? && released == []
    {
      this.recursionMax := recursionMax;
      this.anchorReg := anchorReg;
      this.recursiveReg := recursiveReg;
      anchorPos, recursivePos := 0, 0;
      anchorPolled := true;
      nodeCnt := receivers - 1;
      curNodeCnt := receivers - 1;
      status := SendInitial;
      recursiveLever := 0;
      buf := None;
      released, markers := [], 0;
    }

    /**
     * A marker counts down; the one that brings the countdown to zero
     * completes the round: the countdown is reset and the level deepens.
     */
    method CountMarker() returns (roundDone: bool)
      requires Counted()
      modifies this`curNodeCnt, this`recursiveLever, this`markers
      ensures Counted()
      ensures roundDone == (old(curNodeCnt) - 1 == 0) && markers == old(markers) + 1
      ensures roundDone ==> curNodeCnt == nodeCnt && recursiveLever == old(recursiveLever) + 1
      ensures !roundDone ==> curNodeCnt == old(curNodeCnt) - 1 && recursiveLever == old(recursiveLever)
    {
      curNodeCnt := curNodeCnt - 1;
      markers := markers + 1;
      roundDone := curNodeCnt == 0;
      if roundDone {
        RoundCounted(markers, nodeCnt, recursiveLever);
        curNodeCnt := nodeCnt;
        recursiveLever := recursiveLever + 1;
      }
    }

    /**
     * One pass of the receive loop: a missing batch ends the stream and
     * leaves `buf` as it was; a batch of rows is passed on as it came; a
     * marker counts down, and the one that completes a round is passed on
     * (or gives the recursion error past the limit). Any other marker is
     * handed back (`None`), and the receiving goes on after it.
     */
    method ReceiveOne() returns (kind: Option<RecvKind>)
      requires Counted()
      modifies this`recursivePos, this`curNodeCnt, this`recursiveLever, this`buf, this`released, this`markers
      ensures Counted()
      ensures var before := ScanRecursive(recursiveReg, old(recursivePos), nodeCnt, old(curNodeCnt), old(recursiveLever), recursionMax);
        kind.Some? ==>
          && before == RecursiveScan(kind.value, [], curNodeCnt, recursiveLever, recursivePos)
          && released == old(released) && buf == (if kind.value.RecvEnd? then old(buf) else Some(kind.value.b))
          && markers == old(markers) + (if kind.value.RecvRound? || kind.value.RecvTooDeep? then 1 else 0)
      ensures var before := ScanRecursive(recursiveReg, old(recursivePos), nodeCnt, old(curNodeCnt), old(recursiveLever), recursionMax);
        var after := ScanRecursive(recursiveReg, recursivePos, nodeCnt, curNodeCnt, recursiveLever, recursionMax);
        kind.None? ==>
          && buf.Some? && released == old(released) + [buf.value] && old(recursivePos) < recursivePos
          && markers == old(markers) + 1
          && before == RecursiveScan(after.kind, [buf.value] + after.released, after.cur, after.level, after.next)
    {
      var msg := At(recursiveReg, recursivePos);
      ghost var pos, cur, level := recursivePos, curNodeCnt, recursiveLever;
      recursivePos := Next(recursiveReg, recursivePos);
      if msg.batch.None? {
        return Some(RecvEnd);
      }
      buf := msg.batch;
      if !buf.value.last {
        return Some(RecvData(buf.value));
      }
      // `SetLast` on a batch already flagged last changes nothing here.
      var roundDone := CountMarker();
      if roundDone {
        if recursiveLever > recursionMax {
          return Some(RecvTooDeep(buf.value));
        }
        return Some(RecvRound(buf.value));
      }
      ScanRecursiveSkip(recursiveReg, pos, nodeCnt, cur, level, recursionMax);
      released := released + [buf.value];
      return None;
    }

    /**
     * The receive loop of the recursive state: runs `ReceiveOne` until it
     * stops. When the registers are all closed the marker last handed back
     * (if any) stays in `buf`.
     */
    method ReceiveRecursive() returns (kind: RecvKind)
      requires Valid() && status == SendRecursive && buf.None?
      modifies this`recursivePos, this`curNodeCnt, this`recursiveLever, this`buf, this`released, this`markers
      ensures Valid()
      ensures var sc := ScanRecursive(recursiveReg, old(recursivePos), nodeCnt, old(curNodeCnt), old(recursiveLever), recursionMax);
        && kind == sc.kind && recursivePos == sc.next && curNodeCnt == sc.cur && recursiveLever == sc.level
        && released == old(released) + sc.released && markers == old(markers) + MarkersOf(sc)
        && buf == (if kind.RecvEnd? then LastOf(sc.released) else Some(kind.b))
    {
      ghost var sc := ScanRecursive(recursiveReg, recursivePos, nodeCnt, curNodeCnt, recursiveLever, recursionMax);
      ghost var released0, markers0 := released, markers;
      ghost var skipped: seq<CteBatch> := [];
      while true
        invariant Counted()
        invariant released == released0 + skipped && buf == LastOf(skipped) && markers == markers0 + |skipped|
        invariant var rest := ScanRecursive(recursiveReg, recursivePos, nodeCnt, curNodeCnt, recursiveLever, recursionMax);
          && rest.kind == sc.kind && rest.next == sc.next && rest.cur == sc.cur && rest.level == sc.level
          && sc.released == skipped + rest.released
        decreases |recursiveReg| - recursivePos
      {
        var k := ReceiveOne();
        if k.Some? {
          return k.value;
        }
        ghost var rest := ScanRecursive(recursiveReg, recursivePos, nodeCnt, curNodeCnt, recursiveLever, recursionMax).released;
        assert skipped + ([buf.value] + rest) == (skipped + [buf.value]) + rest;
        skipped := skipped + [buf.value];
      }
    }

    /**
     * One call of the operator. After the cancellation check it hands back
     * the batch of the previous call. In the initial state it passes on the
     * next anchor batch; when there is none, the same call stops receiving
     * from the anchor, moves to the recursive state and sends the marker
     * that starts the recursion. In the recursive state it receives as
     * `ReceiveRecursive` says: rows and round markers are passed on, the
     * end of the stream stops, and so does the recursion limit, with its
     * error.
     */
    method Call(cancelled: bool) returns (result: CallResult<CteBatch>, err: Option<Error>)
      requires Valid()
      modifies this
      ensures Valid()
      ensures cancelled ==> result == CancelResult() && err == Some(Canceled) && unchanged(this)
      ensures !cancelled ==> recursiveLever >= old(recursiveLever)
      ensures !cancelled && old(status) == SendInitial ==>
        var msg := At(anchorReg, old(anchorPos));
        && anchorPos == Next(anchorReg, old(anchorPos)) && recursivePos == old(recursivePos)
        && curNodeCnt == old(curNodeCnt) && recursiveLever == old(recursiveLever) && markers == old(markers)
        && released == old(released) + Held(old(buf))
        && (msg.err.Some? ==> err == msg.err && result == CallResult(None, ExecStop) && status == SendInitial && buf.None?)
        && (msg.err.None? && msg.batch.Some? ==>
              err.None? && result == CallResult(msg.batch, ExecNext) && status == SendInitial && buf == msg.batch)
        && (msg.err.None? && msg.batch.None? ==>
              && err.None? && result == CallResult(Some(MakeRecursiveBatch()), ExecNext)
              && status == SendRecursive && !anchorPolled && buf == Some(MakeRecursiveBatch()))
      ensures !cancelled && old(status) == SendRecursive ==>
        var sc := ScanRecursive(recursiveReg, old(recursivePos), nodeCnt, old(curNodeCnt), old(recursiveLever), recursionMax);
        && status == SendRecursive && anchorPos == old(anchorPos)
        && recursivePos == sc.next && curNodeCnt == sc.cur && recursiveLever == sc.level
        && released == old(released) + Held(old(buf)) + sc.released && markers == old(markers) + MarkersOf(sc)
        && match sc.kind
           case RecvEnd => result == CallResult(None, ExecStop) && err.None? && buf == LastOf(sc.released)
           case RecvData(b) => result == CallResult(Some(b), ExecNext) && err.None? && buf == Some(b)
           case RecvRound(b) => result == CallResult(Some(b), ExecNext) && err.None? && buf == Some(b)
           case RecvTooDeep(b) => result == CallResult(None, ExecStop) && err == Some(RecursionTooDeep) && buf == Some(b)
    {
      if cancelled {
        return CancelResult(), Some(Canceled);
      }
      result := NewCallResult();
      if buf.Some? {
        released := released + [buf.value];
        buf := None;
      }
      if status == SendInitial || status == SendLastTag {
        result, err := SendAnchor(result);
      } else {
        result, err := SendRecursiveBatch(result);
      }
    }

    /**
     * The initial state and the one it falls through to: the next anchor
     * batch is passed on; without one, the anchor's register is no longer
     * received from, the recursive state begins, and the marker that starts
     * the recursion goes out.
     */
    method SendAnchor(result0: CallResult<CteBatch>) returns (result: CallResult<CteBatch>, err: Option<Error>)
      requires Valid() && status != SendRecursive && buf.None? && result0 == NewCallResult()
      modifies this`anchorPos, this`buf, this`status, this`anchorPolled
      ensures Valid()
      ensures var msg := At(anchorReg, old(anchorPos));
        && anchorPos == Next(anchorReg, old(anchorPos))
        && (msg.err.Some? ==> err == msg.err && result == CallResult(None, ExecStop) && status == SendInitial && buf.None?)
        && (msg.err.None? && msg.batch.Some? ==>
              err.None? && result == CallResult(msg.batch, ExecNext) && status == SendInitial && buf == msg.batch)
        && (msg.err.None? && msg.batch.None? ==>
              && err.None? && result == CallResult(Some(MakeRecursiveBatch()), ExecNext)
              && status == SendRecursive && !anchorPolled && buf == Some(MakeRecursiveBatch()))
    {
      result := result0;
      if status == SendInitial {
        var msg := At(anchorReg, anchorPos);
        anchorPos := Next(anchorReg, anchorPos);
        if msg.err.Some? {
          result := result.(status := ExecStop);
          return result, msg.err;
        }
        buf := msg.batch;
        if buf.None? {
          status := SendLastTag;
        }
      }
      // The initial state falls through to this one.
      if status == SendLastTag {
        status := SendRecursive;
        buf := Some(MakeRecursiveBatch());
        anchorPolled := false;
      }
      result := result.(batch := buf);
      return result, None;
    }

    /**
     * The recursive state: receives as `ReceiveRecursive` says, passes on
     * a batch of rows or a round's marker, and stops at the end of the
     * stream, or with the error when the recursion is too deep.
     */
    method SendRecursiveBatch(result0: CallResult<CteBatch>) returns (result: CallResult<CteBatch>, err: Option<Error>)
      requires Valid() && status == SendRecursive && buf.None? && result0 == NewCallResult()
      modifies this`recursivePos, this`curNodeCnt, this`recursiveLever, this`buf, this`released, this`markers
      ensures Valid()
      ensures var sc := ScanRecursive(recursiveReg, old(recursivePos), nodeCnt, old(curNodeCnt), old(recursiveLever), recursionMax);
        && recursivePos == sc.next && curNodeCnt == sc.cur && recursiveLever == sc.level && recursiveLever >= old(recursiveLever)
        && released == old(released) + sc.released && markers == old(markers) + MarkersOf(sc)
        && match sc.kind
           case RecvEnd => result == CallResult(None, ExecStop) && err.None? && buf == LastOf(sc.released)
           case RecvData(b) => result == CallResult(Some(b), ExecNext) && err.None? && buf == Some(b)
           case RecvRound(b) => result == CallResult(Some(b), ExecNext) && err.None? && buf == Some(b)
           case RecvTooDeep(b) => result == CallResult(None, ExecStop) && err == Some(RecursionTooDeep) && buf == Some(b)
    {
      result := result0;
      ScanRecursiveFacts(recursiveReg, recursivePos, nodeCnt, curNodeCnt, recursiveLever, recursionMax);
      var kind := ReceiveRecursive();
      if kind.RecvEnd? {
        return result.(batch := None, status := ExecStop), None;
      }
      if kind.RecvTooDeep? {
        return result.(status := ExecStop), Some(RecursionTooDeep);
      }
      result := result.(batch := buf);
      return result, None;
    }
  }
}
