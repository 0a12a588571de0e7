/** The uses of SplitTimer that the library's tests exercise, with a clock
    whose readings the caller chooses in place of sleeping threads. */
module TimerScenarios {
  import SplitSpec
  import opened PutongTimer

  /** Start() and then num_splits splits, one every d nanoseconds: every
      duration that seconds() reports is d, and the cursor ends full. */
  method FixedStepSplits(numSplits: nat, t0: int, d: int) returns (cursor: nat, seconds: seq<int>)
    requires numSplits > 0
    ensures cursor == numSplits + 1
    ensures seconds == seq(numSplits, _ => d)
  {
    var t := new SplitTimer(numSplits);
    t.Start(t0);
    var k := 0;
    while k < numSplits
      invariant 0 <= k <= numSplits
      invariant t.Valid() && t.numSplits == numSplits && fresh(t.splits)
      invariant t.splitIdx == k + 1
      invariant forall j :: 0 <= j <= k ==> t.splits[j] == t0 + j * d
    {
      var outcome := t.Split(t0 + (k + 1) * d);
      k := k + 1;
    }
    cursor := t.splitIdx;
    seconds := t.Seconds();
    forall i | 0 <= i < numSplits
      ensures seconds[i] == d
    {
      assert t.splits[..][i + 1] == t0 + (i + 1) * d && t.splits[..][i] == t0 + i * d;
      assert (i + 1) * d == i * d + d;
    }
  }

  /** A timer started at t0 and split at t1 and t2, then copy-constructed;
      the copy is split once more at t3. The copy starts with the source's
      cursor 3 and time points, and its split leaves the source untouched. */
  method CopyConstructThenSplitCopy(t0: int, t1: int, t2: int, t3: int)
    returns (sourceCursor: nat, sourceSlots: seq<int>, copyCursor: nat, copySlots: seq<int>)
    ensures sourceCursor == 3 && sourceSlots == [t0, t1, t2, 0]
    ensures copyCursor == 4 && copySlots == [t0, t1, t2, t3]
  {
    var x := new SplitTimer(3, true, t0);
    var o1 := x.Split(t1);
    var o2 := x.Split(t2);
    var y := new SplitTimer.Copy(x);
    assert y.splitIdx == 3 && y.splits[..] == x.splits[..];
    var o3 := y.Split(t3);
    sourceCursor, sourceSlots := x.splitIdx, x.splits[..];
    copyCursor, copySlots := y.splitIdx, y.splits[..];
  }

  /** The same recording copy-assigned into a timer that was never started;
      then the source is split once more at t3. The target takes cursor 3
      and the time points, and the source's split leaves the target untouched. */
  method CopyAssignThenSplitSource(t0: int, t1: int, t2: int, t3: int)
    returns (sourceCursor: nat, sourceSlots: seq<int>, targetCursor: nat, targetSlots: seq<int>)
    ensures sourceCursor == 4 && sourceSlots == [t0, t1, t2, t3]
    ensures targetCursor == 3 && targetSlots == [t0, t1, t2, 0]
  {
    var x := new SplitTimer(3, true, t0);
    var o1 := x.Split(t1);
    var o2 := x.Split(t2);
    var y := new SplitTimer(3);
    y.Assign(x);
    assert y.splitIdx == 3 && y.splits[..] == x.splits[..];
    var o3 := x.Split(t3);
    sourceCursor, sourceSlots := x.splitIdx, x.splits[..];
    targetCursor, targetSlots := y.splitIdx, y.splits[..];
  }

  /** A timer of capacity n started once and split n + 1 times: the last
      split is refused with the overflow error and writes nothing. */
  method OverflowAfterCapacity(numSplits: nat, t0: int, readings: seq<int>)
    returns (outcome: Outcome, cursor: nat)
    requires numSplits > 0 && |readings| == numSplits + 1
    ensures outcome == Fail(SplitSpec.Overflow(numSplits))
    ensures cursor == numSplits + 1
  {
    var t := new SplitTimer(numSplits, true, t0);
    var k := 0;
    outcome := Pass;
    while k < numSplits + 1
      invariant 0 <= k <= numSplits + 1
      invariant t.Valid() && t.numSplits == numSplits && fresh(t.splits)
      invariant t.splitIdx == (if k <= numSplits then k + 1 else numSplits + 1)
      invariant k == numSplits + 1 ==> outcome == Fail(SplitSpec.Overflow(numSplits))
    {
      outcome := t.Split(readings[k]);
      k := k + 1;
    }
    cursor := t.splitIdx;
  }

  /** The two-point timer started at t0 and stopped at t1 reports t1 - t0. */
  method MeasureInterval(t0: int, t1: int) returns (elapsed: int)
    ensures elapsed == t1 - t0
  {
    var t := new Timer();
    t.Start(t0);
    t.Stop(t1);
    elapsed := t.Seconds();
  }
}
