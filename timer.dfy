/** Model of putong's Timer and SplitTimer<num_splits>. Time points are
    integer nanoseconds; the clock is not read by the timers here, its reading
    is passed in as `now` to every operation that calls clock::now(). */
module PutongTimer {
  import SplitSpec

  /** What Split() does: record a time point, or refuse with the overflow
      error (the source throws a runtime_error). */
  datatype Outcome = Pass | Fail(error: SplitSpec.TimerError)

  /** The two-point timer: start_ and stop_. */
  class Timer {
    var startPoint: int
    var stopPoint: int

    /** Timer(start): both points at the clock's epoch, then Start() if asked. */
    constructor (start: bool := false, now: int := 0)
      ensures startPoint == (if start then now else 0)
      ensures stopPoint == 0
    {
      startPoint, stopPoint := 0, 0;
      new;
      if start {
        Start(now);
      }
    }

    /** Start(): only the start point changes. */
    method Start(now: int)
      modifies this`startPoint
      ensures startPoint == now && stopPoint == old(stopPoint)
    {
      startPoint := now;
    }

    /** Stop(): only the stop point changes. */
    method Stop(now: int)
      modifies this`stopPoint
      ensures stopPoint == now && startPoint == old(startPoint)
    {
      stopPoint := now;
    }

    /** seconds(): the elapsed time from the start point to the stop point. */
    function Seconds(): (elapsed: int)
      reads this
      ensures startPoint + elapsed == stopPoint
    {
      stopPoint - startPoint
    }
  }

  /** The split timer: splits[0..num_splits] and the cursor split_idx. */
  class SplitTimer {
    const numSplits: nat
    const splits: array<int>
    var splitIdx: nat

    ghost predicate Valid()
      reads this
    {
      numSplits > 0 && splits.Length == numSplits + 1 && splitIdx <= numSplits + 1
    }

    /** The timer's state as a value of the specification. */
    ghost function State(): (s: SplitSpec.SplitState)
      reads this, splits
      requires Valid()
      ensures SplitSpec.WellFormed(s) && SplitSpec.Capacity(s) == numSplits
    {
      SplitSpec.SplitState(splits[..], splitIdx)
    }

    /** SplitTimer(start): every time point at the epoch and the cursor at 0;
        with start set, the same followed by Start(). */
    constructor (numSplits: nat, start: bool := false, now: int := 0)
      requires numSplits > 0
      ensures Valid() && fresh(splits) && this.numSplits == numSplits
      ensures State() == if start then SplitSpec.Start(SplitSpec.Initial(numSplits), now)
                         else SplitSpec.Initial(numSplits)
    {
      this.numSplits := numSplits;
      splits := new int[numSplits + 1](_ => 0);
      splitIdx := 0;
      new;
      assert splits[..] == SplitSpec.Initial(numSplits).slots;
      if start {
        Start(now);
      }
    }

    /** The copy constructor: a buffer of its own holding the same time
        points, and the same cursor value. */
    constructor Copy(s: SplitTimer)
      requires s.Valid()
      ensures Valid() && fresh(splits) && numSplits == s.numSplits
      ensures State() == s.State()
    {
      numSplits := s.numSplits;
      var a := new int[s.numSplits + 1];
      var i := 0;
      while i < s.numSplits + 1
        invariant 0 <= i <= s.numSplits + 1
        invariant forall j :: 0 <= j < i ==> a[j] == s.splits[j]
      {
        a[i] := s.splits[i];
        i := i + 1;
      }
      splits := a;
      splitIdx := s.splitIdx;
      new;
      assert splits[..] == s.splits[..];
    }

    /** operator=: this timer takes the other's time points and cursor value
        and keeps its own buffer; the other is left as it was, even when it
        is this timer itself. */
    method Assign(other: SplitTimer)
      requires Valid() && other.Valid() && other.numSplits == numSplits
      modifies this`splitIdx, splits
      ensures Valid()
      ensures State() == old(other.State())
      ensures other.State() == old(other.State())
    {
      var i := 0;
      while i < numSplits + 1
        invariant 0 <= i <= numSplits + 1
        invariant forall j :: 0 <= j < i ==> splits[j] == old(other.splits[j])
        invariant forall j :: i <= j < numSplits + 1 ==> other.splits[j] == old(other.splits[j])
        invariant other.splitIdx == old(other.splitIdx)
      {
        splits[i] := other.splits[i];
        i := i + 1;
      }
      splitIdx := other.splitIdx;
      assert splits[..] == old(other.splits[..]);
      assert other.splits[..] == old(other.splits[..]);
    }

    /** Start(): see SplitSpec.Start. */
    method Start(now: int)
      requires Valid()
      modifies this`splitIdx, splits
      ensures Valid()
      ensures State() == SplitSpec.Start(old(State()), now)
    {
      splits[0] := now;
      splitIdx := 1;
    }

    /** Split(): see SplitSpec.Split; on overflow nothing changes. */
    method Split(now: int) returns (outcome: Outcome)
      requires Valid()
      modifies this`splitIdx, splits
      ensures Valid()
      ensures match SplitSpec.Split(old(State()), now)
        case Success(t) => outcome == Pass && State() == t
        case Failure(e) => outcome == Fail(e) && State() == old(State())
    {
      if splitIdx > numSplits {
        return Fail(SplitSpec.Overflow(numSplits));
      }
      var idx := splitIdx;
      splitIdx := splitIdx + 1;
      splits[idx] := now;
      outcome := Pass;
    }

    /** seconds(): the num_splits durations between consecutive time points.
        It changes nothing, so two calls in a row give the same result. */
    method Seconds() returns (result: seq<int>)
      requires Valid()
      ensures result == SplitSpec.Durations(splits[..])
    {
      result := [];
      var i := 1;
      while i < numSplits + 1
        invariant 1 <= i <= numSplits + 1
        invariant |result| == i - 1
        invariant forall j :: 0 <= j < i - 1 ==> result[j] == splits[j + 1] - splits[j]
      {
        result := result + [splits[i] - splits[i - 1]];
        i := i + 1;
      }
      var slots := splits[..];
      forall j | 0 <= j < |result|
        ensures result[j] == SplitSpec.Durations(slots)[j]
      {
        assert slots[j] == splits[j] && slots[j + 1] == splits[j + 1];
      }
    }
  }
}
