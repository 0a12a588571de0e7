/** The state of a SplitTimer<num_splits> as a value: the num_splits + 1 time
    points (integer nanoseconds) and the cursor split_idx, with the effect of
    Start(), Split() and seconds() on it. The class PutongTimer.SplitTimer is
    proved against these functions. */
module SplitSpec {
  import opened Decimal

  datatype Result<T, E> = Success(value: T) | Failure(error: E)

  /** The error Split() raises: the timer already holds its num_splits splits. */
  datatype TimerError = Overflow(capacity: nat)

  /** The text of the runtime_error that Split() throws on overflow: a fixed
      prefix, the capacity in decimal, and a fixed suffix, so the capacity
      can be read back from the message. */
  function ErrorMessage(e: TimerError): (m: string)
    ensures 28 <= |m| - 8
    ensures m[..28] == "Putong SplitTimer overflows "
    ensures m[|m| - 8..] == " splits."
    ensures forall i :: 28 <= i < |m| - 8 ==> '0' <= m[i] <= '9'
    ensures ParseDecimal(m[28..|m| - 8]) == e.capacity
  {
    var digits := DecimalString(e.capacity);
    var m := "Putong SplitTimer overflows " + digits + " splits.";
    assert m[28..|m| - 8] == digits;
    ParseDecimalString(e.capacity);
    m
  }

  /** slots models splits[0..num_splits]; cursor models split_idx. */
  datatype SplitState = SplitState(slots: seq<int>, cursor: nat)

  /** The shape every SplitTimer has: num_splits > 0 (the static_assert), so
      at least two slots, and a cursor that never passes num_splits + 1. */
  predicate WellFormed(s: SplitState) {
    |s.slots| >= 2 && s.cursor <= |s.slots|
  }

  /** num_splits. */
  function Capacity(s: SplitState): nat
    requires WellFormed(s)
  {
    |s.slots| - 1
  }

  /** A freshly constructed timer: every time point is the clock's epoch and
      the cursor is 0. */
  function Initial(numSplits: nat): (s: SplitState)
    requires numSplits > 0
    ensures WellFormed(s) && Capacity(s) == numSplits
    ensures s.cursor == 0
    ensures forall i :: 0 <= i < |s.slots| ==> s.slots[i] == 0
  {
    SplitState(seq(numSplits + 1, _ => 0), 0)
  }

  /** Start(): slot 0 takes the clock reading and the cursor becomes 1,
      whatever the state was, a full timer included. */
  function Start(s: SplitState, now: int): (r: SplitState)
    requires WellFormed(s)
    ensures WellFormed(r) && Capacity(r) == Capacity(s)
    ensures r.cursor == 1 && r.slots[0] == now
    ensures forall i :: 1 <= i < |s.slots| ==> r.slots[i] == s.slots[i]
  {
    SplitState(s.slots[0 := now], 1)
  }

  /** Split(): with cursor k <= num_splits, slot k takes the clock reading
      and the cursor becomes k + 1; past that it is an overflow and nothing
      is written. */
  function Split(s: SplitState, now: int): (r: Result<SplitState, TimerError>)
    requires WellFormed(s)
    ensures r.Success? <==> s.cursor <= Capacity(s)
    ensures r.Success? ==>
      WellFormed(r.value) && Capacity(r.value) == Capacity(s) &&
      s.cursor < |s.slots| && r.value.cursor == s.cursor + 1 &&
      r.value.slots[s.cursor] == now &&
      (forall i :: 0 <= i < |s.slots| && i != s.cursor ==> r.value.slots[i] == s.slots[i])
    ensures r.Failure? ==> r.error == Overflow(Capacity(s))
  {
    if s.cursor > Capacity(s) then Failure(Overflow(Capacity(s)))
    else Success(SplitState(s.slots[s.cursor := now], s.cursor + 1))
  }

  /** One Split() per clock reading, in order, stopping at the first error. */
  function SplitAll(s: SplitState, readings: seq<int>): Result<SplitState, TimerError>
    requires WellFormed(s)
    decreases |readings|
  {
    if readings == [] then Success(s)
    else
      match Split(s, readings[0])
      case Failure(e) => Failure(e)
      case Success(t) => SplitAll(t, readings[1..])
  }

  /** A run of splits succeeds exactly when it fits in the slots left, records
      the readings at the cursor and after it, and leaves every other slot as
      it was; otherwise it ends in the overflow error. */
  lemma {:induction false} SplitAllRecords(s: SplitState, readings: seq<int>)
    requires WellFormed(s)
    ensures SplitAll(s, readings).Success? <==> s.cursor + |readings| <= |s.slots|
    ensures SplitAll(s, readings).Success? ==>
      var t := SplitAll(s, readings).value;
      WellFormed(t) && |t.slots| == |s.slots| &&
      t.cursor == s.cursor + |readings| &&
      t.slots[..s.cursor] == s.slots[..s.cursor] &&
      t.slots[s.cursor..t.cursor] == readings &&
      t.slots[t.cursor..] == s.slots[t.cursor..]
    ensures SplitAll(s, readings).Failure? ==>
      SplitAll(s, readings).error == Overflow(Capacity(s))
    decreases |readings|
  {
    if readings != [] {
      var r := Split(s, readings[0]);
      if r.Success? {
        var t := r.value;
        SplitAllRecords(t, readings[1..]);
        if SplitAll(t, readings[1..]).Success? {
          var u := SplitAll(t, readings[1..]).value;
          assert u.slots[..s.cursor] == s.slots[..s.cursor] by {
            assert u.slots[..s.cursor] == u.slots[..t.cursor][..s.cursor];
            assert t.slots[..s.cursor] == s.slots[..s.cursor];
          }
          assert u.slots[s.cursor..u.cursor] == readings by {
            assert u.slots[s.cursor..u.cursor] == [u.slots[s.cursor]] + u.slots[t.cursor..u.cursor];
          }
        }
      }
    }
  }

  /** After Start(), at most num_splits splits succeed; the next one is an
      overflow. On success the recording is exactly the start reading
      followed by the split readings. */
  lemma AtMostCapacitySplits(s: SplitState, now: int, readings: seq<int>)
    requires WellFormed(s)
    ensures SplitAll(Start(s, now), readings).Success? <==> |readings| <= Capacity(s)
    ensures SplitAll(Start(s, now), readings).Success? ==>
      var t := SplitAll(Start(s, now), readings).value;
      |t.slots| == |s.slots| && t.cursor == |readings| + 1 &&
      t.slots[..t.cursor] == [now] + readings
    ensures SplitAll(Start(s, now), readings).Failure? ==>
      SplitAll(Start(s, now), readings).error == Overflow(Capacity(s))
  {
    var s0 := Start(s, now);
    SplitAllRecords(s0, readings);
    if SplitAll(s0, readings).Success? {
      var t := SplitAll(s0, readings).value;
      assert t.slots[..t.cursor] == t.slots[..1] + t.slots[1..t.cursor];
    }
  }

  /** seconds(): the differences between consecutive time points, in order. */
  function Durations(slots: seq<int>): (r: seq<int>)
    ensures |r| == if |slots| == 0 then 0 else |slots| - 1
    ensures forall i :: 0 <= i < |r| ==> r[i] == slots[i + 1] - slots[i]
    decreases |slots|
  {
    if |slots| < 2 then []
    else [slots[1] - slots[0]] + Durations(slots[1..])
  }

  /** The time points a first reading and a run of durations lead to. */
  function Accumulate(origin: int, ds: seq<int>): (r: seq<int>)
    decreases |ds|
  {
    if ds == [] then [origin]
    else [origin] + Accumulate(origin + ds[0], ds[1..])
  }

  /** The durations lose nothing but the first reading: adding them up from
      slot 0 gives back every time point. */
  lemma {:induction false} AccumulateDurations(slots: seq<int>)
    requires |slots| >= 1
    ensures Accumulate(slots[0], Durations(slots)) == slots
    decreases |slots|
  {
    if |slots| >= 2 {
      var ds := Durations(slots);
      assert ds[1..] == Durations(slots[1..]);
      AccumulateDurations(slots[1..]);
      assert slots[0] + ds[0] == slots[1..][0];
      assert slots == [slots[0]] + slots[1..];
    }
  }

  /** The first k - 1 durations depend only on the first k time points. */
  lemma DurationsOfPrefix(slots: seq<int>, k: nat)
    requires 1 <= k <= |slots|
    ensures Durations(slots)[..k - 1] == Durations(slots[..k])
  {
    var a, b := Durations(slots)[..k - 1], Durations(slots[..k]);
    assert |a| == |b|;
    forall i | 0 <= i < k - 1
      ensures a[i] == b[i]
    {
      assert slots[..k][i] == slots[i] && slots[..k][i + 1] == slots[i + 1];
    }
  }

  /** A restart forgets the earlier recording: whatever the timer held, after
      Start() and up to num_splits splits the durations so far are those of
      the new readings alone. */
  lemma RestartForgetsEarlierRecording(s: SplitState, now: int, readings: seq<int>)
    requires WellFormed(s)
    requires |readings| <= Capacity(s)
    ensures SplitAll(Start(s, now), readings).Success?
    ensures
      var t := SplitAll(Start(s, now), readings).value;
      |t.slots| == |s.slots| && t.cursor == |readings| + 1 &&
      Durations(t.slots)[..|readings|] == Durations([now] + readings)
  {
    AtMostCapacitySplits(s, now, readings);
    SplitAllRecords(Start(s, now), readings);
    var t := SplitAll(Start(s, now), readings).value;
    DurationsOfPrefix(t.slots, |readings| + 1);
  }

  /** The readings of a clock that advances by d per reading after t0. */
  function Ticks(t0: int, d: int, count: nat): (r: seq<int>)
    ensures |r| == count
    ensures forall i :: 0 <= i < count ==> r[i] == t0 + (i + 1) * d
  {
    seq(count, i => t0 + (i + 1) * d)
  }

  /** With a clock that advances by d per reading, Start() followed by
      num_splits splits succeeds and every duration equals d. */
  lemma FixedStepDurations(s: SplitState, t0: int, d: int)
    requires WellFormed(s)
    ensures SplitAll(Start(s, t0), Ticks(t0, d, Capacity(s))).Success?
    ensures
      var t := SplitAll(Start(s, t0), Ticks(t0, d, Capacity(s))).value;
      t.cursor == |s.slots| &&
      Durations(t.slots) == seq(Capacity(s), _ => d)
  {
    var n := Capacity(s);
    var readings := Ticks(t0, d, n);
    AtMostCapacitySplits(s, t0, readings);
    var t := SplitAll(Start(s, t0), readings).value;
    SplitAllRecords(Start(s, t0), readings);
    assert t.slots == t.slots[..t.cursor];
    assert forall i :: 0 <= i <= n ==> t.slots[i] == t0 + i * d by {
      forall i | 0 <= i <= n
        ensures t.slots[i] == t0 + i * d
      {
        assert t.slots[i] == ([t0] + readings)[i];
      }
    }
    forall i | 0 <= i < n
      ensures Durations(t.slots)[i] == d
    {
      calc {
        Durations(t.slots)[i];
        t.slots[i + 1] - t.slots[i];
        (t0 + (i + 1) * d) - (t0 + i * d);
        { assert (i + 1) * d == i * d + d; }
        d;
      }
    }
  }
}
