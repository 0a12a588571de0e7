# putong timers and status, in Dafny

This project models the two headers of the putong timing library:

- `include/putong/timer.h`: `Timer`, a two-point timer (`start_`, `stop_`,
  `seconds()`), and `SplitTimer<num_splits>`, which keeps a fixed buffer of
  `num_splits + 1` time points and a cursor `split_idx`. `Start()` writes
  slot 0 and sets the cursor to 1. `Split()` refuses with an overflow error
  once the cursor has passed `num_splits`; otherwise it writes the slot under
  the cursor and advances it. `seconds()` returns the `num_splits` differences
  between consecutive slots. The copy constructor and copy assignment copy
  every slot and the cursor value into a timer with its own buffer.
- `include/putong/status.h`: `Status<E>`, either OK (the default) or an
  error carrying a code and a message, with the accessors `ok()`, `msg()`
  and `err()`.

Files:

- `status.dfy` (module `PutongStatus`): `Status<E>` as a datatype with its
  constructors and accessors.
- `split_spec.dfy` (module `SplitSpec`): the state of a split timer as a
  value (`slots`, `cursor`), the effect of `Start`, `Split` and `seconds`
  on it, and the lemmas about runs of splits, restarts, durations and a
  fixed-step clock.
- `decimal.dfy` (module `Decimal`): the decimal rendering of the capacity
  that the overflow message contains, with its inverse.
- `timer.dfy` (module `PutongTimer`): the classes `Timer` and `SplitTimer`.
  `SplitTimer` holds a constant `array<int>` (its own buffer, never
  re-seated, like the source's inline array) and a `nat` cursor; its methods update
  them in place and are proved against `SplitSpec` through the ghost
  function `State()`.
- `scenarios.dfy` (module `TimerScenarios`): the split, copy-construct and
  copy-assign uses exercised by `test/putong/test_timer.cpp`, an overflow
  run and a two-point measurement, each with a clock whose readings the
  caller chooses.

Modelling choices:

- Time points are integer nanoseconds. A default time point is the clock's
  epoch, so a fresh buffer holds zeros and a fresh `Timer` has both points
  at 0.
- The constructors keep the source's default `start = false`; the clock
  reading `now` defaults to 0 and is used only when `start` is set.
- The clock is not read by the model. Every operation that calls
  `clock::now()` takes the reading as a parameter `now`.
- Durations are integer nanosecond differences, not `double` seconds.
- The overflow check of `Split()` is always on. It returns
  `Fail(Overflow(num_splits))` where the source throws a `runtime_error`;
  `SplitSpec.ErrorMessage` is that exception's text.
- The cursor is a plain field: `Split()` is sequential.
- `Start()` resets the cursor to 1 from any state, so the cursor does not
  only increase over the life of a timer. It increases by one per
  successful `Split()` between two `Start()` calls. The code does this, and
  the model follows the code.
- `Split()` before any `Start()` writes slot 0, as the code does; nothing
  checks that `Start()` came first.

## Model

| member | source | states |
|---|---|---|
| PutongStatus.Default | include/putong/status.h:32-45 | a default-constructed status reports `ok()` and has the empty message |
| PutongStatus.OK | include/putong/status.h:36 | `Status::OK()` is the default status: `ok()` and an empty message |
| PutongStatus.NewError | include/putong/status.h:33-34 | `Status(code, message)` reports not `ok()`, `err()` gives back `code` and `msg()` gives back `message` |
| PutongStatus.StatusIsConstructed | include/putong/status.h:32-40 | `ok()` holds exactly for the OK status, and every other status is `Status(err(), msg())` |
| PutongStatus.IsOk | include/putong/status.h:38 | `ok()` holds exactly for the OK status, the one the default constructor and `OK()` build |
| PutongStatus.Msg | include/putong/status.h:39 | `msg()` is the empty string on an OK status and the stored message on an error status |
| PutongStatus.Err | include/putong/status.h:40 | requires an error status (see the `PutongStatus.Err` line under "Left out"); the status is then exactly the error built from `err()` and `msg()` |
| PutongStatus.AccessorsDistinguishErrors | include/putong/status.h:33-40 | two error statuses report the same `err()` and `msg()` exactly when they were built from the same code and message |
| Decimal.DecimalString | include/putong/timer.h:145-146 | the rendering of the capacity is non-empty, all digits, without a leading zero |
| Decimal.ParseDecimalString | include/putong/timer.h:145-146 | reading the rendered digits back gives the capacity again |
| SplitSpec.ErrorMessage | include/putong/timer.h:145-146 | the overflow message is the prefix "Putong SplitTimer overflows ", the capacity in decimal digits, and the suffix " splits.", and the capacity can be read back from it |
| SplitSpec.Initial | include/putong/timer.h:94-95 | a fresh timer has `num_splits + 1` slots at the epoch and cursor 0 |
| SplitSpec.Start | include/putong/timer.h:136-139 | slot 0 takes the reading, the cursor becomes exactly 1 from any state, a full one included, and the other slots keep their values |
| SplitSpec.Split | include/putong/timer.h:142-151 | succeeds iff the cursor `k` is at most `num_splits`; then slot `k` (within bounds) takes the reading, the cursor becomes `k + 1` and every other slot is unchanged; otherwise the overflow error with the capacity |
| SplitSpec.SplitAllRecords | include/putong/timer.h:142-151 | a run of splits succeeds iff it fits in the slots left; it then writes the readings in order from the cursor on and leaves the slots before and after untouched; otherwise it ends in the overflow error |
| SplitSpec.AtMostCapacitySplits | include/putong/timer.h:136-151 | after `Start()`, a run of splits succeeds iff it has at most `num_splits` readings; the recording is then the start reading followed by the split readings, with cursor one past them |
| SplitSpec.Durations | include/putong/timer.h:154-161 | `seconds()` has one value fewer than the slots (`num_splits`), and value `i` is slot `i + 1` minus slot `i` |
| SplitSpec.AccumulateDurations | include/putong/timer.h:154-161 | adding up the durations from slot 0 gives back every slot, so the durations lose only the first reading |
| SplitSpec.RestartForgetsEarlierRecording | include/putong/timer.h:136-139 | after `Start()` and up to `num_splits` splits, the durations so far are those of the new readings alone, whatever the timer held before |
| SplitSpec.FixedStepDurations | test/putong/test_timer.cpp:24-38 | with a clock advancing by `d` per reading, `Start()` and `num_splits` splits all succeed, fill the timer, and every duration is `d` |
| PutongTimer.Timer.constructor | include/putong/timer.h:34-36 | both points start at the epoch; with `start` set, the start point is the reading |
| PutongTimer.Timer.Start | include/putong/timer.h:59 | only the start point changes, to the reading |
| PutongTimer.Timer.Stop | include/putong/timer.h:62 | only the stop point changes, to the reading |
| PutongTimer.Timer.Seconds | include/putong/timer.h:65-68 | the result is the time from the start point to the stop point |
| PutongTimer.SplitTimer.constructor | include/putong/timer.h:94-100 | a fresh buffer of `num_splits + 1` epoch slots and cursor 0; with `start` set, exactly the state `Start()` makes of that |
| PutongTimer.SplitTimer.Copy | include/putong/timer.h:103-109 | the copy owns a new buffer whose slots and cursor equal the source's |
| PutongTimer.SplitTimer.Assign | include/putong/timer.h:112-118 | the target takes the source's slots and cursor, keeps its own buffer, and the source is unchanged, self-assignment included |
| PutongTimer.SplitTimer.Start | include/putong/timer.h:136-139 | the new state is `SplitSpec.Start` of the old one |
| PutongTimer.SplitTimer.Split | include/putong/timer.h:142-151 | the new state and the outcome are those of `SplitSpec.Split`: the write, or the overflow error with nothing changed |
| PutongTimer.SplitTimer.Seconds | include/putong/timer.h:154-161 | the result is `SplitSpec.Durations` of the buffer and nothing changes, so two calls give the same result |
| TimerScenarios.FixedStepSplits | test/putong/test_timer.cpp:24-38 | `Start()` and `num_splits` splits `d` apart leave the cursor at `num_splits + 1` and make every duration `d` |
| TimerScenarios.CopyConstructThenSplitCopy | test/putong/test_timer.cpp:43-54 | after `Start` and two splits the copy has cursor 3 and the same slots; a later split of the copy leaves the source unchanged |
| TimerScenarios.CopyAssignThenSplitSource | test/putong/test_timer.cpp:56-68 | after `Start` and two splits the assigned target has cursor 3 and the same slots; a later split of the source leaves the target unchanged |
| TimerScenarios.OverflowAfterCapacity | include/putong/timer.h:143-150 | after `Start()`, split number `num_splits + 1` is refused with the overflow error and the cursor stays at `num_splits + 1` |
| TimerScenarios.MeasureInterval | include/putong/timer.h:54-68 | a timer started at `t0` and stopped at `t1` reports `t1 - t0` |

## Left out

- PutongStatus.Err: requires an error status. On an OK status the source returns the indeterminate default-initialised `err_`, about which nothing can be said.
- PutongTimer.SplitTimer.Assign: the `SplitTimer&` that `operator=` returns is not modelled; callers in the source do not use it.
- The atomic `split_idx` and its `fetch_add`: concurrent `Split()` callers are not modelled, the cursor is a plain sequential field.
- The `#ifndef NDEBUG` switch: the overflow check is always on; the unchecked build, which writes past the buffer, is not modelled.
- `clock::now()`, `steady()` and `resolution_us()`: they depend on the clock type of `std::chrono`; the clock reading is a parameter instead, and the resolution is a floating-point ratio.
- Conversion of durations to `double` seconds: floating point is not modelled; durations are integer nanoseconds.
- `Timer::str`, `Timer::report` and `SplitTimer::report`: stream formatting with precision, width and flushing of doubles is output, not logic.
- Time points: the source's `std::chrono::nanoseconds` is a signed 64-bit count; the model's unbounded `int` drops that width, so overflow of a time point or of a difference is not modelled.
- The C++ type `unsigned int` of `num_splits` and `size_t` of `split_idx`: both are unbounded naturals; the overflow check keeps the cursor at most `num_splits + 1`, so no wrap-around can occur in the source either.
