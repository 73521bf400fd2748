# Progress reporter (restic `progress.go`), modelled in Dafny

This project models restic's progress reporter. It has three parts:

- `Stat` holds five `uint64` counters: files, directories, bytes, trees and blobs. `Stat.Add` folds a delta into a running total.
- `Progress` accumulates reported deltas while it is running. It passes every new total to an `OnUpdate` callback, and so does each tick of a background reporter loop. `Done` stops the loop through a one-shot cancellation and hands the final total to `OnDone`.
- `Stat.String` renders a stat and picks a binary unit for its byte count.

Files:

- `stats.dfy`, module `Stats`: the `Stat` record and Go's wrap-around `uint64` addition (`WrapAdd`, modulo 2^64, with no no-overflow precondition). It has `Add` and its algebra. `Accumulate` is the total after a sequence of reports, with lemmas showing the total is the pointwise sum and is independent of the order of the reports.
- `format.dfy`, module `Format`: unit selection (`UnitFor`), Go's `%d` rendering (`Decimal`) with its inverse, and the complete `Stat(... files, ... dirs, ...)` text.
- `progress.dfy`, module `Reporter`: the `Progress` class. Its fields are the callback slots, `cur`, `running`, the once guard, the `cancel` channel's state and the interval. Ghost state records:
  - every callback invocation, in order (`events`: snapshot, `ticker` flag, `OnDone` or `OnUpdate`);
  - the deltas reported since the last reset (`reports`);
  - the number of reporter loops still alive (`loops`).
  
  `Valid()` ties `cur` to `Accumulate(Zero, reports)` and states that the channel is closed exactly when the once guard has fired. Every Go panic ("not running", "already running", closing a channel twice, `time.NewTicker` with a non-positive interval) is a `requires` clause.
- `progress.dfy`, module `NilSafe`: Go's `*Progress` receiver, which may be nil. There, `Start`, `Report`, `ReportFile`, `ReportDir`, `Reset` and `Done` are no-ops. `Current` has no nil guard in Go and panics on nil, so it only exists on the class.

Behaviour of the code that a reader might not expect, all modelled as written:

- **Exactly 2^30 bytes select MiB.** The comparisons are strict `>`, so a count equal to a power of 1024 stays in the unit below it (`Format.UnitBoundaries`).
- **Restarting is allowed.** `Start` checks only `running`. After `Done` an instance can be started again, with a fresh once guard and a fresh channel (progress.go:49-54).
- **A tick can reach `OnUpdate` after `OnDone`.** The reporter loop looks only at the cancel channel. Go's `select` may take the timer case even when that channel is already closed (progress.go:102-117). `Progress.Tick` therefore requires only a live loop, and `NilSafe.Lifecycle` shows such a run. The doc comment at progress.go:35-38 promises only that `OnUpdate` runs on new data or once per interval, and `OnDone` when `Done` is called.
- **`Current` has no nil guard.** It dereferences its receiver, so it panics on nil (progress.go:163-165).

## Model

| member | source | states |
|---|---|---|
| `Stats.WrapAdd` | progress.go:173-175 | `+=` on `uint64` yields the sum modulo 2^64, and the exact sum when that is below 2^64 |
| `Stats.Stat.Add` | progress.go:171-176 | files, dirs and bytes become the sums with the other stat's values (mod 2^64); trees and blobs keep the receiver's values |
| `Stats.FileDelta` | progress.go:89 | `Stat{Files: 1, Bytes: size}` added to any total counts one more file and `size` more bytes (mod 2^64) and leaves dirs, trees and blobs alone |
| `Stats.DirDelta` | progress.go:94 | `Stat{Dirs: 1}` added to any total counts one more directory (mod 2^64) and leaves every other counter alone |
| `Stats.AddZero` | progress.go:171-176 | adding the zero stat leaves any stat unchanged |
| `Stats.ZeroAdd` | progress.go:171-176 | zero plus `s` has `s`'s files, dirs and bytes but zero trees and blobs (the combinator is asymmetric on those two fields) |
| `Stats.AddCommutes` | progress.go:171-176 | `s.Add(t)` and `t.Add(s)` agree on every accumulated counter |
| `Stats.AddSwap` | progress.go:171-176 | adding two deltas in either order gives the same stat |
| `Stats.AddAssociates` | progress.go:171-176 | adding `t` then `u` equals adding `t.Add(u)` |
| `Stats.Accumulate` | progress.go:74-76 | folding any sequence of deltas never changes the starting trees and blobs |
| `Stats.AccumulateSnoc` | progress.go:74-76 | reporting one more delta is one more `Add` on the previous total |
| `Stats.AccumulatePointwise` | progress.go:171-176 | each accumulated counter of the total is the start value plus the unbounded sum over the deltas, mod 2^64; trees and blobs keep their start values |
| `Stats.AccumulateRemove` | progress.go:171-176 | taking any one delta out and adding it first gives the same total |
| `Stats.AccumulateOrderIrrelevant` | progress.go:171-176 | any two orderings of the same multiset of deltas give the same total |
| `Stats.RepeatedByteReports` | progress.go:74-77 | `n` reports of one byte each give a total byte count of `n` mod 2^64, so no update is lost |
| `Format.UnitFor` | progress.go:182-193 | the selected unit's scale is strictly below the byte count (except plain); the count is at most 1024 times the scale (except TiB) |
| `Format.UnitForUnique` | progress.go:182-193 | those two bounds identify the unit: any unit meeting them is the one `UnitFor` returns |
| `Format.UnitForMonotone` | progress.go:182-193 | a larger byte count never selects a smaller unit |
| `Format.UnitBoundaries` | progress.go:183-191 | 1024 is plain and 1025 is KiB; 2^20 is KiB; 2^30 is MiB; 2^40 is GiB; above 2^40 is TiB |
| `Format.DigitChar` | progress.go:192 | the character for a digit is a decimal digit whose value is that digit |
| `Format.Decimal` | progress.go:192 | `%d` output is a non-empty string of digits with no leading zero |
| `Format.DecimalRoundTrip` | progress.go:192 | reading the `%d` output back gives the number printed |
| `Format.CanonicalRoundTrip` | progress.go:192 | every digit string without a leading zero is the `%d` output of its value |
| `Format.PlainSizeText` | progress.go:191-192 | a count of at most 1024 renders as its digits followed by `B`, whatever the scaled figure; the digits are `%d` form (no leading zero) and read back as the count |
| `Format.ScaledSizeText` | progress.go:183-190 | a count above 1024 renders as the figure, a space and a three-letter unit ending in `iB` |
| `Format.SizeText` | progress.go:182-193 | the byte part ends in the selected unit's suffix; a plain count's digits are `%d` form (no leading zero) and read back as the count; a scaled count begins with its figure |
| `Format.StatString` | progress.go:178-197 | the text is wrapped in `Stat(` and `)`; the digit run right after `Stat(` is `%d` form and reads back as the number of files; the text ends in the suffix of the unit `UnitFor` selects for the byte count, then `)` |
| `Format.StatStringDirs` | progress.go:195-196 | the digit run after the file count and `" files, "` is exactly `%d` of the directory count and reads back as it |
| `Format.StatStringPlainBytes` | progress.go:191-192 | for a count of at most 1024, the digit run after the directory count and `" dirs, "` is `%d` form, reads back as the byte count and is followed by `B)` and nothing else |
| `Format.StatStringDeterminesCounts` | progress.go:195-196 | two stats with the same `String` text have the same files and dirs, and the same bytes when both are plain counts, even when each text has its own scaled figure |
| `Reporter.Progress.constructor` | progress.go:39-41 | `NewProgress(d)` is not running, has a zero total, empty callback slots, no closed channel and an unused once guard |
| `Reporter.Progress.Start` | progress.go:44-61 | requires not running and a positive interval; afterwards running, zero total, fresh once guard, open channel, one more live reporter loop, no callback |
| `Reporter.Progress.Report` | progress.go:65-85 | requires running; the new total is the old total plus the delta; exactly one `OnUpdate` event carries the new total with `ticker` false when the slot is set, and none otherwise |
| `Reporter.Progress.ReportFile` | progress.go:88-90 | requires running; files grow by 1 and bytes by `size` (mod 2^64); dirs, trees and blobs are unchanged; one update event |
| `Reporter.Progress.ReportDir` | progress.go:93-95 | requires running; dirs grow by 1 (mod 2^64); every other counter is unchanged; one update event |
| `Reporter.Progress.Tick` | progress.go:102-113 | a timer pass of a live loop keeps `Valid()`, leaves the total unchanged and emits it with `ticker` true when `OnUpdate` is set |
| `Reporter.Progress.ReporterReturn` | progress.go:114-116 | a loop returns only once the cancel channel is closed, and `Valid()` is kept |
| `Reporter.Progress.Reset` | progress.go:122-134 | requires running; the total becomes zero, and running and the callbacks are untouched |
| `Reporter.Progress.CloseCancel` | progress.go:149 | closing requires an open channel (a second close panics) |
| `Reporter.Progress.CloseCancelOnce` | progress.go:148-150 | the guarded close leaves the channel closed and never closes it twice |
| `Reporter.Progress.Done` | progress.go:137-160 | requires running; afterwards not running, channel closed exactly once, total unchanged, exactly one `OnDone` event with the final total when the slot is set; Report, Reset and Done then need a new Start |
| `Reporter.Progress.Current` | progress.go:163-169 | returns the in-order accumulation of every delta since the last reset, reading the state without changing it |
| `Reporter.CurrentIgnoresOrder` | progress.go:163-176 | the current total equals the accumulation of any reordering of the deltas since the last reset |
| `Reporter.CurrentIsPointwiseSum` | progress.go:163-176 | current files, dirs and bytes are the sums of the reported deltas, mod 2^64; trees and blobs are zero |
| `NilSafe.Start` | progress.go:44-61 | no-op on nil; otherwise `Progress.Start` |
| `NilSafe.Report` | progress.go:65-85 | no-op on nil; otherwise `Progress.Report` |
| `NilSafe.ReportFile` | progress.go:88-90 | goes through the nil check of `Report`; otherwise adds one file of `size` bytes and appends that delta to the history |
| `NilSafe.ReportDir` | progress.go:93-95 | goes through the nil check of `Report`; otherwise adds one directory and appends that delta to the history |
| `NilSafe.Reset` | progress.go:122-134 | no-op on nil; otherwise zeroes the total |
| `NilSafe.Done` | progress.go:137-160 | no-op on nil; otherwise `Progress.Done` |

## Left out

- Goroutines, `time.Ticker`, `select` scheduling and `p.c.Stop()`: the reporter loop is a count of live loops, plus one method per `select` case (`Tick`, `ReporterReturn`). Which case runs, and when, is up to the caller of the model.
- The mutexes `curM` and `fnM`, and `Done`'s unlocked read of `cur`: these concern concurrent access, and a sequential model has none.
- `time.Now`, `time.Since` and the elapsed durations passed to callbacks: these are wall-clock values. The event log records only the snapshot and the flags.
- The `%.3f` rendering of the scaled byte figure: this is floating-point formatting. `SizeText` and `StatString` take that text as the parameter `figure`.
- Callback bodies: these are the caller's code. Only whether each slot is set is modelled (`hasOnUpdate`, `hasOnDone`).
- Interleavings inside one step: each step here is atomic, so a tick that is part-way through its callback when `Done` runs is not modelled. Steps can still interleave, so two reporter loops can be alive after `Done` followed quickly by `Start`, and `loops` may exceed 1.
- `ReporterReturn`: this is weaker than Go. A loop already blocked in `select` on the old, closed channel still returns in Go after `Done(); Start()`. Here the cancel case looks at the current channel, so after `Start; Done; Start` such a loop stays alive (`loops == 2`, channel open). This only allows more ticks than Go does, and never fewer.
