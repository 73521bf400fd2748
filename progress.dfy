/** The `Progress` reporter: a running `Stat` total, the lifecycle flag, the
    one-shot cancellation of the background loop, and the callback invocations it
    makes. Callbacks are opaque: each invocation is recorded in a ghost log of
    events. Locks vanish in this sequential model; the background loop is a
    count of live loops and one method per `select` case. */
module Reporter {
  import opened Stats

  /** One callback invocation: the snapshot passed, the `ticker` argument, and
      whether it went to `OnDone` (true) or `OnUpdate` (false). */
  datatype Event = Event(snapshot: Stat, isTick: bool, isDone: bool)

  class Progress {
    /** Whether the `OnUpdate` and `OnDone` slots are set (non-nil). */
    var hasOnUpdate: bool
    var hasOnDone: bool

    /** The running total. */
    var cur: Stat
    /** The ticker interval `d`, a `time.Duration` in nanoseconds. */
    const interval: int
    var running: bool
    /** `o`: whether the `sync.Once` of the current run has run its function. */
    var onceDone: bool
    /** Whether the current `cancel` channel is closed. */
    var cancelClosed: bool

    /** Reporter loops started by `Start` that have not returned yet. */
    ghost var loops: nat
    /** The deltas reported since the last reset, in order. */
    ghost var reports: seq<Stat>
    /** Every callback invocation, in order. */
    ghost var events: seq<Event>

    /** The total is the accumulation of the deltas since the last reset; the
        channel is closed exactly when the once guard has fired; and a running
        instance has not been cancelled. */
    ghost predicate Valid()
      reads this
    {
      cur == Accumulate(Zero, reports)
      && onceDone == cancelClosed
      && (running ==> !cancelClosed)
    }

    /** `NewProgress(d)`: not running, zero total, both callback slots empty. */
    constructor (d: int)
      ensures Valid()
      ensures interval == d && !running && cur == Zero
      ensures !hasOnUpdate && !hasOnDone && !onceDone && !cancelClosed
      ensures loops == 0 && reports == [] && events == []
    {
      interval := d;
      hasOnUpdate, hasOnDone := false, false;
      cur := Zero;
      running := false;
      onceDone, cancelClosed := false, false;
      loops := 0;
      reports := [];
      events := [];
    }

    /** `Start`: panics when already running, `time.NewTicker` panics on a
        non-positive interval. Installs a fresh once guard and an open cancel
        channel, marks the instance running, resets the total and launches one
        more reporter loop. No callback is invoked. */
    method Start()
      requires Valid()
      requires !running
      requires interval > 0
      modifies this`onceDone, this`cancelClosed, this`running, this`cur, this`reports, this`loops
      ensures Valid()
      ensures running && cur == Zero && reports == []
      ensures !onceDone && !cancelClosed
      ensures loops == old(loops) + 1
    {
      onceDone := false;
      cancelClosed := false;
      running := true;
      Reset();
      loops := loops + 1;
    }

    /** `Report(s)`: panics when not running. Adds `s` into the total, then, when
        `OnUpdate` is set, invokes it once with the new total and `ticker` false. */
    method Report(s: Stat)
      requires Valid()
      requires running
      modifies this`cur, this`reports, this`events
      ensures Valid()
      ensures cur == old(cur).Add(s)
      ensures reports == old(reports) + [s]
      ensures events == old(events) + if hasOnUpdate then [Event(cur, false, false)] else []
    {
      AccumulateSnoc(Zero, reports, s);
      cur := cur.Add(s);
      reports := reports + [s];
      var snapshot := cur;
      if hasOnUpdate {
        events := events + [Event(snapshot, false, false)];
      }
    }

    /** `ReportFile(size)`: one more file and `size` more bytes; directories,
        trees and blobs unchanged. */
    method ReportFile(size: u64)
      requires Valid()
      requires running
      modifies this`cur, this`reports, this`events
      ensures Valid()
      ensures cur.files as int == (old(cur).files as int + 1) % TWO_TO_THE_64
      ensures cur.bytes as int == (old(cur).bytes as int + size as int) % TWO_TO_THE_64
      ensures cur.dirs == old(cur).dirs && cur.trees == old(cur).trees && cur.blobs == old(cur).blobs
      ensures reports == old(reports) + [FileDelta(size)]
      ensures events == old(events) + if hasOnUpdate then [Event(cur, false, false)] else []
    {
      Report(FileDelta(size));
      assert cur.files == cur.Get(Files) && cur.bytes == cur.Get(Bytes) && cur.dirs == cur.Get(Dirs);
    }

    /** `ReportDir()`: one more directory; everything else unchanged. */
    method ReportDir()
      requires Valid()
      requires running
      modifies this`cur, this`reports, this`events
      ensures Valid()
      ensures cur.dirs as int == (old(cur).dirs as int + 1) % TWO_TO_THE_64
      ensures cur.files == old(cur).files && cur.bytes == old(cur).bytes
      ensures cur.trees == old(cur).trees && cur.blobs == old(cur).blobs
      ensures reports == old(reports) + [DirDelta()]
      ensures events == old(events) + if hasOnUpdate then [Event(cur, false, false)] else []
    {
      Report(DirDelta());
      assert cur.files == cur.Get(Files) && cur.bytes == cur.Get(Bytes) && cur.dirs == cur.Get(Dirs);
    }

    /** One pass of the reporter loop that takes the timer case: when `OnUpdate`
        is set, invokes it with the current total and `ticker` true. The loop
        does not look at `running`, only at the cancel channel, so a tick may
        still come after `Done` as long as the loop has not returned. */
    method Tick()
      requires Valid()
      requires loops > 0
      modifies this`events
      ensures Valid()
      ensures cur == old(cur)
      ensures events == old(events) + if hasOnUpdate then [Event(cur, true, false)] else []
    {
      var snapshot := cur;
      if hasOnUpdate {
        events := events + [Event(snapshot, true, false)];
      }
    }

    /** The reporter loop's cancel case: once the cancel channel is closed, a
        loop stops its ticker and returns. */
    method ReporterReturn()
      requires Valid()
      requires loops > 0 && cancelClosed
      modifies this`loops
      ensures Valid()
      ensures loops == old(loops) - 1
    {
      loops := loops - 1;
    }

    /** `Reset`: panics when not running; sets the total to zero. */
    method Reset()
      requires Valid()
      requires running
      modifies this`cur, this`reports
      ensures Valid()
      ensures cur == Zero && reports == []
    {
      cur := Zero;
      reports := [];
    }

    /** `close(p.cancel)`: closing a channel twice panics. */
    method CloseCancel()
      requires !cancelClosed
      modifies this`cancelClosed
      ensures cancelClosed
    {
      cancelClosed := true;
    }

    /** `p.o.Do(func() { close(p.cancel) })`: the close runs only the first time,
        so the channel is closed exactly once however often this is called. */
    method CloseCancelOnce()
      requires onceDone == cancelClosed
      modifies this`onceDone, this`cancelClosed
      ensures onceDone && cancelClosed
    {
      if !onceDone {
        onceDone := true;
        CloseCancel();
      }
    }

    /** `Done`: panics when not running. Marks the instance stopped, closes the
        cancel channel through the once guard, and, when `OnDone` is set, invokes
        it once with the final total and `ticker` false. The total is unchanged. */
    method Done()
      requires Valid()
      requires running
      modifies this`running, this`onceDone, this`cancelClosed, this`events
      ensures Valid()
      ensures !running && onceDone && cancelClosed
      ensures cur == old(cur) && reports == old(reports)
      ensures events == old(events) + if hasOnDone then [Event(cur, false, true)] else []
    {
      if running {
        running := false;
        CloseCancelOnce();
        var snapshot := cur;
        if hasOnDone {
          events := events + [Event(snapshot, false, true)];
        }
      }
    }

    /** `Current`: a copy of the total, which is every delta since the last
        reset accumulated in order. */
    function Current(): (s: Stat)
      requires Valid()
      reads this
      ensures s == Accumulate(Zero, reports)
    {
      cur
    }
  }

  /** Whatever order the deltas since the last reset were reported in, the
      current total is the same. */
  lemma CurrentIgnoresOrder(p: Progress, reordered: seq<Stat>)
    requires p.Valid()
    requires multiset(reordered) == multiset(p.reports)
    ensures p.Current() == Accumulate(Zero, reordered)
  {
    AccumulateOrderIrrelevant(Zero, p.reports, reordered);
  }

  /** The current total of files, directories and bytes is the sum over the
      deltas since the last reset, modulo 2^64; trees and blobs stay zero. */
  lemma CurrentIsPointwiseSum(p: Progress, c: Counter)
    requires p.Valid()
    ensures p.Current().Get(c) as int ==
      if c.Accumulated() then Total(p.reports, c) % TWO_TO_THE_64 else 0
  {
    AccumulatePointwise(Zero, p.reports, c);
  }
}

/** The `*Progress` receiver, which may be nil: on a nil receiver `Start`,
    `Report`, `ReportFile`, `ReportDir`, `Reset` and `Done` return at once. */
module NilSafe {
  import opened Stats
  import opened Reporter

  method Start(p: Progress?)
    requires p != null ==> p.Valid() && !p.running && p.interval > 0
    modifies p
    ensures p != null ==> p.Valid() && p.running && p.cur == Zero && p.reports == []
    ensures p != null ==> !p.onceDone && !p.cancelClosed && p.loops == old(p.loops) + 1
    ensures p != null ==> p.events == old(p.events)
    ensures p != null ==> p.hasOnUpdate == old(p.hasOnUpdate) && p.hasOnDone == old(p.hasOnDone)
  {
    if p == null {
      return;
    }
    p.Start();
  }

  method Report(p: Progress?, s: Stat)
    requires p != null ==> p.Valid() && p.running
    modifies p
    ensures p != null ==> p.Valid() && p.running && p.cur == old(p.cur).Add(s)
    ensures p != null ==> p.reports == old(p.reports) + [s]
    ensures p != null ==>
      p.events == old(p.events) + if p.hasOnUpdate then [Event(p.cur, false, false)] else []
    ensures p != null ==> p.loops == old(p.loops) && p.cancelClosed == old(p.cancelClosed)
    ensures p != null ==> p.hasOnUpdate == old(p.hasOnUpdate) && p.hasOnDone == old(p.hasOnDone)
  {
    if p == null {
      return;
    }
    p.Report(s);
  }

  method ReportFile(p: Progress?, size: u64)
    requires p != null ==> p.Valid() && p.running
    modifies p
    ensures p != null ==> p.Valid() && p.running && p.cur == old(p.cur).Add(FileDelta(size))
    ensures p != null ==> p.reports == old(p.reports) + [FileDelta(size)]
    ensures p != null ==>
      p.events == old(p.events) + if p.hasOnUpdate then [Event(p.cur, false, false)] else []
    ensures p != null ==> p.loops == old(p.loops) && p.cancelClosed == old(p.cancelClosed)
    ensures p != null ==> p.hasOnUpdate == old(p.hasOnUpdate) && p.hasOnDone == old(p.hasOnDone)
  {
    Report(p, FileDelta(size));
  }

  method ReportDir(p: Progress?)
    requires p != null ==> p.Valid() && p.running
    modifies p
    ensures p != null ==> p.Valid() && p.running && p.cur == old(p.cur).Add(DirDelta())
    ensures p != null ==> p.reports == old(p.reports) + [DirDelta()]
    ensures p != null ==>
      p.events == old(p.events) + if p.hasOnUpdate then [Event(p.cur, false, false)] else []
    ensures p != null ==> p.loops == old(p.loops) && p.cancelClosed == old(p.cancelClosed)
    ensures p != null ==> p.hasOnUpdate == old(p.hasOnUpdate) && p.hasOnDone == old(p.hasOnDone)
  {
    Report(p, DirDelta());
  }

  method Reset(p: Progress?)
    requires p != null ==> p.Valid() && p.running
    modifies p
    ensures p != null ==> p.Valid() && p.running && p.cur == Zero && p.reports == []
    ensures p != null ==> p.events == old(p.events) && p.loops == old(p.loops)
    ensures p != null ==> p.cancelClosed == old(p.cancelClosed)
    ensures p != null ==> p.hasOnUpdate == old(p.hasOnUpdate) && p.hasOnDone == old(p.hasOnDone)
  {
    if p == null {
      return;
    }
    p.Reset();
  }

  method Done(p: Progress?)
    requires p != null ==> p.Valid() && p.running
    modifies p
    ensures p != null ==> p.Valid() && !p.running && p.cancelClosed
    ensures p != null ==> p.cur == old(p.cur) && p.reports == old(p.reports)
    ensures p != null ==>
      p.events == old(p.events) + if p.hasOnDone then [Event(p.cur, false, true)] else []
    ensures p != null ==> p.loops == old(p.loops)
    ensures p != null ==> p.hasOnUpdate == old(p.hasOnUpdate) && p.hasOnDone == old(p.hasOnDone)
  {
    if p == null {
      return;
    }
    p.Done();
  }

  /** A run from start to finish: each report and the finish are seen by the
      callbacks with the total at that moment, and a tick in between repeats
      the current total; a later tick of the not yet returned loop comes after
      the finish. */
  method Lifecycle() {
    var p := new Progress(1000000);
    p.hasOnUpdate, p.hasOnDone := true, true;
    Start(p);
    ReportFile(p, 7);
    p.Tick();
    ReportDir(p);
    Done(p);
    p.Tick();
    assert p.events == [Event(Stat(1, 0, 7, 0, 0), false, false), Event(Stat(1, 0, 7, 0, 0), true, false),
                        Event(Stat(1, 1, 7, 0, 0), false, false), Event(Stat(1, 1, 7, 0, 0), false, true),
                        Event(Stat(1, 1, 7, 0, 0), true, false)];
    p.ReporterReturn();
    assert p.loops == 0;
  }
}
