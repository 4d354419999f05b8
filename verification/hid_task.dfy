/** The report publisher `hid_task` and the HID report callbacks of main.c.

    `hid_task` reads `board_millis()` several times; the model samples the
    clock once per call (`now`), which is what the code computes whenever the
    millisecond counter does not tick during one call. Transport readiness
    (`tud_hid_ready()`) is an input and the `tud_hid_n_report` call is an
    output event. */
module HidTask {
  import opened CTypes

  const INTERVAL_MS: u32 := 1
  const SLIDER_COUNT: nat := 4

  /** `sizeof(struct report)`: a `uint32_t` and four `int16_t`, no padding. */
  const BUTTONS_BYTES: nat := 4
  const SLIDER_BYTES: nat := 2
  const REPORT_BYTES: nat := BUTTONS_BYTES + SLIDER_COUNT * SLIDER_BYTES

  const REPORT_INSTANCE: u8 := 0
  const REPORT_ID: u8 := 1

  /** `struct report`. */
  datatype Report = Report(buttons: u32, sliders: seq<i16>)

  /** The static state of main.c: `start_ms` and the global `report`. */
  datatype Publisher = Publisher(startMs: u32, report: Report)

  /** Both statics start zeroed. */
  const INITIAL: Publisher := Publisher(0, Report(0, [0, 0, 0, 0]))

  /** One `tud_hid_n_report(instance, report_id, &report, sizeof(report))`. */
  datatype Submission = Submission(instance: u8, reportId: u8, report: Report, length: nat)

  datatype TaskResult = TaskResult(state: Publisher, sent: Option<Submission>)

  /** `board_millis() - start_ms >= interval_ms` in `uint32_t` arithmetic. */
  predicate Due(st: Publisher, now: u32)
    ensures st.startMs <= now ==> (Due(st, now) <==> now - st.startMs >= INTERVAL_MS)
    ensures now < st.startMs ==> Due(st, now)
  {
    Sub32(now, st.startMs) >= INTERVAL_MS
  }

  /** With a 1 ms interval, a call is due exactly when the clock differs from
      `start_ms`, also across the 2^32 wrap. */
  lemma DueIffClockMoved(st: Publisher, now: u32)
    ensures Due(st, now) <==> now != st.startMs
  {
  }

  /** `((ms / 1000) % 2) << ((ms / 2000) % 16)` on `uint32_t`: the shifted
      operand is 0 or 1 and the shift is below 16, so the result is either 0
      or the single bit `2^shift`, and never wraps. */
  function ButtonBits(now: u32): (r: u32)
    ensures r < 0x1_0000
    ensures r == 0 <==> (now / 1000) % 2 == 0
  {
    var pos := (now / 2000) % 16;
    Pow2Monotone(pos, 16);
    Pow2Sixteen();
    if (now / 1000) % 2 == 1 then Pow2(pos) else 0
  }

  /** In odd seconds exactly one button, chosen by the two-second period, is
      pressed; in even seconds none is. */
  lemma ButtonPattern(now: u32)
    ensures forall k :: 0 <= k < 32 ==>
              (Bit(ButtonBits(now), k) == 1 <==> (now / 1000) % 2 == 1 && k == (now / 2000) % 16)
    ensures ButtonBits(now) == 0 || exists k :: 0 <= k < 16 && ButtonBits(now) == Pow2(k)
  {
    var pos := (now / 2000) % 16;
    if (now / 1000) % 2 == 1 {
      assert 0 <= pos < 16 && ButtonBits(now) == Pow2(pos);
      assert exists k :: 0 <= k < 16 && ButtonBits(now) == Pow2(k);
      forall k | 0 <= k < 32 {
        BitOfPow2(pos, k);
      }
    } else {
      forall k | 0 <= k < 32 {
        BitOfZero(k);
      }
    }
  }

  /** `board_millis() % 0x8000` stored into an `int16_t`. */
  function SliderValue(now: u32): (v: i16)
    ensures 0 <= v <= 0x7FFF
    ensures (now - v) % 0x8000 == 0
  {
    ToInt16(now % 0x8000)
  }

  /** The report filled from one clock sample. */
  function Sample(now: u32): (r: Report)
    ensures |r.sliders| == SLIDER_COUNT
    ensures forall s :: 0 <= s < |r.sliders| ==> r.sliders[s] == SliderValue(now)
    ensures r.buttons == ButtonBits(now)
  {
    var v := SliderValue(now);
    Report(ButtonBits(now), [v, v, v, v])
  }

  /** `hid_task()` with clock sample `now` and transport readiness `ready`. */
  function Task(st: Publisher, now: u32, ready: bool): (r: TaskResult)
    ensures !Due(st, now) ==> r == TaskResult(st, None)
    ensures Due(st, now) ==> r.state.startMs == Add32(st.startMs, INTERVAL_MS)
    ensures Due(st, now) ==> Sub32(now, r.state.startMs) == Sub32(now, st.startMs) - 1
    ensures Due(st, now) ==> r.state.report == Sample(now)
    ensures r.sent.Some? <==> Due(st, now) && ready
    ensures r.sent.Some? ==> r.sent.value == Submission(REPORT_INSTANCE, REPORT_ID, r.state.report, REPORT_BYTES)
    ensures st.startMs <= now ==> r.state.startMs <= now
  {
    if !Due(st, now) then
      TaskResult(st, None)
    else
      var next := Publisher(Add32(st.startMs, INTERVAL_MS), Sample(now));
      TaskResult(next, if ready then Some(Submission(REPORT_INSTANCE, REPORT_ID, next.report, REPORT_BYTES)) else None)
  }

  /** One iteration of the main loop, as far as `hid_task` sees it. */
  datatype Call = Call(now: u32, ready: bool)

  /** The state after a sequence of calls. */
  function Run(st: Publisher, calls: seq<Call>): Publisher
    decreases |calls|
  {
    if |calls| == 0 then st else Run(Task(st, calls[0].now, calls[0].ready).state, calls[1..])
  }

  /** The reports handed to the USB stack, in order. */
  function Sent(st: Publisher, calls: seq<Call>): seq<Submission>
    decreases |calls|
  {
    if |calls| == 0 then []
    else
      var r := Task(st, calls[0].now, calls[0].ready);
      (if r.sent.Some? then [r.sent.value] else []) + Sent(r.state, calls[1..])
  }

  /** `start_ms` after one call: whether a call is due depends on `start_ms`
      and the clock only. */
  function Advance(start: u32, now: u32): u32 {
    if Sub32(now, start) >= INTERVAL_MS then Add32(start, INTERVAL_MS) else start
  }

  /** `start_ms` after a sequence of calls. */
  function StartAfter(start: u32, calls: seq<Call>): u32
    decreases |calls|
  {
    if |calls| == 0 then start else StartAfter(Advance(start, calls[0].now), calls[1..])
  }

  /** How many of the calls, made from `start_ms == start`, were due (refreshed
      the report). */
  function Emitted(start: u32, calls: seq<Call>): nat
    decreases |calls|
  {
    if |calls| == 0 then 0
    else (if Sub32(calls[0].now, start) >= INTERVAL_MS then 1 else 0) + Emitted(Advance(start, calls[0].now), calls[1..])
  }

  /** The publisher's `start_ms` follows `StartAfter`. */
  lemma {:induction false} RunStart(st: Publisher, calls: seq<Call>)
    ensures Run(st, calls).startMs == StartAfter(st.startMs, calls)
    decreases |calls|
  {
    if |calls| > 0 {
      RunStart(Task(st, calls[0].now, calls[0].ready).state, calls[1..]);
    }
  }

  /** `start_ms` moves by one per due call, modulo 2^32. */
  lemma {:induction false} StartAfterCounts(start: u32, calls: seq<Call>)
    ensures StartAfter(start, calls) == Wrap32(start + Emitted(start, calls))
    decreases |calls|
  {
    if |calls| > 0 {
      var tail := calls[1..];
      if Sub32(calls[0].now, start) >= INTERVAL_MS {
        var next := Add32(start, INTERVAL_MS);
        StartAfterCounts(next, tail);
        Wrap32Add(start + 1, Emitted(next, tail));
      } else {
        StartAfterCounts(start, tail);
      }
    }
  }

  /** `start_ms` advances by exactly one per due call, modulo 2^32: it counts
      emissions and is never reset to the clock. */
  lemma {:induction false} StartCountsEmissions(st: Publisher, calls: seq<Call>)
    ensures Run(st, calls).startMs == Wrap32(st.startMs + Emitted(st.startMs, calls))
  {
    RunStart(st, calls);
    StartAfterCounts(st.startMs, calls);
  }

  /** From power-on, after k due calls `start_ms == k mod 2^32`. */
  lemma StartFromPowerOn(calls: seq<Call>)
    ensures Run(INITIAL, calls).startMs == Emitted(0, calls) % U32_LIMIT
  {
    StartCountsEmissions(INITIAL, calls);
  }

  /** The clock samples never decrease (and so never wrap). */
  predicate NonDecreasing(calls: seq<Call>) {
    forall i, j :: 0 <= i < j < |calls| ==> calls[i].now <= calls[j].now
  }

  /** Without wrap-around, `start_ms` never passes the clock and grows by the
      number of due calls. */
  lemma {:induction false} StartAfterBounded(start: u32, calls: seq<Call>)
    requires |calls| > 0 && NonDecreasing(calls) && start <= calls[0].now
    ensures StartAfter(start, calls) <= calls[|calls| - 1].now
    ensures Emitted(start, calls) == StartAfter(start, calls) - start
    decreases |calls|
  {
    var next := Advance(start, calls[0].now);
    if |calls| == 1 {
      assert calls[1..] == [];
    } else {
      assert next <= calls[0].now <= calls[1].now;
      StartAfterBounded(next, calls[1..]);
    }
  }

  /** With a clock that never decreases, `start_ms <= now` is kept, and the
      number of reports produced is bounded by the milliseconds elapsed: at
      most one per millisecond. */
  lemma AtMostOnePerMillisecond(st: Publisher, calls: seq<Call>)
    requires |calls| > 0 && NonDecreasing(calls) && st.startMs <= calls[0].now
    ensures Run(st, calls).startMs <= calls[|calls| - 1].now
    ensures Emitted(st.startMs, calls) == Run(st, calls).startMs - st.startMs
    ensures Emitted(st.startMs, calls) <= calls[|calls| - 1].now - st.startMs
  {
    RunStart(st, calls);
    StartAfterBounded(st.startMs, calls);
  }

  /** `n` calls at the same instant. */
  function Repeat(now: u32, ready: bool, n: nat): (calls: seq<Call>)
    ensures |calls| == n
  {
    seq(n, _ => Call(now, ready))
  }

  /** A due call shortens the lag by one; a call that is not due has no lag
      to shorten. */
  lemma AdvanceLag(start: u32, now: u32)
    ensures Sub32(now, start) >= INTERVAL_MS ==> Sub32(now, Advance(start, now)) == Sub32(now, start) - 1
    ensures Sub32(now, start) < INTERVAL_MS ==> Advance(start, now) == start && Sub32(now, start) == 0
  {
  }

  /** Drift-free catch-up: calls at a fixed instant produce exactly as many
      reports as `start_ms` lags behind the clock in `uint32_t` arithmetic,
      then none; a lag across the 2^32 wrap is caught up the same way. */
  lemma {:induction false} CatchUp(start: u32, now: u32, ready: bool, n: nat)
    ensures Emitted(start, Repeat(now, ready, n)) == if n <= Sub32(now, start) then n else Sub32(now, start)
    decreases n
  {
    if n > 0 {
      AdvanceLag(start, now);
      var calls := Repeat(now, ready, n);
      assert calls[0] == Call(now, ready);
      assert calls[1..] == Repeat(now, ready, n - 1);
      CatchUp(Advance(start, now), now, ready, n - 1);
    }
  }

  /** No more reports are sent than were produced. */
  lemma {:induction false} SentAtMostEmitted(st: Publisher, calls: seq<Call>)
    ensures |Sent(st, calls)| <= Emitted(st.startMs, calls)
    decreases |calls|
  {
    if |calls| > 0 {
      var r := Task(st, calls[0].now, calls[0].ready);
      SentAtMostEmitted(r.state, calls[1..]);
    }
  }

  /** The reports that could be sent: the sample of each call made while the
      transport was ready. */
  function ReadySamples(calls: seq<Call>): set<Submission>
    decreases |calls|
  {
    if |calls| == 0 then {}
    else
      (if calls[0].ready then {Submission(REPORT_INSTANCE, REPORT_ID, Sample(calls[0].now), REPORT_BYTES)} else {})
      + ReadySamples(calls[1..])
  }

  /** Every submitted report is the sample of an instant at which the
      transport was ready: nothing older is ever replayed. */
  lemma {:induction false} SentAreFresh(st: Publisher, calls: seq<Call>)
    ensures forall x :: x in Sent(st, calls) ==> x in ReadySamples(calls)
    decreases |calls|
  {
    if |calls| > 0 {
      var r := Task(st, calls[0].now, calls[0].ready);
      SentAreFresh(r.state, calls[1..]);
    }
  }

  /** Back-pressure without a backlog: a report dropped because the transport
      was busy leaves the same state as one that was sent, and the report a
      due call sends depends only on the current instant. */
  lemma NoBacklog(st: Publisher, other: Publisher, now: u32)
    requires Due(st, now) && Due(other, now)
    ensures Task(st, now, false).state == Task(st, now, true).state
    ensures Task(st, now, true).sent == Task(other, now, true).sent
  {
  }

  /** At power-on, `t = 0` sends nothing; at `t = 1` with the transport ready
      exactly one 12-byte report with ID 1, no button pressed and all
      sliders 1, is sent. */
  lemma PowerOnScenario()
    ensures Task(INITIAL, 0, true) == TaskResult(INITIAL, None)
    ensures Task(INITIAL, 1, true).sent == Some(Submission(0, 1, Report(0, [1, 1, 1, 1]), 12))
  {
    assert ButtonBits(1) == 0;
    assert SliderValue(1) == 1;
    assert Sample(1).sliders == [1, 1, 1, 1];
    assert Due(INITIAL, 1) && !Due(INITIAL, 0);
  }

  /** `hid_report_type_t`. */
  datatype ReportType = Invalid | InputReport | OutputReport | FeatureReport

  /** `tud_hid_get_report_cb`: nothing is readable, so the reply length is 0
      and the buffer is left as it was. */
  function GetReportCallback(instance: u8, reportId: u8, reportType: ReportType,
                             buffer: seq<u8>, reqlen: u16): (r: (u16, seq<u8>))
    ensures r.0 == 0 && r.1 == buffer
  {
    (0, buffer)
  }

  /** `tud_hid_set_report_cb`: host data is accepted and discarded. */
  function SetReportCallback(st: Publisher, instance: u8, reportId: u8, reportType: ReportType,
                             buffer: seq<u8>): (r: Publisher)
    ensures r == st
  {
    st
  }
}
