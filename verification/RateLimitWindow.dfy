/** What fixed windows guarantee about any sliding window, over every run of single and batch calls. */
module RateLimitWindow {
  import opened RequestRateLimit

  datatype Call = One(input: Input, now: int) | Batch(inputs: seq<Input>, now: int)

  // An admitted request: when, and the start of the fixed window that counted it.
  datatype Admission = Admission(at: int, window: int)

  function Step(rows: Counters, call: Call): (Counters, Decision) {
    match call
    case One(input, now) => ConsumeOne(rows, input, now)
    case Batch(inputs, now) => ConsumeAll(rows, inputs, now)
  }

  function RowsAfter(calls: seq<Call>): Counters {
    if calls == [] then map[] else Step(RowsAfter(calls[..|calls| - 1]), calls[|calls| - 1]).0
  }

  predicate Concerns(call: Call, key: string) {
    match call
    case One(input, _) => Key(input) == key
    case Batch(inputs, _) => InBatch(inputs, key)
  }

  // The history of the key once a call has been decided.
  function Extended(h: seq<Admission>, rows: Counters, call: Call, key: string): seq<Admission> {
    var (rows', d) := Step(rows, call);
    h + if d.Allowed? && Concerns(call, key) && key in rows' then [Admission(call.now, rows'[key].start)] else []
  }

  // The requests of this key that the run admitted, in order.
  function Admissions(calls: seq<Call>, key: string): seq<Admission> {
    if calls == [] then []
    else
      var before, call := calls[..|calls| - 1], calls[|calls| - 1];
      Extended(Admissions(before, key), RowsAfter(before), call, key)
  }

  predicate UsesLimit(input: Input, key: string, limit: int, windowSeconds: int) {
    Key(input) == key ==> input.limit == limit && input.windowSeconds == windowSeconds
  }

  // Every call on the key carries the same limit and window.
  predicate Steady(calls: seq<Call>, key: string, limit: int, windowSeconds: int) {
    forall i :: 0 <= i < |calls| ==>
      match calls[i]
      case One(input, _) => UsesLimit(input, key, limit, windowSeconds)
      case Batch(inputs, _) => forall k :: 0 <= k < |inputs| ==> UsesLimit(inputs[k], key, limit, windowSeconds)
  }

  predicate ClockMonotone(calls: seq<Call>) {
    forall i, k :: 0 <= i < k < |calls| ==> calls[i].now <= calls[k].now
  }

  // --- Counting admissions ---------------------------------------------------------------------

  predicate Within(a: Admission, t: int, width: int) {
    t <= a.at < t + width
  }

  function CountWithin(h: seq<Admission>, t: int, width: int): nat {
    if h == [] then 0
    else CountWithin(h[..|h| - 1], t, width) + if Within(h[|h| - 1], t, width) then 1 else 0
  }

  function CountWindow(h: seq<Admission>, window: int): nat {
    if h == [] then 0
    else CountWindow(h[..|h| - 1], window) + if h[|h| - 1].window == window then 1 else 0
  }

  function CountBoth(h: seq<Admission>, window: int, t: int, width: int): nat {
    if h == [] then 0
    else CountBoth(h[..|h| - 1], window, t, width)
         + if h[|h| - 1].window == window && Within(h[|h| - 1], t, width) then 1 else 0
  }

  lemma {:induction false} BothAtMostWindow(h: seq<Admission>, window: int, t: int, width: int)
    ensures CountBoth(h, window, t, width) <= CountWindow(h, window)
    ensures (exists a :: a in h && a.window == window && !Within(a, t, width))
            ==> CountBoth(h, window, t, width) < CountWindow(h, window)
  {
    if h != [] {
      BothAtMostWindow(h[..|h| - 1], window, t, width);
      assert h == h[..|h| - 1] + [h[|h| - 1]];
    }
  }

  lemma {:induction false} WithinSplits(h: seq<Admission>, first: int, second: int, t: int, width: int)
    requires forall a :: a in h && Within(a, t, width) ==> a.window == first || a.window == second
    ensures CountWithin(h, t, width)
         <= CountBoth(h, first, t, width) + if second == first then 0 else CountBoth(h, second, t, width)
  {
    if h != [] {
      assert h[|h| - 1] in h;
      WithinSplits(h[..|h| - 1], first, second, t, width);
    }
  }

  lemma {:induction false} NoneWithin(h: seq<Admission>, t: int, width: int)
    ensures CountWithin(h, t, width) > 0 ==> exists a :: a in h && Within(a, t, width)
  {
    if h != [] {
      NoneWithin(h[..|h| - 1], t, width);
      assert h[|h| - 1] in h;
      assert forall a :: a in h[..|h| - 1] ==> a in h;
    }
  }

  // --- The shape of every history ----------------------------------------------------------------

  // Windows are at least `width` apart, each is opened by an admission at its start, lasts `width`,
  // and admits at most `limit` requests.
  ghost predicate Windowed(h: seq<Admission>, limit: int, width: int) {
    && (forall a :: a in h ==> a.window <= a.at < a.window + width)
    && (forall a, b :: a in h && b in h && a.window < b.window ==> a.window + width <= b.window)
    && (forall a :: a in h ==> Admission(a.window, a.window) in h)
    && (forall w :: CountWindow(h, w) <= limit)
  }

  // How the stored counter of the key relates to the history.
  ghost predicate Tracks(rows: Counters, key: string, h: seq<Admission>, width: int, clock: int) {
    if key !in rows then h == []
    else
      var row := rows[key];
      && row.start <= clock
      && Admission(row.start, row.start) in h
      && (forall a :: a in h ==> a.window == row.start || a.window + width <= row.start)
      && CountWindow(h, row.start) <= row.count
  }

  lemma {:induction false} CountsNothing(h: seq<Admission>, window: int)
    requires forall a :: a in h ==> a.window != window
    ensures CountWindow(h, window) == 0
  {
    if h != [] {
      assert h[|h| - 1] in h;
      assert forall a :: a in h[..|h| - 1] ==> a in h;
      CountsNothing(h[..|h| - 1], window);
    }
  }

  lemma CountWindowAppend(h: seq<Admission>, a: Admission)
    ensures forall w :: CountWindow(h + [a], w) == CountWindow(h, w) + if w == a.window then 1 else 0
  {
    assert (h + [a])[..|h|] == h;
  }

  // The requests already counted in the window that the next request falls into.
  lemma CountedBefore(rows: Counters, input: Input, h: seq<Admission>, clock: int, now: int)
    requires WellFormed(input) && clock <= now
    requires Windowed(h, input.limit, Window(input)) && Tracks(rows, Key(input), h, Window(input), clock)
    ensures
      var row := Touched(rows, input, now);
      && row.start <= now < row.start + Window(input)
      && CountWindow(h, row.start) < row.count
      && (forall a :: a in h ==> a.window == row.start || a.window + Window(input) <= row.start)
      && (row.start == now || Admission(row.start, row.start) in h)
  {
    if Key(input) !in rows || rows[Key(input)].start <= now - Window(input) {
      CountsNothing(h, now);
    }
  }

  // One more admission by the fixed-window rule keeps the shape.
  lemma AdmitKeepsShape(rows: Counters, input: Input, h: seq<Admission>, clock: int, now: int)
    requires WellFormed(input) && clock <= now && Admits(rows, input, now)
    requires Windowed(h, input.limit, Window(input)) && Tracks(rows, Key(input), h, Window(input), clock)
    ensures
      var row := Touched(rows, input, now);
      var h' := h + [Admission(now, row.start)];
      Windowed(h', input.limit, Window(input)) && Tracks(rows[Key(input) := row], Key(input), h', Window(input), now)
  {
    var row := Touched(rows, input, now);
    var h' := h + [Admission(now, row.start)];
    CountedBefore(rows, input, h, clock, now);
    CountWindowAppend(h, Admission(now, row.start));
    assert h'[|h|] == Admission(now, row.start);
  }

  lemma TracksFrame(rows: Counters, rows': Counters, key: string, h: seq<Admission>, width: int, clock: int, now: int)
    requires Tracks(rows, key, h, width, clock) && clock <= now
    requires key in rows <==> key in rows'
    requires key in rows ==> rows'[key].start == rows[key].start && rows[key].count <= rows'[key].count
    ensures Tracks(rows', key, h, width, now)
  {
  }

  function LastTime(calls: seq<Call>): int
    requires calls != []
  {
    calls[|calls| - 1].now
  }

  lemma OneKeepsShape(rows: Counters, input: Input, now: int, key: string, limit: int, windowSeconds: int,
                      h: seq<Admission>, clock: int)
    requires limit >= 1 && windowSeconds >= 1
    requires UsesLimit(input, key, limit, windowSeconds) && clock <= now
    requires Windowed(h, limit, windowSeconds * MICROS) && Tracks(rows, key, h, windowSeconds * MICROS, clock)
    ensures
      var h' := Extended(h, rows, One(input, now), key);
      Windowed(h', limit, windowSeconds * MICROS)
      && Tracks(ConsumeOne(rows, input, now).0, key, h', windowSeconds * MICROS, now)
  {
    var (rows', d) := ConsumeOne(rows, input, now);
    assert h + [] == h;
    if d.Allowed? && Key(input) == key {
      AdmitKeepsShape(rows, input, h, clock, now);
    } else {
      if Key(input) == key && d.Denied? {
        assert Touched(rows, input, now).count > 1;
      }
      TracksFrame(rows, rows', key, h, windowSeconds * MICROS, clock, now);
    }
  }

  lemma BatchKeepsShape(rows: Counters, inputs: seq<Input>, now: int, key: string, limit: int, windowSeconds: int,
                        h: seq<Admission>, clock: int)
    requires limit >= 1 && windowSeconds >= 1
    requires (forall k :: 0 <= k < |inputs| ==> UsesLimit(inputs[k], key, limit, windowSeconds)) && clock <= now
    requires Windowed(h, limit, windowSeconds * MICROS) && Tracks(rows, key, h, windowSeconds * MICROS, clock)
    ensures
      var h' := Extended(h, rows, Batch(inputs, now), key);
      Windowed(h', limit, windowSeconds * MICROS)
      && Tracks(ConsumeAll(rows, inputs, now).0, key, h', windowSeconds * MICROS, now)
  {
    var (rows', d) := ConsumeAll(rows, inputs, now);
    assert h + [] == h;
    if !WellFormedBatch(inputs) {
      TracksFrame(rows, rows', key, h, windowSeconds * MICROS, clock, now);
      return;
    }
    BatchIsAllOrNothing(rows, inputs, now);
    if d.Allowed? && InBatch(inputs, key) {
      var k :| 0 <= k < |inputs| && Key(inputs[k]) == key;
      assert ConsumeOne(rows, inputs[k], now).1.Allowed?;
      AdmitKeepsShape(rows, inputs[k], h, clock, now);
      var extended := h + [Admission(now, rows'[key].start)];
      TracksFrame(rows[key := rows'[key]], rows', key, extended, windowSeconds * MICROS, now, now);
    } else {
      TracksFrame(rows, rows', key, h, windowSeconds * MICROS, clock, now);
    }
  }

  lemma {:induction false} RunKeepsShape(calls: seq<Call>, key: string, limit: int, windowSeconds: int)
    requires limit >= 1 && windowSeconds >= 1
    requires Steady(calls, key, limit, windowSeconds) && ClockMonotone(calls)
    ensures Windowed(Admissions(calls, key), limit, windowSeconds * MICROS)
    ensures calls == [] ==> key !in RowsAfter(calls) && Admissions(calls, key) == []
    ensures calls != [] ==>
              Tracks(RowsAfter(calls), key, Admissions(calls, key), windowSeconds * MICROS, LastTime(calls))
  {
    if calls != [] {
      var before, call := calls[..|calls| - 1], calls[|calls| - 1];
      RunKeepsShape(before, key, limit, windowSeconds);
      var clock := if before == [] then call.now else LastTime(before);
      match call {
        case One(input, now) =>
          OneKeepsShape(RowsAfter(before), input, now, key, limit, windowSeconds, Admissions(before, key), clock);
        case Batch(inputs, now) =>
          BatchKeepsShape(RowsAfter(before), inputs, now, key, limit, windowSeconds, Admissions(before, key), clock);
      }
    }
  }

  // An interval as long as a window meets two windows at most, and misses the opening of the first.
  lemma TwoWindowsMet(h: seq<Admission>, limit: int, width: int, t: int, a: Admission, b: Admission)
    requires Windowed(h, limit, width)
    requires a in h && b in h && Within(a, t, width) && Within(b, t, width) && a.window < b.window
    ensures CountWithin(h, t, width) <= 2 * limit - 1
  {
    forall c | c in h && Within(c, t, width) ensures c.window == a.window || c.window == b.window {
    }
    WithinSplits(h, a.window, b.window, t, width);
    BothAtMostWindow(h, a.window, t, width);
    BothAtMostWindow(h, b.window, t, width);
    var opening := Admission(a.window, a.window);
    assert opening in h && opening.window == a.window && !Within(opening, t, width);
    assert CountWindow(h, a.window) <= limit && CountWindow(h, b.window) <= limit;
  }

  lemma WindowedBound(h: seq<Admission>, limit: int, width: int, t: int)
    requires limit >= 1 && Windowed(h, limit, width)
    ensures CountWithin(h, t, width) <= 2 * limit - 1
  {
    NoneWithin(h, t, width);
    if CountWithin(h, t, width) > 0 {
      var a :| a in h && Within(a, t, width);
      if b :| b in h && Within(b, t, width) && b.window != a.window {
        if a.window < b.window {
          TwoWindowsMet(h, limit, width, t, a, b);
        } else {
          TwoWindowsMet(h, limit, width, t, b, a);
        }
      } else {
        WithinSplits(h, a.window, a.window, t, width);
        BothAtMostWindow(h, a.window, t, width);
      }
    }
  }

  // Over any run, a key that is always used with one limit and window admits at most 2 * limit - 1
  // requests in any interval as long as the window.
  lemma SlidingWindowBound(calls: seq<Call>, key: string, limit: int, windowSeconds: int, t: int)
    requires limit >= 1 && windowSeconds >= 1
    requires Steady(calls, key, limit, windowSeconds) && ClockMonotone(calls)
    ensures CountWithin(Admissions(calls, key), t, windowSeconds * MICROS) <= 2 * limit - 1
  {
    RunKeepsShape(calls, key, limit, windowSeconds);
    WindowedBound(Admissions(calls, key), limit, windowSeconds * MICROS, t);
  }

  // --- The bound is attained ---------------------------------------------------------------------

  function Burst(calls: seq<Call>, input: Input, n: nat, now: int): seq<Call> {
    if n == 0 then calls else Burst(calls, input, n - 1, now) + [One(input, now)]
  }

  lemma Answered(calls: seq<Call>, call: Call, key: string)
    ensures RowsAfter(calls + [call]) == Step(RowsAfter(calls), call).0
    ensures Admissions(calls + [call], key) == Extended(Admissions(calls, key), RowsAfter(calls), call, key)
  {
    hide Step, Extended;
    assert (calls + [call])[..|calls|] == calls;
  }

  lemma CountAppend(h: seq<Admission>, a: Admission, t: int, width: int)
    ensures CountWithin(h + [a], t, width) == CountWithin(h, t, width) + if Within(a, t, width) then 1 else 0
  {
    assert (h + [a])[..|h|] == h;
  }

  // Another request within the window of its key and within its limit.
  lemma AnotherAdmitted(calls: seq<Call>, input: Input, now: int, t: int)
    requires WellFormed(input) && Key(input) in RowsAfter(calls)
    requires var row := RowsAfter(calls)[Key(input)]; row.start > now - Window(input) && row.count < input.limit
    ensures
      var calls' := calls + [One(input, now)];
      var row := RowsAfter(calls)[Key(input)];
      && Key(input) in RowsAfter(calls') && RowsAfter(calls')[Key(input)] == Counter(row.start, row.count + 1)
      && (CountWithin(Admissions(calls', Key(input)), t, Window(input))
          == CountWithin(Admissions(calls, Key(input)), t, Window(input))
             + if t <= now < t + Window(input) then 1 else 0)
  {
    Answered(calls, One(input, now), Key(input));
    hide RowsAfter, Admissions, CountWithin, RetryAfter, Key;
    CountAppend(Admissions(calls, Key(input)), Admission(now, RowsAfter(calls)[Key(input)].start), t, Window(input));
  }

  lemma {:induction false} BurstAdmitted(calls: seq<Call>, input: Input, n: nat, now: int, t: int)
    requires WellFormed(input) && Key(input) in RowsAfter(calls)
    requires var row := RowsAfter(calls)[Key(input)]; row.start > now - Window(input) && row.count + n <= input.limit
    ensures
      var calls' := Burst(calls, input, n, now);
      var row := RowsAfter(calls)[Key(input)];
      && Key(input) in RowsAfter(calls') && RowsAfter(calls')[Key(input)] == Counter(row.start, row.count + n)
      && (CountWithin(Admissions(calls', Key(input)), t, Window(input))
          == CountWithin(Admissions(calls, Key(input)), t, Window(input))
             + if t <= now < t + Window(input) then n else 0)
  {
    if n > 0 {
      hide RowsAfter, Admissions, CountWithin, Key, Window, WellFormed;
      BurstAdmitted(calls, input, n - 1, now, t);
      AnotherAdmitted(Burst(calls, input, n - 1, now), input, now, t);
    }
  }

  // A first request that opens, or reopens, the window of its key is admitted.
  lemma OpeningAdmitted(calls: seq<Call>, input: Input, now: int, t: int)
    requires WellFormed(input)
    requires Key(input) in RowsAfter(calls) ==> RowsAfter(calls)[Key(input)].start <= now - Window(input)
    ensures
      var calls' := calls + [One(input, now)];
      && Key(input) in RowsAfter(calls') && RowsAfter(calls')[Key(input)] == Counter(now, 1)
      && (CountWithin(Admissions(calls', Key(input)), t, Window(input))
          == CountWithin(Admissions(calls, Key(input)), t, Window(input))
             + if t <= now < t + Window(input) then 1 else 0)
  {
    Answered(calls, One(input, now), Key(input));
    hide RowsAfter, Admissions, CountWithin, RetryAfter, Key;
    CountAppend(Admissions(calls, Key(input)), Admission(now, now), t, Window(input));
  }

  // A run of single calls on one input, up to a time.
  predicate Probes(calls: seq<Call>, input: Input, now: int) {
    ClockMonotone(calls) && forall i :: 0 <= i < |calls| ==>
      calls[i].One? && calls[i].input == input && calls[i].now <= now
  }

  lemma {:induction false} BurstProbes(calls: seq<Call>, input: Input, n: nat, now: int)
    requires Probes(calls, input, now)
    ensures Probes(Burst(calls, input, n, now), input, now)
  {
    if n > 0 {
      BurstProbes(calls, input, n - 1, now);
    }
  }

  // A whole limit's worth of requests: one that opens the window and the rest later in it.
  function FullWindow(calls: seq<Call>, input: Input, opening: int, rest: int): seq<Call>
    requires WellFormed(input)
  {
    Burst(calls + [One(input, opening)], input, input.limit - 1, rest)
  }

  lemma FullWindowCount(calls: seq<Call>, input: Input, opening: int, rest: int, t: int)
    requires WellFormed(input) && opening <= rest < opening + Window(input)
    requires Key(input) in RowsAfter(calls) ==> RowsAfter(calls)[Key(input)].start <= opening - Window(input)
    ensures
      var calls' := FullWindow(calls, input, opening, rest);
      && Key(input) in RowsAfter(calls') && RowsAfter(calls')[Key(input)].start == opening
      && (CountWithin(Admissions(calls', Key(input)), t, Window(input))
          == CountWithin(Admissions(calls, Key(input)), t, Window(input))
             + (if t <= opening < t + Window(input) then 1 else 0)
             + (if t <= rest < t + Window(input) then input.limit - 1 else 0))
  {
    OpeningAdmitted(calls, input, opening, t);
    BurstAdmitted(calls + [One(input, opening)], input, input.limit - 1, rest, t);
  }

  lemma FullWindowProbes(calls: seq<Call>, input: Input, opening: int, rest: int)
    requires WellFormed(input) && Probes(calls, input, opening) && opening <= rest
    ensures Probes(FullWindow(calls, input, opening, rest), input, rest)
  {
    BurstProbes(calls + [One(input, opening)], input, input.limit - 1, rest);
  }

  // One request at 0, the rest of the limit just before its window ends, a whole limit as it ends.
  function WorstCase(input: Input): seq<Call>
    requires WellFormed(input)
  {
    FullWindow(FullWindow([], input, 0, Window(input) - 1), input, Window(input), Window(input))
  }

  lemma ProbesAreSteady(calls: seq<Call>, input: Input, now: int)
    requires Probes(calls, input, now)
    ensures Steady(calls, Key(input), input.limit, input.windowSeconds) && ClockMonotone(calls)
  {
  }

  lemma TwoWindows(input: Input, w: int, first: seq<Call>, both: seq<Call>)
    requires WellFormed(input) && w == Window(input)
    requires first == FullWindow([], input, 0, w - 1) && both == FullWindow(first, input, w, w)
    ensures Probes(both, input, w)
    ensures CountWithin(Admissions(both, Key(input)), 1, w) == 2 * input.limit - 1
  {
    FullWindowProbes([], input, 0, w - 1);
    FullWindowProbes(first, input, w, w);
    FullWindowCount([], input, 0, w - 1, 1);
    FullWindowCount(first, input, w, w, 1);
  }

  // For every limit and window there is such a run that admits exactly 2 * limit - 1 of them.
  lemma BoundIsTight(input: Input)
    requires WellFormed(input)
    ensures Steady(WorstCase(input), Key(input), input.limit, input.windowSeconds) && ClockMonotone(WorstCase(input))
    ensures CountWithin(Admissions(WorstCase(input), Key(input)), 1, Window(input)) == 2 * input.limit - 1
  {
    TwoWindows(input, Window(input), FullWindow([], input, 0, Window(input) - 1), WorstCase(input));
    ProbesAreSteady(WorstCase(input), input, Window(input));
  }
}
