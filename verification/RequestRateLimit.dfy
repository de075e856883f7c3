/** Fixed-window request limits: one key at a time, and all-or-nothing batches. */
module RequestRateLimit {
  import opened Numerals

  const MICROS := 1_000_000
  const MAX_BATCH := 16

  // One stored counter; times are microseconds, the resolution of the stored timestamps.
  datatype Counter = Counter(start: int, count: nat)

  datatype Input = Input(scope: string, subject: string, limit: int, windowSeconds: int)

  type Counters = map<string, Counter>

  datatype Decision =
    | Invalid
    | Allowed(retryAfterSeconds: int)
    | Denied(retryAfterSeconds: int, scope: string)

  // Stored hashed; the hash is taken to be injective.
  function Key(input: Input): string {
    input.scope + ":" + input.subject
  }

  predicate WellFormed(input: Input) {
    input.limit >= 1 && input.windowSeconds >= 1
  }

  predicate WellFormedBatch(inputs: seq<Input>) {
    && 1 <= |inputs| <= MAX_BATCH
    && (forall i :: 0 <= i < |inputs| ==> WellFormed(inputs[i]))
    && (forall i, k :: 0 <= i < k < |inputs| ==> Key(inputs[i]) != Key(inputs[k]))
  }

  function Window(input: Input): int {
    input.windowSeconds * MICROS
  }

  // INSERT ... ON CONFLICT DO UPDATE: the row the statement returns.
  function Touched(rows: Counters, input: Input, now: int): Counter {
    if Key(input) !in rows || rows[Key(input)].start <= now - Window(input) then Counter(now, 1)
    else Counter(rows[Key(input)].start, rows[Key(input)].count + 1)
  }

  function CeilSeconds(micros: int): int {
    -(-micros / MICROS)
  }

  function RetryAfter(row: Counter, input: Input, now: int): int {
    var s := CeilSeconds(row.start + Window(input) - now);
    if s < 1 then 1 else s
  }

  predicate Admits(rows: Counters, input: Input, now: int) {
    Touched(rows, input, now).count <= input.limit
  }

  function ConsumeOne(rows: Counters, input: Input, now: int): (Counters, Decision) {
    if !WellFormed(input) then (rows, Invalid)
    else
      var row := Touched(rows, input, now);
      var retry := RetryAfter(row, input, now);
      (rows[Key(input) := row], if row.count <= input.limit then Allowed(retry) else Denied(retry, input.scope))
  }

  // The statements of one transaction, up to and including the first one over its limit.
  function Attempt(rows: Counters, inputs: seq<Input>, now: int): (Counters, Decision)
    decreases |inputs|
  {
    if inputs == [] then (rows, Allowed(0))
    else
      var row := Touched(rows, inputs[0], now);
      if row.count > inputs[0].limit then
        (rows[Key(inputs[0]) := row], Denied(RetryAfter(row, inputs[0], now), inputs[0].scope))
      else Attempt(rows[Key(inputs[0]) := row], inputs[1..], now)
  }

  function ConsumeAll(rows: Counters, inputs: seq<Input>, now: int): (Counters, Decision) {
    if !WellFormedBatch(inputs) then (rows, Invalid)
    else
      var (touched, decision) := Attempt(rows, inputs, now);
      (if decision.Denied? then rows else touched, decision)
  }

  class RateLimiter {
    var rows: Counters

    constructor ()
      ensures rows == map[]
    {
      rows := map[];
    }

    method Consume(input: Input, now: int) returns (d: Decision)
      modifies this
      ensures rows == ConsumeOne(old(rows), input, now).0
      ensures d == ConsumeOne(old(rows), input, now).1
    {
      if input.limit < 1 || input.windowSeconds < 1 {
        return Invalid;
      }
      var row := Touched(rows, input, now);
      rows := rows[Key(input) := row];
      var retry := RetryAfter(row, input, now);
      d := if row.count <= input.limit then Allowed(retry) else Denied(retry, input.scope);
    }

    method ConsumeBatch(inputs: seq<Input>, now: int) returns (d: Decision)
      modifies this
      ensures rows == ConsumeAll(old(rows), inputs, now).0
      ensures d == ConsumeAll(old(rows), inputs, now).1
    {
      if |inputs| == 0 || |inputs| > MAX_BATCH {
        return Invalid;
      }
      var keys := {};
      for i := 0 to |inputs|
        invariant forall k :: 0 <= k < i ==> WellFormed(inputs[k]) && Key(inputs[k]) in keys
        invariant forall k :: k in keys ==> exists j :: 0 <= j < i && Key(inputs[j]) == k
        invariant forall j, k :: 0 <= j < k < i ==> Key(inputs[j]) != Key(inputs[k])
      {
        if inputs[i].limit < 1 || inputs[i].windowSeconds < 1 {
          return Invalid;
        }
        if Key(inputs[i]) in keys {
          return Invalid;
        }
        keys := keys + {Key(inputs[i])};
      }
      var saved := rows;
      var i := 0;
      while i < |inputs|
        invariant 0 <= i <= |inputs|
        invariant Attempt(saved, inputs, now) == Attempt(rows, inputs[i..], now)
      {
        var row := Touched(rows, inputs[i], now);
        rows := rows[Key(inputs[i]) := row];
        if row.count > inputs[i].limit {
          rows := saved;
          return Denied(RetryAfter(row, inputs[i], now), inputs[i].scope);
        }
        i := i + 1;
      }
      d := Allowed(0);
    }
  }

  // --- A batch decides each of its keys on its own ---------------------------------------------

  predicate DistinctKeys(inputs: seq<Input>) {
    forall i, k :: 0 <= i < k < |inputs| ==> Key(inputs[i]) != Key(inputs[k])
  }

  // The first input that is over its limit, or |inputs|.
  function FirstDenied(rows: Counters, inputs: seq<Input>, now: int): (i: nat)
    ensures i <= |inputs|
    ensures i < |inputs| ==> !Admits(rows, inputs[i], now)
    ensures forall k :: 0 <= k < i ==> Admits(rows, inputs[k], now)
  {
    if inputs == [] then 0
    else if !Admits(rows, inputs[0], now) then 0
    else 1 + FirstDenied(rows, inputs[1..], now)
  }

  lemma {:induction false} FirstDeniedFrame(rows: Counters, rows': Counters, inputs: seq<Input>, now: int)
    requires forall i :: 0 <= i < |inputs| ==> Touched(rows, inputs[i], now) == Touched(rows', inputs[i], now)
    ensures FirstDenied(rows, inputs, now) == FirstDenied(rows', inputs, now)
  {
    if inputs != [] {
      assert Admits(rows, inputs[0], now) == Admits(rows', inputs[0], now);
      FirstDeniedFrame(rows, rows', inputs[1..], now);
    }
  }

  predicate InBatch(inputs: seq<Input>, key: string) {
    exists k :: 0 <= k < |inputs| && Key(inputs[k]) == key
  }

  ghost predicate TouchedExactly(rows: Counters, rows': Counters, inputs: seq<Input>, now: int) {
    && (forall k :: 0 <= k < |inputs| ==>
        Key(inputs[k]) in rows' && rows'[Key(inputs[k])] == Touched(rows, inputs[k], now))
    && (forall key :: !InBatch(inputs, key) ==>
        (key in rows <==> key in rows') && (key in rows ==> rows'[key] == rows[key]))
  }

  // The statements run one after the other, yet each is decided by the counters before the batch.
  lemma {:induction false} AttemptPointwise(rows: Counters, inputs: seq<Input>, now: int)
    requires DistinctKeys(inputs)
    ensures
      var (rows', d) := Attempt(rows, inputs, now);
      var i := FirstDenied(rows, inputs, now);
      if i < |inputs|
      then d == Denied(RetryAfter(Touched(rows, inputs[i], now), inputs[i], now), inputs[i].scope)
      else d == Allowed(0) && TouchedExactly(rows, rows', inputs, now)
    decreases |inputs|
  {
    if inputs != [] && Admits(rows, inputs[0], now) {
      var first, rest := inputs[0], inputs[1..];
      var next := rows[Key(first) := Touched(rows, first, now)];
      forall i | 0 <= i < |rest| ensures Touched(next, rest[i], now) == Touched(rows, rest[i], now) {
        assert rest[i] == inputs[i + 1];
      }
      FirstDeniedFrame(rows, next, rest, now);
      AttemptPointwise(next, rest, now);
      if FirstDenied(rows, inputs, now) == |inputs| {
        TouchedCons(rows, Attempt(rows, inputs, now).0, inputs, now);
      }
    }
  }

  lemma TouchedCons(rows: Counters, rows': Counters, inputs: seq<Input>, now: int)
    requires DistinctKeys(inputs) && inputs != []
    requires TouchedExactly(rows[Key(inputs[0]) := Touched(rows, inputs[0], now)], rows', inputs[1..], now)
    ensures TouchedExactly(rows, rows', inputs, now)
  {
    var first, rest := inputs[0], inputs[1..];
    assert forall k :: 0 <= k < |rest| ==> rest[k] == inputs[k + 1];
    assert !InBatch(rest, Key(first));
    forall k | 0 < k < |inputs|
      ensures Key(inputs[k]) in rows' && rows'[Key(inputs[k])] == Touched(rows, inputs[k], now)
    {
      assert inputs[k] == rest[k - 1];
    }
    forall key | !InBatch(inputs, key) ensures !InBatch(rest, key) && key != Key(first) {
      assert Key(inputs[0]) == key ==> InBatch(inputs, key);
    }
  }

  // A batch is allowed exactly when every input would be allowed alone; then each counter moves as it
  // would alone, and otherwise no counter moves and the first input over its limit is named.
  lemma BatchIsAllOrNothing(rows: Counters, inputs: seq<Input>, now: int)
    requires WellFormedBatch(inputs)
    ensures
      var (rows', d) := ConsumeAll(rows, inputs, now);
      && (d.Allowed? <==> forall i :: 0 <= i < |inputs| ==> ConsumeOne(rows, inputs[i], now).1.Allowed?)
      && (d.Allowed? ==> TouchedExactly(rows, rows', inputs, now))
    ensures
      var (rows', d) := ConsumeAll(rows, inputs, now);
      var i := FirstDenied(rows, inputs, now);
      !d.Allowed? ==> rows' == rows && i < |inputs| && d == ConsumeOne(rows, inputs[i], now).1
  {
    AttemptPointwise(rows, inputs, now);
    var n := FirstDenied(rows, inputs, now);
    forall i | 0 <= i < |inputs| ensures ConsumeOne(rows, inputs[i], now).1.Allowed? == Admits(rows, inputs[i], now) {
    }
    assert n < |inputs| ==> !ConsumeOne(rows, inputs[n], now).1.Allowed?;
  }

  // --- The retry delay --------------------------------------------------------------------------

  // After a denial, waiting n whole seconds with no other call on the key is enough exactly when n is
  // at least the returned delay.
  lemma RetryDelayExact(rows: Counters, input: Input, now: int, n: nat)
    requires WellFormed(input) && ConsumeOne(rows, input, now).1.Denied?
    ensures
      var (rows', d) := ConsumeOne(rows, input, now);
      Admits(rows', input, now + n * MICROS) <==> n >= d.retryAfterSeconds
  {
    var row := Touched(rows, input, now);
    var left := row.start + Window(input) - now;
    CeilBounds(left);
  }

  // The same after a batch was rolled back because of this input.
  lemma BatchRetryDelayExact(rows: Counters, inputs: seq<Input>, now: int, i: nat, n: nat)
    requires WellFormedBatch(inputs) && ConsumeAll(rows, inputs, now).1.Denied?
    requires i == FirstDenied(rows, inputs, now) < |inputs|
    ensures
      var (rows', d) := ConsumeAll(rows, inputs, now);
      Admits(rows', inputs[i], now + n * MICROS) <==> n >= d.retryAfterSeconds
  {
    AttemptPointwise(rows, inputs, now);
    var row := Touched(rows, inputs[i], now);
    CeilBounds(row.start + Window(inputs[i]) - now);
  }

  lemma CeilBounds(micros: int)
    ensures (CeilSeconds(micros) - 1) * MICROS < micros <= CeilSeconds(micros) * MICROS
  {
  }

  // --- Which requests share a counter -------------------------------------------------------------

  lemma ColonAfterScope(input: Input)
    requires ':' !in input.scope
    ensures var key, n := Key(input), |input.scope|;
            && n < |key| && key[n] == ':' && (forall i :: 0 <= i < n ==> key[i] != ':')
            && key[..n] == input.scope && key[n + 1..] == input.subject
  {
  }

  // Scopes without a colon never share one, and within a scope every subject has its own.
  lemma KeySeparates(a: Input, b: Input)
    requires ':' !in a.scope && ':' !in b.scope
    ensures Key(a) == Key(b) <==> a.scope == b.scope && a.subject == b.subject
  {
    ColonAfterScope(a);
    ColonAfterScope(b);
  }

  // In general two scopes can share one exactly if one of them, with its colon, begins with the other.
  lemma ScopesCollide(p: string, q: string, limit: int, windowSeconds: int)
    ensures (exists x: string, y: string ::
             Key(Input(p, x, limit, windowSeconds)) == Key(Input(q, y, limit, windowSeconds)))
       <==> p + ":" <= q + ":" || q + ":" <= p + ":"
  {
    if x: string, y: string :| Key(Input(p, x, limit, windowSeconds)) == Key(Input(q, y, limit, windowSeconds)) {
      var key := Key(Input(p, x, limit, windowSeconds));
      assert p + ":" == key[..|p| + 1] && q + ":" == key[..|q| + 1];
    }
    if p + ":" <= q + ":" {
      SharedCounter(p, q, limit, windowSeconds);
    } else if q + ":" <= p + ":" {
      SharedCounter(q, p, limit, windowSeconds);
      var x := (p + ":")[|q| + 1..];
      assert Key(Input(p, "", limit, windowSeconds)) == Key(Input(q, x, limit, windowSeconds));
    }
  }

  lemma SharedCounter(p: string, q: string, limit: int, windowSeconds: int)
    requires p + ":" <= q + ":"
    ensures Key(Input(p, (q + ":")[|p| + 1..], limit, windowSeconds)) == Key(Input(q, "", limit, windowSeconds))
  {
    assert q + ":" == p + ":" + (q + ":")[|p| + 1..];
  }

  // --- The decision -------------------------------------------------------------------------------

  predicate WindowOpen(rows: Counters, key: string, windowSeconds: int, now: int) {
    key in rows && rows[key].start + windowSeconds * 1_000_000 > now
  }

  // A request is refused as invalid, or admitted if and only if its window has room for it; it is counted either
  // way, in the open window or as the first of a new one, and no other counter moves.
  lemma DecidedByUse(rows: Counters, input: Input, now: int)
    ensures var (rows', d) := ConsumeOne(rows, input, now);
            var key := input.scope + ":" + input.subject;
            var running := WindowOpen(rows, key, input.windowSeconds, now);
            var used := if running then rows[key].count else 0;
            if input.limit < 1 || input.windowSeconds < 1 then rows' == rows && d == Invalid
            else && (d.Allowed? <==> used < input.limit) && (d.Denied? <==> used >= input.limit)
                 && (d.Denied? ==> d.scope == input.scope)
                 && rows' == rows[key := Counter(if running then rows[key].start else now, used + 1)]
  {
  }

  // A batch is refused as invalid exactly if it is empty or longer than 16, or some input is, or two share a key.
  lemma InvalidExactly(rows: Counters, inputs: seq<Input>, now: int)
    ensures ConsumeAll(rows, inputs, now).1.Invalid? <==>
            || |inputs| == 0 || |inputs| > 16
            || (exists i :: 0 <= i < |inputs| && (inputs[i].limit < 1 || inputs[i].windowSeconds < 1))
            || (exists i, k :: 0 <= i < k < |inputs|
                  && inputs[i].scope + ":" + inputs[i].subject == inputs[k].scope + ":" + inputs[k].subject)
  {
    if WellFormedBatch(inputs) {
      AttemptPointwise(rows, inputs, now);
      forall i, k | 0 <= i < k < |inputs|
        ensures inputs[i].scope + ":" + inputs[i].subject != inputs[k].scope + ":" + inputs[k].subject
      {
        assert Key(inputs[i]) != Key(inputs[k]);
      }
    }
  }
}
