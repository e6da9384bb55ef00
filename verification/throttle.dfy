/**
 `throttle(fn, maxHz)` (util/throttle.ts) as explicit state: the time of the last
 invocation of `fn` and its result. The clock reading (`performance.now()`) and the
 value `fn` would return are arguments of each call.
 */
module Throttle {
  import opened Wrappers

  datatype Throttled<R> = Throttled(lastTime: real, lastResult: Option<R>)

  /** What a call of the throttled function gives its caller. */
  datatype Outcome<R> = Returned(value: R) | Threw

  /** A new wrapper: `lastTime = 0` and no result yet. */
  function Init<R>(): Throttled<R> {
    Throttled(0.0, None)
  }

  /** `1000 / maxHz`: the shortest spacing between two invocations, in milliseconds. */
  function Interval(maxHz: real): real
    requires maxHz > 0.0
  {
    1000.0 / maxHz
  }

  /** The gate: `now - lastTime >= 1000 / maxHz`. */
  predicate Runs<R>(s: Throttled<R>, now: real, maxHz: real)
    requires maxHz > 0.0
  {
    now - s.lastTime >= Interval(maxHz)
  }

  /**
   One call at time `now`, where `produced` is what `fn` returns if it is invoked.
   An invocation records the time and the result; otherwise the last result is
   returned, and with none yet the call throws.
   */
  function Call<R>(s: Throttled<R>, now: real, maxHz: real, produced: R): (r: (Throttled<R>, Outcome<R>))
    requires maxHz > 0.0
    ensures Runs(s, now, maxHz) ==> r == (Throttled(now, Some(produced)), Returned(produced))
    ensures !Runs(s, now, maxHz) ==> r.0 == s
    ensures r.1 == Threw <==> !Runs(s, now, maxHz) && s.lastResult == None
    ensures r.1.Returned? && !Runs(s, now, maxHz) ==> s.lastResult == Some(r.1.value)
  {
    var s' := if Runs(s, now, maxHz) then Throttled(now, Some(produced)) else s;
    match s'.lastResult
    case None => (s', Threw)
    case Some(v) => (s', Returned(v))
  }

  /** One call of a trace: the clock reading and the value `fn` would return then. */
  datatype Tick<R> = Tick(now: real, produced: R)

  /** The wrapper's state before each call of `calls`, and after the last. */
  function States<R>(s: Throttled<R>, calls: seq<Tick<R>>, maxHz: real): (ss: seq<Throttled<R>>)
    requires maxHz > 0.0
    ensures |ss| == |calls| + 1 && ss[0] == s
    decreases |calls|
  {
    if |calls| == 0 then [s]
    else [s] + States(Call(s, calls[0].now, maxHz, calls[0].produced).0, calls[1..], maxHz)
  }

  /** Each state is the previous one after its call. */
  lemma {:induction false} StatesStep<R>(s: Throttled<R>, calls: seq<Tick<R>>, maxHz: real, k: nat)
    requires maxHz > 0.0 && k < |calls|
    ensures var ss := States(s, calls, maxHz);
      ss[k + 1] == Call(ss[k], calls[k].now, maxHz, calls[k].produced).0
    decreases k
  {
    if k > 0 {
      StatesStep(Call(s, calls[0].now, maxHz, calls[0].produced).0, calls[1..], maxHz, k - 1);
    }
  }

  /** `lastTime` never decreases, whatever the clock does: it only moves forward through the gate. */
  lemma {:induction false} LastTimeNonDecreasing<R>(s: Throttled<R>, calls: seq<Tick<R>>, maxHz: real, i: nat, j: nat)
    requires maxHz > 0.0 && i <= j <= |calls|
    ensures States(s, calls, maxHz)[i].lastTime <= States(s, calls, maxHz)[j].lastTime
  {
    if i < j {
      LastTimeNonDecreasing(s, calls, maxHz, i, j - 1);
      StatesStep(s, calls, maxHz, j - 1);
    }
  }

  /** Any two invocations of `fn` in a trace are at least `1000 / maxHz` apart. */
  lemma SpacedInvocations<R>(s: Throttled<R>, calls: seq<Tick<R>>, maxHz: real, i: nat, j: nat)
    requires maxHz > 0.0 && i < j < |calls|
    requires Runs(States(s, calls, maxHz)[i], calls[i].now, maxHz)
    requires Runs(States(s, calls, maxHz)[j], calls[j].now, maxHz)
    ensures calls[j].now - calls[i].now >= Interval(maxHz)
  {
    StatesStep(s, calls, maxHz, i);
    LastTimeNonDecreasing(s, calls, maxHz, i + 1, j);
  }

  /** Once `fn` has been invoked, a result is always on hand. */
  lemma {:induction false} ResultPersists<R>(s: Throttled<R>, calls: seq<Tick<R>>, maxHz: real, i: nat, j: nat)
    requires maxHz > 0.0 && i < j <= |calls|
    requires Runs(States(s, calls, maxHz)[i], calls[i].now, maxHz)
    ensures States(s, calls, maxHz)[j].lastResult.Some?
  {
    StatesStep(s, calls, maxHz, j - 1);
    if i < j - 1 {
      ResultPersists(s, calls, maxHz, i, j - 1);
    }
  }

  /** After the first invocation no call throws. */
  lemma NoThrowAfterInvocation<R>(s: Throttled<R>, calls: seq<Tick<R>>, maxHz: real, i: nat, j: nat)
    requires maxHz > 0.0 && i < j < |calls|
    requires Runs(States(s, calls, maxHz)[i], calls[i].now, maxHz)
    ensures Call(States(s, calls, maxHz)[j], calls[j].now, maxHz, calls[j].produced).1 != Threw
  {
    ResultPersists(s, calls, maxHz, i, j);
  }

  /** `lastTime` starts at 0, so a first call earlier than one interval throws. */
  lemma EarlyFirstCallThrows<R>(now: real, maxHz: real, produced: R)
    requires maxHz > 0.0 && now < Interval(maxHz)
    ensures Call(Init(), now, maxHz, produced).1 == Threw
  {
  }
}
