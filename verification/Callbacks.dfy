/** The caller's callbacks: a closure is its captured state and a step function, so
    arbitrary callbacks, stateful or failing, are covered. */
module Callbacks {
  import opened Bytes
  import opened Types
  import opened Formats

  type Step<!S> = (S, Event) -> (S, Option<ParseError>)

  /** The outcome of raising events one by one until a callback fails. */
  datatype Fed<+S> = Fed(state: S, heard: nat, error: Option<ParseError>)

  function Feed<S>(step: Step<S>, st: S, events: seq<Event>): (r: Fed<S>)
    ensures r.heard <= |events| && if r.error.None? then r.heard == |events| else r.heard > 0
    decreases |events|
  {
    if events == [] then Fed(st, 0, None) else
      var (st', o) := step(st, events[0]);
      if o.Some? then Fed(st', 1, o) else
        var r := Feed(step, st', events[1..]);
        r.(heard := 1 + r.heard)
  }

  lemma FeedNothing<S>(step: Step<S>, st: S)
    ensures Feed(step, st, []) == Fed(st, 0, None)
  {
  }

  function Then<S>(x: Fed<S>, y: Fed<S>): Fed<S> {
    if x.error.Some? then x else y.(heard := x.heard + y.heard)
  }

  lemma {:induction false} FeedConcat<S>(step: Step<S>, st: S, x: seq<Event>, y: seq<Event>)
    ensures Feed(step, st, x + y) == var f := Feed(step, st, x); Then(f, Feed(step, f.state, y))
    decreases |x|
  {
    if x == [] {
      assert x + y == y;
    } else {
      assert (x + y)[1..] == x[1..] + y;
      FeedConcat(step, step(st, x[0]).0, x[1..], y);
    }
  }

  /** What a callback hears: nothing past the event it refuses, and everything when it refuses none. */
  lemma {:induction false} FeedHears<S>(step: Step<S>, st: S, events: seq<Event>)
    ensures var f := Feed(step, st, events);
      && Feed(step, st, events[..f.heard]) == f
      && (f.error.Some? ==> f.heard > 0 && Feed(step, st, events[..f.heard - 1]).error.None?)
    decreases |events|
  {
    var f := Feed(step, st, events);
    if events != [] {
      var (st', o) := step(st, events[0]);
      if o.None? {
        FeedHears(step, st', events[1..]);
        assert events[..f.heard][1..] == events[1..][..f.heard - 1];
        if f.error.Some? {
          assert events[..f.heard - 1][1..] == events[1..][..f.heard - 2];
        }
      }
    }
  }

  /** A callback's error comes before any later parse error. */
  function Verdict<S, T>(fed: Fed<S>, outcome: Result<T>): Result<T> {
    if fed.error.Some? then Err(fed.error.value) else outcome
  }

  /** The loop invariant of a streaming loop: every event of the turns in `past` was heard without complaint. */
  ghost predicate Streaming<T(!new), S>(f: Format<T>, n: nat, sl: Slice, past: Run<T>, step: Step<S>, st0: S, st: S) {
    Midway(f, n, sl, past) && Feed(step, st0, past.events) == Fed(st, |past.events|, None)
  }

  lemma StreamingStart<T(!new), S>(f: Format<T>, n: nat, sl: Slice, step: Step<S>, st: S)
    ensures Streaming(f, n, sl, Run([], 0, [], None), step, st, st)
  {
    MidwayStart(f, n, sl);
  }

  /** One more turn, of a reader that raises one event when it succeeds and none when it fails:
      the parser stops the loop, or the callback does, or the loop goes on. */
  lemma StreamingStep<T(!new), S>(f: Format<T>, n: nat, sl: Slice, past: Run<T>, step: Step<S>, st0: S, st: S)
    requires Streaming(f, n, sl, past, step, st0, st) && |past.items| < n
    requires var p := f.parse(After(sl, past.used)); |p.events| == if p.Bad? then 0 else 1
    ensures var p, run := f.parse(After(sl, past.used)), ManyRun(f, n, sl);
      var fed, all := Feed(step, st, p.events), Feed(step, st0, run.events);
      if p.Bad? then run.error == Some(p.error) && run.used == past.used + p.used && all == Fed(st, |run.events|, None)
      else if fed.error.Some? then
        && all == Fed(fed.state, |past.events| + 1, fed.error)
        && |past.events| < |run.events| && run.events[|past.events|] == p.events[0]
      else Streaming(f, n, sl, Join(past, Turn(p)), step, st0, fed.state)
  {
    var p, run := f.parse(After(sl, past.used)), ManyRun(f, n, sl);
    MidwayStep(f, n, sl, past);
    FeedConcat(step, st0, past.events, p.events);
    if p.Good? {
      var next := Join(past, Turn(p));
      var rest := ManyRun(f, n - |next.items|, After(sl, next.used));
      assert run.events == next.events + rest.events;
      FeedConcat(step, st0, next.events, rest.events);
    }
  }

  lemma StreamingEnd<T(!new), S>(f: Format<T>, n: nat, sl: Slice, past: Run<T>, step: Step<S>, st0: S, st: S)
    requires Streaming(f, n, sl, past, step, st0, st) && |past.items| == n
    ensures var run := ManyRun(f, n, sl);
      run == past && run.error.None? && Feed(step, st0, run.events) == Fed(st, |run.events|, None)
  {
    MidwayEnd(f, n, sl, past);
  }

  /** A closure with captured state. */
  class Listener<S> {
    const step: Step<S>
    var state: S

    constructor (step: Step<S>, state: S)
      ensures this.step == step && this.state == state
    {
      this.step := step;
      this.state := state;
    }

    /** One call: the captured state moves, and the closure's own error comes back unchanged. */
    method Hear(e: Event) returns (r: Result<()>)
      modifies this
      ensures var f := Feed(step, old(state), [e]);
        state == f.state && r == if f.error.Some? then Err(f.error.value) else Ok(())
    {
      var (st, o) := step(state, e);
      state := st;
      r := if o.Some? then Err(o.value) else Ok(());
    }
  }
}
