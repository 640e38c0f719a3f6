/** src/events/pollers/sample_event_poller.py: the polling loop with exponential backoff.

    What the loop observes is given as a finite script of events, one per iteration:
    a fetch that raises, a fetched batch (possibly empty), a cancellation delivered at
    the fetch, or a `stop()` call made before the loop tests its flag. The loop's visible
    behaviour is the trace of sleeps (their requested lengths in seconds) and of messages
    handed to the processor. The processor is abstracted by a per-message flag saying
    whether it raises. */
module EventPoller {
  import opened Values
  import Settings

  /** A fetched message and whether the event processor raises on it. */
  datatype Message = Message(body: Dict, raises: bool)

  /** What one iteration of the loop meets. */
  datatype Event =
    | FetchError               // `__receive__` raised an ordinary exception
    | Batch(msgs: seq<Message>) // `__receive__` returned these messages (`[]` for none)
    | Cancel                   // the task was cancelled while awaiting the fetch
    | Stop                     // `stop()` was called before the loop tested its flag

  /** What the loop does that can be observed. */
  datatype Action =
    | Sleep(seconds: int)          // `await asyncio.sleep(backoff)`
    | Processed(msg: Message)      // `process(msg)` returned
    | ProcessFailed(msg: Message)  // `process(msg)` raised; logged and swallowed

  /** How `poll_messages` ended: `CancelledError` re-raised, the loop condition found the
      flag cleared, or the script ran out while the loop is still running. */
  datatype Exit = Cancelled | Stopped | Exhausted

  datatype Outcome = Outcome(trace: seq<Action>, exit: Exit)

  /** Python's `min` on integers. */
  function Min(a: int, b: int): (r: int)
    ensures r <= a && r <= b && (r == a || r == b)
  {
    if a <= b then a else b
  }

  /** The delay after a failed fetch: doubled, capped at the maximum. */
  function NextBackoff(backoff: int, maxBackoff: int): (r: int)
    ensures r <= maxBackoff
    ensures r == 2 * backoff || r == maxBackoff
    ensures 2 * backoff <= maxBackoff ==> r == 2 * backoff
  {
    Min(backoff * 2, maxBackoff)
  }

  /** Handing one message to the processor. */
  function Handle(m: Message): (a: Action)
    ensures !a.Sleep? && a.msg == m
    ensures a.ProcessFailed? <==> m.raises
  {
    if m.raises then ProcessFailed(m) else Processed(m)
  }

  /** Processing a batch: each message in order, whatever the earlier ones did. */
  function Dispatch(msgs: seq<Message>): (r: seq<Action>)
    ensures |r| == |msgs|
    ensures forall i :: 0 <= i < |msgs| ==> r[i] == Handle(msgs[i])
  {
    seq(|msgs|, i requires 0 <= i < |msgs| => Handle(msgs[i]))
  }

  function Prepend(t: seq<Action>, o: Outcome): Outcome {
    Outcome(t + o.trace, o.exit)
  }

  /** The exit a script leads to: decided by its first `Cancel` or `Stop`. */
  function ExitOf(script: seq<Event>): Exit {
    if script == [] then Exhausted
    else if script[0].Cancel? then Cancelled
    else if script[0].Stop? then Stopped
    else ExitOf(script[1..])
  }

  /** The loop of `poll_messages`, from the iteration that meets `script[0]` with the
      delay `backoff` in effect. */
  function Run(script: seq<Event>, backoff: int, initial: int, maxBackoff: int): (o: Outcome)
    ensures o.exit == ExitOf(script)
    decreases |script|
  {
    if script == [] then Outcome([], Exhausted)
    else
      var rest := script[1..];
      match script[0]
      case Stop => Outcome([], Stopped)
      case Cancel => Outcome([], Cancelled)
      case FetchError =>
        Prepend([Sleep(backoff)], Run(rest, NextBackoff(backoff, maxBackoff), initial, maxBackoff))
      case Batch(msgs) =>
        if msgs == [] then Prepend([Sleep(backoff)], Run(rest, initial, initial, maxBackoff))
        else Prepend(Dispatch(msgs), Run(rest, initial, initial, maxBackoff))
  }

  /** Every sleep in `trace` lasts between `lo` and `hi` seconds. */
  predicate SleepsWithin(trace: seq<Action>, lo: int, hi: int) {
    forall i :: 0 <= i < |trace| && trace[i].Sleep? ==> lo <= trace[i].seconds <= hi
  }

  /** With 1 <= initial <= max, as the settings enforce, the delay never leaves
      [initial, max]: every sleep lasts between the two bounds. */
  lemma {:induction false} SleepsWithinBounds(script: seq<Event>, backoff: int, initial: int, maxBackoff: int)
    requires 1 <= initial <= backoff <= maxBackoff
    ensures SleepsWithin(Run(script, backoff, initial, maxBackoff).trace, initial, maxBackoff)
    decreases |script|
  {
    if script != [] {
      var rest := script[1..];
      match script[0]
      case Stop =>
      case Cancel =>
      case FetchError =>
        SleepsWithinBounds(rest, NextBackoff(backoff, maxBackoff), initial, maxBackoff);
      case Batch(msgs) =>
        SleepsWithinBounds(rest, initial, initial, maxBackoff);
    }
  }

  /** The settings the application accepts give a poller whose sleeps stay within bounds. */
  lemma LoadedSettingsBoundSleeps(s: Settings.Settings, script: seq<Event>)
    requires Settings.Load(s).Success?
    ensures SleepsWithin(Run(script, s.backoffInitial, s.backoffInitial, s.backoffMax).trace,
                         s.backoffInitial, s.backoffMax)
  {
    SleepsWithinBounds(script, s.backoffInitial, s.backoffInitial, s.backoffMax);
  }

  /** An event that neither cancels nor stops. */
  predicate IsFetch(e: Event) {
    e.FetchError? || e.Batch?
  }

  predicate NoControl(events: seq<Event>) {
    forall i :: 0 <= i < |events| ==> IsFetch(events[i])
  }

  /** How one iteration changes the delay. */
  function StepBackoff(backoff: int, e: Event, initial: int, maxBackoff: int): int {
    match e
    case FetchError => NextBackoff(backoff, maxBackoff)
    case Batch(_) => initial
    case _ => backoff
  }

  /** The delay in effect after the iterations of `events`. */
  function BackoffAfter(events: seq<Event>, backoff: int, initial: int, maxBackoff: int): int
    decreases |events|
  {
    if events == [] then backoff
    else BackoffAfter(events[1..], StepBackoff(backoff, events[0], initial, maxBackoff), initial, maxBackoff)
  }

  lemma {:induction false} BackoffAfterSnoc(events: seq<Event>, e: Event, backoff: int, initial: int, maxBackoff: int)
    ensures BackoffAfter(events + [e], backoff, initial, maxBackoff)
            == StepBackoff(BackoffAfter(events, backoff, initial, maxBackoff), e, initial, maxBackoff)
    decreases |events|
  {
    if events == [] {
      assert events + [e] == [e];
    } else {
      assert (events + [e])[1..] == events[1..] + [e];
      BackoffAfterSnoc(events[1..], e, StepBackoff(backoff, events[0], initial, maxBackoff), initial, maxBackoff);
    }
  }

  /** Running fetch iterations first and the rest afterwards: the rest starts with the
      delay those iterations left. */
  lemma {:induction false} RunAppend(p: seq<Event>, q: seq<Event>, backoff: int, initial: int, maxBackoff: int)
    requires NoControl(p)
    ensures Run(p + q, backoff, initial, maxBackoff)
            == Prepend(Run(p, backoff, initial, maxBackoff).trace,
                       Run(q, BackoffAfter(p, backoff, initial, maxBackoff), initial, maxBackoff))
    decreases |p|
  {
    if p == [] {
      assert p + q == q;
    } else {
      assert (p + q)[0] == p[0];
      assert (p + q)[1..] == p[1..] + q;
      assert NoControl(p[1..]) by {
        forall i | 0 <= i < |p[1..]| ensures IsFetch(p[1..][i]) { assert p[1..][i] == p[i + 1]; }
      }
      var b := StepBackoff(backoff, p[0], initial, maxBackoff);
      RunAppend(p[1..], q, b, initial, maxBackoff);
    }
  }

  function Pow2(k: nat): (r: nat)
    ensures r >= 1
  {
    if k == 0 then 1 else 2 * Pow2(k - 1)
  }

  /** The delay after `k` failed fetches in a row starting from `backoff`. */
  function Capped(backoff: int, k: nat, maxBackoff: int): int {
    Min(backoff * Pow2(k), maxBackoff)
  }

  lemma CappedStep(backoff: int, k: nat, maxBackoff: int)
    requires 1 <= backoff <= maxBackoff
    ensures NextBackoff(Capped(backoff, k, maxBackoff), maxBackoff) == Capped(backoff, k + 1, maxBackoff)
  {
  }

  /** Failed fetches since the last successful one, counted from the end. */
  function TrailingErrors(events: seq<Event>): nat {
    if events == [] || !events[|events| - 1].FetchError? then 0
    else 1 + TrailingErrors(events[..|events| - 1])
  }

  /** The delay in effect after any sequence of fetches is initial * 2^k capped at the
      maximum, where k counts the failed fetches since the last successful one: every
      successful fetch, even an empty one, resets the delay. */
  lemma {:induction false} BackoffClosedForm(events: seq<Event>, initial: int, maxBackoff: int)
    requires 1 <= initial <= maxBackoff
    requires NoControl(events)
    ensures BackoffAfter(events, initial, initial, maxBackoff)
            == Capped(initial, TrailingErrors(events), maxBackoff)
    decreases |events|
  {
    if events == [] {
    } else {
      var init := events[..|events| - 1];
      var e := events[|events| - 1];
      assert events == init + [e];
      assert NoControl(init) by {
        forall i | 0 <= i < |init| ensures IsFetch(init[i]) { assert init[i] == events[i]; }
      }
      BackoffAfterSnoc(init, e, initial, initial, maxBackoff);
      BackoffClosedForm(init, initial, maxBackoff);
      if e.FetchError? {
        CappedStep(initial, TrailingErrors(init), maxBackoff);
      }
    }
  }

  /** The iteration that follows any run of fetches meets the delay of the closed form. */
  lemma DelayInEffect(p: seq<Event>, q: seq<Event>, initial: int, maxBackoff: int)
    requires 1 <= initial <= maxBackoff
    requires NoControl(p)
    ensures Run(p + q, initial, initial, maxBackoff)
            == Prepend(Run(p, initial, initial, maxBackoff).trace,
                       Run(q, Capped(initial, TrailingErrors(p), maxBackoff), initial, maxBackoff))
  {
    RunAppend(p, q, initial, initial, maxBackoff);
    BackoffClosedForm(p, initial, maxBackoff);
  }

  /** The messages of a trace that reached the processor, in order. */
  function Handled(trace: seq<Action>): seq<Message> {
    if trace == [] then []
    else (if trace[0].Sleep? then [] else [trace[0].msg]) + Handled(trace[1..])
  }

  /** The messages of the batches met before the first cancellation or stop. */
  function Fetched(script: seq<Event>): seq<Message> {
    if script == [] || script[0].Cancel? || script[0].Stop? then []
    else (if script[0].Batch? then script[0].msgs else []) + Fetched(script[1..])
  }

  lemma {:induction false} HandledAppend(a: seq<Action>, b: seq<Action>)
    ensures Handled(a + b) == Handled(a) + Handled(b)
    decreases |a|
  {
    if a == [] {
      assert a + b == b;
    } else {
      assert (a + b)[1..] == a[1..] + b;
      HandledAppend(a[1..], b);
    }
  }

  lemma {:induction false} HandledDispatch(msgs: seq<Message>)
    ensures Handled(Dispatch(msgs)) == msgs
    decreases |msgs|
  {
    if msgs != [] {
      assert Dispatch(msgs)[1..] == Dispatch(msgs[1..]);
      HandledDispatch(msgs[1..]);
      assert [msgs[0]] + msgs[1..] == msgs;
    }
  }

  /** Every fetched message reaches the processor exactly once and in order, up to the
      first cancellation or stop: a processor exception loses no later message. */
  lemma {:induction false} EveryFetchedMessageHandled(script: seq<Event>, backoff: int, initial: int, maxBackoff: int)
    ensures Handled(Run(script, backoff, initial, maxBackoff).trace) == Fetched(script)
    decreases |script|
  {
    if script != [] {
      var rest := script[1..];
      match script[0]
      case Stop =>
      case Cancel =>
      case FetchError =>
        var b := NextBackoff(backoff, maxBackoff);
        EveryFetchedMessageHandled(rest, b, initial, maxBackoff);
        HandledAppend([Sleep(backoff)], Run(rest, b, initial, maxBackoff).trace);
      case Batch(msgs) =>
        EveryFetchedMessageHandled(rest, initial, initial, maxBackoff);
        var t := Run(rest, initial, initial, maxBackoff).trace;
        if msgs == [] {
          HandledAppend([Sleep(backoff)], t);
        } else {
          HandledAppend(Dispatch(msgs), t);
          HandledDispatch(msgs);
        }
    }
  }

  /** Errors, an empty batch, a batch whose second message fails, an error and a stop,
      with initial 1 and max 30: the delays run 1, 2, 4, the empty batch and the batch
      reset the delay, and all three messages are processed. */
  lemma Example(m1: Message, m2: Message, m3: Message)
    requires !m1.raises && m2.raises && !m3.raises
    ensures Run([FetchError, FetchError, Batch([]), Batch([m1, m2, m3]), FetchError, Stop], 1, 1, 30)
            == Outcome([Sleep(1), Sleep(2), Sleep(4), Processed(m1), ProcessFailed(m2), Processed(m3), Sleep(1)],
                       Stopped)
  {
    var s := [FetchError, FetchError, Batch([]), Batch([m1, m2, m3]), FetchError, Stop];
    assert s[1..] == [FetchError, Batch([]), Batch([m1, m2, m3]), FetchError, Stop];
    assert s[2..] == [Batch([]), Batch([m1, m2, m3]), FetchError, Stop];
    assert s[3..] == [Batch([m1, m2, m3]), FetchError, Stop];
    assert s[4..] == [FetchError, Stop];
    assert Dispatch([m1, m2, m3]) == [Processed(m1), ProcessFailed(m2), Processed(m3)];
    var ms := [Processed(m1), ProcessFailed(m2), Processed(m3)];
    assert Run(s[4..], 1, 1, 30) == Outcome([Sleep(1)], Stopped) by {
      assert s[4..][1..] == [Stop];
    }
    assert Run(s[3..], 4, 1, 30) == Outcome(ms + [Sleep(1)], Stopped) by {
      assert s[3..][1..] == s[4..];
    }
    assert Run(s[2..], 4, 1, 30) == Outcome([Sleep(4)] + ms + [Sleep(1)], Stopped) by {
      assert s[2..][1..] == s[3..];
    }
    assert Run(s[1..], 2, 1, 30) == Outcome([Sleep(2), Sleep(4)] + ms + [Sleep(1)], Stopped) by {
      assert s[1..][1..] == s[2..];
      assert NextBackoff(2, 30) == 4;
    }
    assert NextBackoff(1, 30) == 2;
  }

  /** The poller object: the backoff bounds read from the settings and the running flag. */
  class SampleEventPoller {
    const backoffInitial: int
    const backoffMax: int
    var running: bool

    constructor (settings: Settings.Settings)
      ensures backoffInitial == settings.backoffInitial
      ensures backoffMax == settings.backoffMax
      ensures !running
    {
      backoffInitial := settings.backoffInitial;
      backoffMax := settings.backoffMax;
      running := false;
    }

    /** `stop()`: only clears the flag; the loop sees it at its next test. */
    method Stop()
      modifies this
      ensures !running
    {
      running := false;
    }

    /** `poll_messages()`, run against `script`; the `finally` clause clears the flag on
        every way out of the loop. */
    method PollMessages(script: seq<Event>) returns (trace: seq<Action>, exit: Exit)
      modifies this
      ensures Outcome(trace, exit) == Run(script, backoffInitial, backoffInitial, backoffMax)
      ensures running <==> exit == Exhausted
    {
      running := true;
      var backoff := backoffInitial;
      trace, exit := [], Exhausted;
      var i := 0;
      while i < |script| && running
        invariant 0 <= i <= |script|
        invariant exit == Exhausted
        invariant running ==> Run(script, backoffInitial, backoffInitial, backoffMax)
                              == Prepend(trace, Run(script[i..], backoff, backoffInitial, backoffMax))
        invariant !running ==> Run(script, backoffInitial, backoffInitial, backoffMax) == Outcome(trace, Stopped)
      {
        var event := script[i];
        assert script[i..][1..] == script[i + 1..];
        i := i + 1;
        match event
        case Stop =>
          Stop();
        case Cancel =>
          exit := Cancelled;
          break;
        case FetchError =>
          trace := trace + [Sleep(backoff)];
          backoff := NextBackoff(backoff, backoffMax);
        case Batch(msgs) =>
          if msgs == [] {
            trace := trace + [Sleep(backoff)];
            backoff := backoffInitial;
          } else {
            ghost var before := trace;
            for j := 0 to |msgs|
              invariant trace == before + Dispatch(msgs[..j])
            {
              if msgs[j].raises {
                trace := trace + [ProcessFailed(msgs[j])];
              } else {
                trace := trace + [Processed(msgs[j])];
              }
              assert Dispatch(msgs[..j + 1]) == Dispatch(msgs[..j]) + [Handle(msgs[j])];
            }
            assert msgs[..|msgs|] == msgs;
            backoff := backoffInitial;
          }
      }
      if !running {
        exit := Stopped;
      }
      if exit != Exhausted {
        running := false;
      }
    }
  }
}
