/** src/app.py: the CORS origin list of `setup_application` and the `lifespan` start-up
    and shut-down sequence. The poller task, the scheduler and the engine are reduced to
    the state the sequence tests; faults say which awaited call raises. */
module App {
  import opened Wrappers
  import opened Text
  import DbContext

  // ---- CORS origins ----

  /** `allowed_origins`: `"*"` alone becomes `["*"]`; any other value is split on `,` and
      each piece stripped, empty pieces included. */
  function ParseCorsOrigins(v: string): (r: seq<string>)
    ensures v == "*" ==> r == ["*"]
    ensures v != "*" ==> |r| == |Split(v, ',')| && forall i :: 0 <= i < |r| ==> r[i] == Strip(Split(v, ',')[i])
  {
    if v == "*" then ["*"]
    else
      var pieces := Split(v, ',');
      seq(|pieces|, i requires 0 <= i < |pieces| => Strip(pieces[i]))
  }

  /** There is one origin per comma plus one, in order; none contains a comma, and none
      starts or ends with whitespace. */
  lemma CorsOriginsShape(v: string)
    requires v != "*"
    ensures var r := ParseCorsOrigins(v);
            && |r| == Occurrences(v, ',') + 1
            && forall i :: 0 <= i < |r| ==> ',' !in r[i] && (r[i] == [] || (!IsSpace(r[i][0]) && !IsSpace(r[i][|r[i]| - 1])))
  {
    SplitCount(v, ',');
    var pieces := Split(v, ',');
    forall i | 0 <= i < |pieces| ensures ',' !in Strip(pieces[i]) {
      NotInStrip(pieces[i], ',');
    }
  }

  /** `strip()` only removes characters. */
  lemma NotInStrip(s: string, c: char)
    requires c !in s
    ensures c !in Strip(s)
  {
  }

  /** `strip()` leaves a string without whitespace alone. */
  lemma StripNoSpace(s: string)
    requires forall i :: 0 <= i < |s| ==> !IsSpace(s[i])
    ensures Strip(s) == s
  {
  }

  /** A list written without whitespace round-trips: joining the origins with `,` gives
      back the setting. */
  lemma CorsOriginsRoundTrip(v: string)
    requires v != "*"
    requires forall i :: 0 <= i < |v| ==> !IsSpace(v[i])
    ensures Join(ParseCorsOrigins(v), ',') == v
  {
    var pieces := Split(v, ',');
    var r := ParseCorsOrigins(v);
    forall i | 0 <= i < |pieces| ensures r[i] == pieces[i] {
      PiecesOfNoSpace(v, ',', i);
      StripNoSpace(pieces[i]);
    }
    assert r == pieces;
    JoinSplit(v, ',');
  }

  /** Split pieces are taken from the string, so they inherit its lack of whitespace. */
  lemma {:induction false} PiecesOfNoSpace(s: string, sep: char, i: int)
    requires forall k :: 0 <= k < |s| ==> !IsSpace(s[k])
    requires 0 <= i < |Split(s, sep)|
    ensures forall k :: 0 <= k < |Split(s, sep)[i]| ==> !IsSpace(Split(s, sep)[i][k])
    decreases |s|
  {
    if s != [] {
      var rest := Split(s[1..], sep);
      if s[0] == sep {
        if i > 0 {
          PiecesOfNoSpace(s[1..], sep, i - 1);
        }
      } else {
        if i == 0 {
          PiecesOfNoSpace(s[1..], sep, 0);
          assert Split(s, sep)[0] == [s[0]] + rest[0];
        } else {
          PiecesOfNoSpace(s[1..], sep, i);
          assert Split(s, sep)[i] == rest[i];
        }
      }
    }
  }

  /** One step of `split`: a separator closes a piece, any other character extends it. */
  lemma SplitCons(c: char, t: string, sep: char)
    ensures Split([c] + t, sep)
            == if c == sep then [[]] + Split(t, sep) else [[c] + Split(t, sep)[0]] + Split(t, sep)[1..]
  {
  }

  lemma SplitExample()
    ensures Split("a, b,,c ", ',') == ["a", " b", "", "c "]
  {
    var v := "a, b,,c ";
    SplitExampleTail();
    SplitCons(',', " b,,c ", ',');
    assert Split(", b,,c ", ',') == ["", " b", "", "c "] by { assert [','] + " b,,c " == ", b,,c "; }
    SplitCons('a', ", b,,c ", ',');
    assert Split(v, ',') == ["a", " b", "", "c "] by {
      assert ['a'] + ", b,,c " == v;
      assert ['a'] + "" == "a";
      assert ["", " b", "", "c "][1..] == [" b", "", "c "];
    }
  }

  lemma SplitExampleTail()
    ensures Split(" b,,c ", ',') == [" b", "", "c "]
  {
    SplitCons(' ', "", ',');
    assert Split(" ", ',') == [" "] by { assert [' '] + "" == " "; }
    SplitCons('c', " ", ',');
    assert Split("c ", ',') == ["c "] by { assert ['c'] + " " == "c "; }
    SplitCons(',', "c ", ',');
    assert Split(",c ", ',') == ["", "c "] by { assert [','] + "c " == ",c "; }
    SplitCons(',', ",c ", ',');
    assert Split(",,c ", ',') == ["", "", "c "] by { assert [','] + ",c " == ",,c "; }
    SplitCons('b', ",,c ", ',');
    assert Split("b,,c ", ',') == ["b", "", "c "] by {
      assert ['b'] + ",,c " == "b,,c ";
      assert ['b'] + "" == "b";
      assert ["", "", "c "][1..] == ["", "c "];
    }
    SplitCons(' ', "b,,c ", ',');
    assert Split(" b,,c ", ',') == [" b", "", "c "] by {
      assert [' '] + "b,,c " == " b,,c ";
      assert [' '] + "b" == " b";
      assert ["b", "", "c "][1..] == ["", "c "];
    }
  }

  /** A concrete list: four origins, each the stripped piece between the commas, the
      empty third piece kept. */
  lemma CorsOriginsExample()
    ensures var r := ParseCorsOrigins("a, b,,c ");
            |r| == 4 && r[2] == "" && r[1] == Strip(" b") && r[0] == Strip("a") && r[3] == Strip("c ")
  {
    SplitExample();
    assert Strip("") == "";
  }

  // ---- Lifespan ----

  datatype Step = SpawnPoller | StartScheduler | Serve | CancelPoller | ShutdownScheduler | DisposeEngine

  /** The order the steps are written in. */
  function Rank(s: Step): nat {
    match s
    case SpawnPoller => 0
    case StartScheduler => 1
    case Serve => 2
    case CancelPoller => 3
    case ShutdownScheduler => 4
    case DisposeEngine => 5
  }

  /** Which call raises: `create_task`, `scheduler.start()`, the application while it
      serves (thrown in at `yield`), `scheduler.shutdown()` or `dispose()`. */
  datatype Fault = SpawnFault | StartFault | ServeFault | ShutdownFault | DisposeFault

  /** `pollerDone`: the poller task has already finished when shut-down begins. Awaiting a
      cancelled poller is assumed to end in `CancelledError`, which is absorbed. */
  datatype Faults = Faults(
    spawnFails: bool, startFails: bool, serveFails: bool, pollerDone: bool,
    shutdownFails: bool, disposeFails: bool)

  datatype LifespanOutcome = LifespanOutcome(steps: seq<Step>, raised: Option<Fault>, schedulerRunning: bool)

  /** `lifespan`: start-up in the `try`, shut-down in the `finally`; the steps that were
      carried out, the exception it ends with, and whether the scheduler is left running.
      `engineUp`: an engine exists, so that `dispose_engine` has something to dispose. */
  function LifespanRun(running: bool, engineUp: bool, f: Faults): LifespanOutcome {
    var s1 := if f.spawnFails then [] else [SpawnPoller];
    var s2 := if !f.spawnFails && !running then s1 + [StartScheduler] else s1;
    var started := !f.spawnFails && (running || !f.startFails);
    var s3 := if started then s2 + [Serve] else s2;
    var early: Option<Fault> :=
      if f.spawnFails then Some(SpawnFault)
      else if !started then Some(StartFault)
      else if f.serveFails then Some(ServeFault)
      else None;
    var s4 := if !f.spawnFails && !f.pollerDone then s3 + [CancelPoller] else s3;
    var runningAtShutdown := running || (!f.spawnFails && !f.startFails);
    if runningAtShutdown && f.shutdownFails then
      LifespanOutcome(s4 + [ShutdownScheduler], Some(ShutdownFault), true)
    else
      var s5 := if runningAtShutdown then s4 + [ShutdownScheduler] else s4;
      LifespanOutcome(s5 + [DisposeEngine], if engineUp && f.disposeFails then Some(DisposeFault) else early, false)
  }

  predicate Increasing(steps: seq<Step>) {
    forall i, j :: 0 <= i < j < |steps| ==> Rank(steps[i]) < Rank(steps[j])
  }

  /** Each step happens at most once, in the order the source writes them. */
  lemma LifespanOrder(running: bool, engineUp: bool, f: Faults)
    ensures Increasing(LifespanRun(running, engineUp, f).steps)
  {
  }

  /** Start-up spawns the poller, starts the scheduler only if it is not running, and
      serves once both have succeeded. */
  lemma LifespanStartup(running: bool, engineUp: bool, f: Faults)
    ensures var o := LifespanRun(running, engineUp, f);
            && (SpawnPoller in o.steps <==> !f.spawnFails)
            && (StartScheduler in o.steps <==> !f.spawnFails && !running)
            && (Serve in o.steps <==> !f.spawnFails && (running || !f.startFails))
  {
  }

  /** Shut-down runs after a failed start-up too: the poller is cancelled only if its task
      exists and is not done; the scheduler is shut down only if it is running; the engine
      is disposed unless the scheduler shut-down raised. */
  lemma LifespanShutdown(running: bool, engineUp: bool, f: Faults)
    ensures var o := LifespanRun(running, engineUp, f);
            && (CancelPoller in o.steps <==> !f.spawnFails && !f.pollerDone)
            && (ShutdownScheduler in o.steps <==> running || (!f.spawnFails && !f.startFails))
            && (DisposeEngine in o.steps <==> !(ShutdownScheduler in o.steps && f.shutdownFails))
            && (o.schedulerRunning <==> ShutdownScheduler in o.steps && f.shutdownFails)
  {
  }

  /** A shut-down exception replaces one from start-up or serving; the run ends cleanly
      only when nothing raised. */
  lemma LifespanRaised(running: bool, engineUp: bool, f: Faults)
    ensures var o := LifespanRun(running, engineUp, f);
            && (ShutdownScheduler in o.steps && f.shutdownFails ==> o.raised == Some(ShutdownFault))
            && (DisposeEngine in o.steps && engineUp && f.disposeFails ==> o.raised == Some(DisposeFault))
            && (o.raised.None? <==>
                  && !f.spawnFails && (running || !f.startFails) && !f.serveFails
                  && !(ShutdownScheduler in o.steps && f.shutdownFails) && !(engineUp && f.disposeFails))
  {
  }

  /** The application's long-lived parts: the shared scheduler's `running` flag and the
      database context. */
  class Host {
    var schedulerRunning: bool
    const db: DbContext.Context

    constructor(db: DbContext.Context)
      ensures this.db == db && !schedulerRunning
    {
      this.db := db;
      schedulerRunning := false;
    }

    /** One run of `lifespan`: the steps taken, the exception it ends with, the new
      scheduler state; the engine is disposed exactly when the sequence reaches it. */
    method Lifespan(f: Faults) returns (steps: seq<Step>, raised: Option<Fault>)
      requires db.Valid()
      modifies this, db, db.engine
      ensures LifespanOutcome(steps, raised, schedulerRunning) == LifespanRun(old(schedulerRunning), old(db.engine) != null, f)
      ensures db.Valid()
      ensures DisposeEngine in steps && !f.disposeFails ==> db.engine == null
      ensures DisposeEngine in steps && !f.disposeFails && old(db.engine) != null ==>
              db.sessionMaker == None && old(db.engine).disposed
      ensures DisposeEngine in steps && (f.disposeFails || old(db.engine) == null) ==>
              db.engine == old(db.engine) && db.sessionMaker == old(db.sessionMaker)
      ensures !(DisposeEngine in steps) ==> db.engine == old(db.engine) && db.sessionMaker == old(db.sessionMaker)
    {
      steps := [];
      raised := None;
      var task := false;
      // try: start-up
      if f.spawnFails {
        raised := Some(SpawnFault);
      } else {
        steps := [SpawnPoller];
        task := true;
        if !schedulerRunning {
          steps := steps + [StartScheduler];
          if f.startFails {
            raised := Some(StartFault);
          } else {
            schedulerRunning := true;
          }
        }
        if raised.None? {
          steps := steps + [Serve];
          if f.serveFails {
            raised := Some(ServeFault);
          }
        }
      }
      // finally: shut-down
      if task && !f.pollerDone {
        steps := steps + [CancelPoller];
      }
      if schedulerRunning {
        steps := steps + [ShutdownScheduler];
        if f.shutdownFails {
          raised := Some(ShutdownFault);
          return;
        }
        schedulerRunning := false;
      }
      steps := steps + [DisposeEngine];
      var disposeRaised := db.DisposeEngine(f.disposeFails);
      if disposeRaised {
        raised := Some(DisposeFault);
      }
    }
  }
}
