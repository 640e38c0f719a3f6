/** `DbContext` (src/db/context.py): a lazily created engine and session maker, their
    disposal, and the commit / rollback / close protocol of `get_session_async`. The
    engine's pool and the session's SQL work are not modelled; a session's body, commit
    and rollback are reduced to whether each raises. */
module DbContext {
  import opened Wrappers

  /** The `create_async_engine` arguments. */
  datatype EngineConfig = EngineConfig(
    url: string, echo: bool, poolSize: nat, maxOverflow: nat, poolTimeout: nat,
    poolRecycle: nat, poolPrePing: bool, poolUseLifo: bool)

  function EngineConfigFor(url: string): EngineConfig {
    EngineConfig(url, false, 10, 20, 30, 1800, true, true)
  }

  /** The `sessionmaker` arguments. */
  datatype SessionMakerConfig = SessionMakerConfig(expireOnCommit: bool, autoflush: bool, autocommit: bool)

  const DefaultSessionMaker: SessionMakerConfig := SessionMakerConfig(false, false, false)

  /** The pool holds at most `pool_size + max_overflow` connections. */
  lemma PoolBounds(url: string)
    ensures var c := EngineConfigFor(url);
            c.url == url && c.poolSize + c.maxOverflow == 30 && !c.echo && c.poolPrePing && c.poolUseLifo
    ensures !DefaultSessionMaker.expireOnCommit && !DefaultSessionMaker.autoflush && !DefaultSessionMaker.autocommit
  {
  }

  class Engine {
    const config: EngineConfig
    var disposed: bool

    constructor(config: EngineConfig)
      ensures this.config == config && !disposed
    {
      this.config := config;
      disposed := false;
    }

    /** `await engine.dispose()`, which may raise; it closes the pool only on success. */
    method Dispose(fails: bool) returns (raised: bool)
      modifies this
      ensures raised == fails
      ensures disposed == (old(disposed) || !fails)
    {
      if fails {
        return true;
      }
      disposed := true;
      return false;
    }
  }

  /** What the `async with` body does with the session. */
  datatype Body =
    | BodyCompletes
    | BodyRaises        // an `Exception`
    | BodyCancelled     // `CancelledError`, a `BaseException` that `except Exception` lets through

  /** Where the exception leaving `get_session_async` comes from. */
  datatype Raise = FromBody | FromCommit | FromRollback | Cancelled

  datatype SessionStep = Open | Yield | Commit | Rollback | Close

  datatype SessionOutcome = SessionOutcome(steps: seq<SessionStep>, raised: Option<Raise>)

  /** The session protocol: commit after a body that completes; on an `Exception` from the
      body or from the commit, roll back and re-raise (a failing rollback raises its own
      exception instead); cancellation skips both; the session is closed on every path,
      last and once. */
  function SessionRun(body: Body, commitFails: bool, rollbackFails: bool): (o: SessionOutcome)
    ensures |o.steps| >= 3 && o.steps[0] == Open && o.steps[1] == Yield && o.steps[|o.steps| - 1] == Close
    ensures forall i :: 0 <= i < |o.steps| - 1 ==> o.steps[i] != Close
    ensures (Commit in o.steps) <==> body == BodyCompletes
    ensures (Rollback in o.steps) <==> body == BodyRaises || (body == BodyCompletes && commitFails)
    ensures o.raised.None? <==> body == BodyCompletes && !commitFails
    ensures body == BodyCancelled ==> o.raised == Some(Cancelled)
    ensures (Rollback in o.steps) && !rollbackFails ==>
            o.raised == Some(if body == BodyRaises then FromBody else FromCommit)
    ensures (Rollback in o.steps) && rollbackFails ==> o.raised == Some(FromRollback)
  {
    match body
    case BodyCancelled => SessionOutcome([Open, Yield, Close], Some(Cancelled))
    case BodyRaises => SessionOutcome([Open, Yield, Rollback, Close],
                                      Some(if rollbackFails then FromRollback else FromBody))
    case BodyCompletes =>
      if !commitFails then SessionOutcome([Open, Yield, Commit, Close], None)
      else SessionOutcome([Open, Yield, Commit, Rollback, Close],
                          Some(if rollbackFails then FromRollback else FromCommit))
  }

  /** The class-level `__engine__` and `__session_maker__`; `databaseUrl` stands for
      `settings.database_url`. */
  class Context {
    const databaseUrl: string
    var engine: Engine?
    var sessionMaker: Option<SessionMakerConfig>

    /** The engine and the session maker are set and cleared together. */
    ghost predicate Valid()
      reads this
    {
      engine == null <==> sessionMaker.None?
    }

    constructor(databaseUrl: string)
      ensures this.databaseUrl == databaseUrl && engine == null && sessionMaker == None
      ensures Valid()
    {
      this.databaseUrl := databaseUrl;
      engine := null;
      sessionMaker := None;
    }

    /** `initialize`: build the engine and session maker only when there is no engine. */
    method Initialize()
      requires Valid()
      modifies this
      ensures Valid() && engine != null
      ensures old(engine) != null ==> engine == old(engine) && sessionMaker == old(sessionMaker)
      ensures old(engine) == null ==>
              fresh(engine) && engine.config == EngineConfigFor(databaseUrl) && !engine.disposed
              && sessionMaker == Some(DefaultSessionMaker)
    {
      if engine == null {
        engine := new Engine(EngineConfigFor(databaseUrl));
        sessionMaker := Some(DefaultSessionMaker);
      }
    }

    /** `get_engine`: initialise, then return the engine, which is never `None`. */
    method GetEngine() returns (e: Engine)
      requires Valid()
      modifies this
      ensures Valid() && e == engine
      ensures old(engine) != null ==> e == old(engine) && sessionMaker == old(sessionMaker)
      ensures old(engine) == null ==> fresh(e) && e.config == EngineConfigFor(databaseUrl) && !e.disposed
    {
      Initialize();
      e := engine;
    }

    /** `dispose_engine`: dispose the engine and clear both fields; nothing to do without
      an engine. A raising `dispose()` leaves both fields set. */
    method DisposeEngine(fails: bool) returns (raised: bool)
      requires Valid()
      modifies this, engine
      ensures Valid()
      ensures old(engine) == null ==> !raised && engine == null && sessionMaker == old(sessionMaker)
      ensures old(engine) != null ==> raised == fails && old(engine).disposed == (old(engine.disposed) || !fails)
      ensures old(engine) != null && !fails ==> engine == null && sessionMaker == None
      ensures old(engine) != null && fails ==> engine == old(engine) && sessionMaker == old(sessionMaker)
    {
      raised := false;
      if engine != null {
        raised := engine.Dispose(fails);
        if !raised {
          engine := null;
          sessionMaker := None;
        }
      }
    }

    /** `get_session_async`: initialise, open a session from the session maker, and run
      the protocol of `SessionRun` around the body. */
    method GetSessionAsync(body: Body, commitFails: bool, rollbackFails: bool)
      returns (steps: seq<SessionStep>, raised: Option<Raise>)
      requires Valid()
      modifies this
      ensures Valid() && engine != null
      ensures old(engine) != null ==> engine == old(engine) && sessionMaker == old(sessionMaker)
      ensures old(engine) == null ==>
              fresh(engine) && engine.config == EngineConfigFor(databaseUrl) && !engine.disposed
              && sessionMaker == Some(DefaultSessionMaker)
      ensures SessionOutcome(steps, raised) == SessionRun(body, commitFails, rollbackFails)
    {
      Initialize();
      steps := [Open, Yield];
      raised := None;
      if body == BodyCancelled {
        raised := Some(Cancelled);
      } else {
        var failed := body == BodyRaises;
        if !failed {
          steps := steps + [Commit];
          failed := commitFails;
        }
        if failed {
          steps := steps + [Rollback];
          raised := Some(if rollbackFails then FromRollback
                         else if body == BodyRaises then FromBody else FromCommit);
        }
      }
      steps := steps + [Close];
    }
  }

  /** After a dispose the next `get_engine` builds a new engine. */
  method DisposeThenReinitialise(ctx: Context) returns (e: Engine)
    requires ctx.Valid() && ctx.engine != null
    modifies ctx, ctx.engine
    ensures fresh(e) && e.config == EngineConfigFor(ctx.databaseUrl) && ctx.engine == e
  {
    var raised := ctx.DisposeEngine(false);
    e := ctx.GetEngine();
  }
}
