/** src/jobs/configure_scheduler.py: the job store's synchronous database URL and the
    scheduler's job defaults. The scheduler itself (cron triggers, coalescing, misfire
    handling) belongs to APScheduler and is not modelled. */
module ConfigureScheduler {
  import opened Text
  import Settings

  /** `job_defaults` of `get_scheduler`. */
  datatype JobDefaults = JobDefaults(coalesce: bool, maxInstances: int, misfireGraceTime: int)

  /** What `get_scheduler` hands to `AsyncIOScheduler`: the default job store and the defaults. */
  datatype SchedulerConfig = SchedulerConfig(jobStoreUrl: string, jobStoreSchema: string, jobDefaults: JobDefaults)

  /** The two chained `str.replace` calls of `get_scheduler`. */
  function SyncDatabaseUrl(url: string): string {
    Replace(Replace(url, Settings.PsycopgScheme, Settings.PsycopgScheme),
            Settings.AsyncpgScheme, Settings.PsycopgScheme)
  }

  /** `get_scheduler`: one default job store on the synchronous URL and the settings'
      job-store schema; jobs coalesce, never overlap and may start up to 60 s late. */
  function GetScheduler(s: Settings.Settings): (c: SchedulerConfig)
    ensures c.jobStoreUrl == SyncDatabaseUrl(s.databaseUrl)
    ensures c.jobStoreSchema == s.jobStoreDatabaseSchema
    ensures c.jobDefaults.coalesce && c.jobDefaults.maxInstances == 1
    ensures c.jobDefaults.misfireGraceTime == 60
  {
    SchedulerConfig(SyncDatabaseUrl(s.databaseUrl), s.jobStoreDatabaseSchema, JobDefaults(true, 1, 60))
  }

  /** The first replacement is the identity. */
  lemma {:induction false} FirstReplaceIsIdentity(url: string)
    ensures Replace(url, Settings.PsycopgScheme, Settings.PsycopgScheme) == url
  {
    ReplaceSelf(url, Settings.PsycopgScheme);
  }

  /** Text without an asyncpg scheme in it is passed through unchanged. */
  lemma {:induction false} UrlWithoutAsyncpgUnchanged(url: string)
    requires forall i :: !OccursAt(url, Settings.AsyncpgScheme, i)
    ensures SyncDatabaseUrl(url) == url
  {
    FirstReplaceIsIdentity(url);
    ReplaceAbsent(url, Settings.AsyncpgScheme, Settings.PsycopgScheme);
  }

  /** The asyncpg scheme does not start at the first character of a synchronous scheme:
      they differ at index 10 or 11. */
  lemma NoAsyncpgAtStart(scheme: string, rest: string)
    requires scheme == Settings.PlainScheme || scheme == Settings.PsycopgScheme
    ensures !StartsWith(scheme + rest, Settings.AsyncpgScheme)
  {
    var a := Settings.AsyncpgScheme;
    var x := scheme + rest;
    if |x| >= |a| {
      assert x[10] == scheme[10] && x[11] == scheme[11];
      assert x[10] != a[10] || x[11] != a[11];
      assert x[..|a|] != a;
    }
  }

  /** Nor does it start at a later character: no "po" pair follows position 0. */
  lemma NoAsyncpgInside(scheme: string, rest: string, i: int)
    requires scheme == Settings.PlainScheme || scheme == Settings.PsycopgScheme
    requires 0 < i < |scheme|
    ensures !StartsWith((scheme + rest)[i..], Settings.AsyncpgScheme)
  {
    var a := Settings.AsyncpgScheme;
    var x := (scheme + rest)[i..];
    if |x| >= |a| {
      assert x[0] == scheme[i];
      if i + 1 < |scheme| {
        assert x[1] == scheme[i + 1];
        assert scheme[i] != 'p' || scheme[i + 1] != 'o';
      } else {
        assert scheme[i] == '/';
      }
      assert x[0] != a[0] || x[1] != a[1];
      assert x[..|a|] != a;
    }
  }

  /** A scheme that the asyncpg scheme cannot start inside is kept, and only the rest
      of the URL is rewritten. */
  lemma {:induction false} KeepsScheme(scheme: string, rest: string)
    requires scheme == Settings.PlainScheme || scheme == Settings.PsycopgScheme
    ensures SyncDatabaseUrl(scheme + rest)
            == scheme + Replace(rest, Settings.AsyncpgScheme, Settings.PsycopgScheme)
  {
    var a := Settings.AsyncpgScheme;
    FirstReplaceIsIdentity(scheme + rest);
    forall i | 0 <= i < |scheme| ensures !StartsWith((scheme + rest)[i..], a) {
      if i == 0 {
        NoAsyncpgAtStart(scheme, rest);
        assert (scheme + rest)[0..] == scheme + rest;
      } else {
        NoAsyncpgInside(scheme, rest, i);
      }
    }
    ReplaceKeepsPrefix(scheme, rest, a, Settings.PsycopgScheme);
  }

  /** An accepted database URL becomes a URL with a synchronous scheme: the asyncpg
      scheme is rewritten to psycopg, the other two are kept. */
  lemma SyncUrlOfValidUrl(url: string)
    requires Settings.ValidateDatabaseUrl(url).Success?
    ensures StartsWith(SyncDatabaseUrl(url), Settings.PlainScheme)
         || StartsWith(SyncDatabaseUrl(url), Settings.PsycopgScheme)
    ensures StartsWith(url, Settings.AsyncpgScheme) ==> StartsWith(SyncDatabaseUrl(url), Settings.PsycopgScheme)
  {
    var a := Settings.AsyncpgScheme;
    var p := Settings.PsycopgScheme;
    var c := Settings.PlainScheme;
    if StartsWith(url, a) {
      FirstReplaceIsIdentity(url);
      ReplaceAtStart(url, a, p);
    } else if StartsWith(url, p) {
      KeepsScheme(p, url[|p|..]);
      assert url == p + url[|p|..];
    } else {
      KeepsScheme(c, url[|c|..]);
      assert url == c + url[|c|..];
    }
  }
}
