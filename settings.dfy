/** The application settings of src/utils/settings.py: typed fields with their bounds
    and defaults, and the two field validators. Reading the environment and the
    `.env` file, and converting strings to integers, belong to pydantic and are
    not modelled: `Load` starts from candidate values that already have the field types. */
module Settings {
  import opened Wrappers
  import opened Text

  const EmptyUrlMessage := "DATABASE_URL cannot be empty"
  const InvalidUrlMessage := "DATABASE_URL must be a valid PostgreSQL connection string"
  const BackoffOrderMessage := "Max backoff must be greater than or equal to initial backoff"

  /** pydantic's reports: a `ValueError` raised by a validator is prefixed with
      "Value error, ", and a `ge`/`le` bound has its own text. */
  const ValueErrorPrefix := "Value error, "
  const AtLeastOneMessage := "Input should be greater than or equal to 1"
  const AtMostPortMessage := "Input should be less than or equal to 65535"

  /** The three URL schemes `validate_database_url` accepts. */
  const PlainScheme := "postgresql://"
  const PsycopgScheme := "postgresql+psycopg://"
  const AsyncpgScheme := "postgresql+asyncpg://"

  predicate IsPostgresUrl(v: string) {
    StartsWith(v, PlainScheme) || StartsWith(v, PsycopgScheme) || StartsWith(v, AsyncpgScheme)
  }

  /** `validate_database_url`: the value is returned unchanged when it is a PostgreSQL URL,
      an empty value and any other value are rejected with their own messages. */
  function ValidateDatabaseUrl(v: string): (r: Result<string, string>)
    ensures r.Success? <==> IsPostgresUrl(v)
    ensures r.Success? ==> r.value == v
    ensures v == [] ==> r == Failure(EmptyUrlMessage)
    ensures v != [] && !IsPostgresUrl(v) ==> r == Failure(InvalidUrlMessage)
  {
    if v == [] then Failure(EmptyUrlMessage)
    else if !IsPostgresUrl(v) then Failure(InvalidUrlMessage)
    else Success(v)
  }

  /** Python truthiness of an optional integer: absent and `0` are false. */
  predicate Truthy(x: Option<int>) {
    x.Some? && x.value != 0
  }

  /** `validate_backoff`: `initial` is the initial backoff as pydantic has validated it so
      far (absent when that field failed its own checks). The maximum is rejected only
      when the initial value is present, non-zero and larger. */
  function ValidateBackoff(v: int, initial: Option<int>): (r: Result<int, string>)
    ensures r.Failure? <==> Truthy(initial) && v < initial.value
    ensures r.Success? ==> r.value == v
    ensures r.Failure? ==> r.error == BackoffOrderMessage
  {
    if Truthy(initial) && v < initial.value then Failure(BackoffOrderMessage) else Success(v)
  }

  /** The fields of `Settings`; the defaulted ones carry their defaults. */
  datatype Settings = Settings(
    host: string,
    port: int,
    workers: int,
    databaseUrl: string,
    backoffInitial: int,
    backoffMax: int,
    sampleJobFrequency: string,
    databaseSchema: string := "public",
    jobStoreDatabaseSchema: string := "public_job_store",
    corsAllowedOrigins: string := "*")

  /** One rejected field, named by its environment alias. */
  datatype FieldError = FieldError(field: string, message: string)

  /** Everything `Settings` demands of its fields. */
  predicate Valid(s: Settings) {
    && 1 <= s.port <= 65535
    && s.workers >= 1
    && IsPostgresUrl(s.databaseUrl)
    && s.backoffInitial >= 1
    && s.backoffMax >= 1
    && s.backoffMax >= s.backoffInitial
  }

  function Check(ok: bool, field: string, message: string): seq<FieldError> {
    if ok then [] else [FieldError(field, message)]
  }

  /** The errors pydantic reports, in field order. The `ge=1` bound of the maximum is
      checked before its validator runs, and the validator sees the initial backoff only
      if that field passed its own bound. */
  function Errors(s: Settings): (errs: seq<FieldError>)
    ensures errs == [] <==> Valid(s)
  {
    var urlCheck := ValidateDatabaseUrl(s.databaseUrl);
    var initialSeen := if s.backoffInitial >= 1 then Some(s.backoffInitial) else None;
    Check(1 <= s.port, "PORT", AtLeastOneMessage)
    + Check(s.port <= 65535, "PORT", AtMostPortMessage)
    + Check(s.workers >= 1, "WORKERS", AtLeastOneMessage)
    + (if urlCheck.Failure? then [FieldError("DATABASE_URL", ValueErrorPrefix + urlCheck.error)] else [])
    + Check(s.backoffInitial >= 1, "SAMPLE_EVENT_POLLING_BACKOFF_INITIAL_IN_SECONDS", AtLeastOneMessage)
    + (if s.backoffMax < 1
       then [FieldError("SAMPLE_EVENT_POLLING_BACKOFF_MAX_IN_SECONDS", AtLeastOneMessage)]
       else Check(ValidateBackoff(s.backoffMax, initialSeen).Success?,
                  "SAMPLE_EVENT_POLLING_BACKOFF_MAX_IN_SECONDS", ValueErrorPrefix + BackoffOrderMessage))
  }

  /** Each broken rule is reported on its own field with pydantic's text: the bound
      messages, and the validators' own messages behind "Value error, ". */
  lemma ErrorMessages(s: Settings)
    ensures s.port < 1 ==> FieldError("PORT", AtLeastOneMessage) in Errors(s)
    ensures s.port > 65535 ==> FieldError("PORT", AtMostPortMessage) in Errors(s)
    ensures s.workers < 1 ==> FieldError("WORKERS", AtLeastOneMessage) in Errors(s)
    ensures s.databaseUrl == [] ==>
              FieldError("DATABASE_URL", ValueErrorPrefix + EmptyUrlMessage) in Errors(s)
    ensures s.databaseUrl != [] && !IsPostgresUrl(s.databaseUrl) ==>
              FieldError("DATABASE_URL", ValueErrorPrefix + InvalidUrlMessage) in Errors(s)
    ensures 1 <= s.backoffInitial && 1 <= s.backoffMax < s.backoffInitial ==>
              FieldError("SAMPLE_EVENT_POLLING_BACKOFF_MAX_IN_SECONDS",
                         ValueErrorPrefix + BackoffOrderMessage) in Errors(s)
  {
  }

  /** `Settings()`: the candidate is accepted unchanged exactly when it is valid, and the
      accepted settings meet what the event poller needs, 1 <= initial <= max. */
  function Load(s: Settings): (r: Result<Settings, seq<FieldError>>)
    ensures r.Success? <==> Valid(s)
    ensures r.Success? ==> r.value == s && 1 <= s.backoffInitial <= s.backoffMax
    ensures r.Failure? ==> |r.error| > 0
  {
    var errs := Errors(s);
    if errs == [] then Success(s) else Failure(errs)
  }

  /** The defaults of the three optional fields. */
  lemma Defaults(host: string, port: int, workers: int, url: string, initial: int, max: int, freq: string)
    ensures var s := Settings(host, port, workers, url, initial, max, freq);
            s.databaseSchema == "public" && s.jobStoreDatabaseSchema == "public_job_store"
            && s.corsAllowedOrigins == "*"
  {
  }
}
