/** The Eye On Water configuration flow: the user submits a domain selector,
    a username and a password; the flow maps the selector to an API host,
    authenticates against it, and either redisplays the form with an error,
    aborts because the account is already set up, or creates a config entry.

    The API client is not part of this model: the outcome of its
    `authenticate()` call is an input (`AuthOutcome`). */
module ConfigFlow {
  import opened Wrappers

  /** Keys of the submitted form (the host's CONF_DOMAIN, CONF_USERNAME and
      CONF_PASSWORD). */
  const ConfDomain := "domain"
  const ConfUsername := "username"
  const ConfPassword := "password"

  /** The selector used when the form carries no domain. */
  const DefaultDomain := "com"

  /** The form-error key and the error codes the form can show. */
  const ErrorBase := "base"
  const CannotConnectCode := "cannot_connect"
  const InvalidAuthCode := "invalid_auth"
  const UnknownCode := "unknown"

  /** The host's abort reason when the unique id already has an entry. */
  const AlreadyConfigured := "already_configured"

  /** The submitted form: field name to value. */
  type FormData = map<string, string>

  /** The client's account value object. */
  datatype Account = Account(hostname: string, username: string, password: string, metric: bool)

  /** The exceptions `create_account_from_config` can raise: `WrongDomain`
      for an unsupported selector, `KeyError` for a missing credential. */
  datatype AccountError = WrongDomain(domain: string) | MissingKey(key: string)

  /** How the client's `authenticate()` call ends: it returns, or raises an
      `asyncio.TimeoutError`, an `aiohttp.ClientError`, an
      `EyeOnWaterAPIError`, an `EyeOnWaterAuthError`, or some other
      `Exception` subclass (`OtherErr`). A `BaseException` that is not an
      `Exception` is not modelled: no handler of the flow catches it. */
  datatype AuthOutcome = Authenticated | Timeout | ClientErr | ApiErr | AuthErr | OtherErr

  /** The exceptions that can leave `validate_input`. `CannotConnect` and
      `InvalidAuth` are raised by it; the others pass through it. */
  datatype ValidateError =
    | CannotConnect
    | InvalidAuth
    | AccountFailed(cause: AccountError)
    | Unexpected

  /** What `validate_input` returns on success. */
  datatype Info = Info(title: string)

  /** The three ways a step can end. */
  datatype FlowResult =
    | ShowForm(errors: map<string, string>)
    | AbortFlow(reason: string)
    | CreateEntry(title: string, data: FormData)

  /** A step's result together with the flow's unique id afterwards. */
  datatype StepOutcome = StepOutcome(uniqueId: Option<string>, result: FlowResult)

  /** The two selectors the flow supports. */
  predicate SupportedDomain(domain: string) {
    domain == "com" || domain == "ca"
  }

  /** The selector the flow acts on: the submitted one, or the default. */
  function DomainOf(data: FormData): (domain: string) {
    if ConfDomain in data then data[ConfDomain] else DefaultDomain
  }

  /** Errors raised by `authenticate()` that mean the service was not reached. */
  predicate IsConnectivityFailure(auth: AuthOutcome) {
    auth == Timeout || auth == ClientErr || auth == ApiErr
  }

  /** `create_account_from_config`: the selector picks the API host and the
      unit system; the credentials are copied into the account. */
  function CreateAccountFromConfig(data: FormData): (r: Result<Account, AccountError>)
    ensures r.Ok? <==> SupportedDomain(DomainOf(data)) && ConfUsername in data && ConfPassword in data
    ensures !SupportedDomain(DomainOf(data)) ==> r == Err(WrongDomain(DomainOf(data)))
    ensures SupportedDomain(DomainOf(data)) && ConfUsername !in data ==> r == Err(MissingKey(ConfUsername))
    ensures SupportedDomain(DomainOf(data)) && ConfUsername in data && ConfPassword !in data ==>
              r == Err(MissingKey(ConfPassword))
    ensures r.Ok? ==>
              && r.value.hostname == "eyeonwater." + DomainOf(data)
              && (r.value.metric <==> DomainOf(data) == "ca")
              && r.value.username == data[ConfUsername]
              && r.value.password == data[ConfPassword]
  {
    var domain := DomainOf(data);
    if domain == "com" then
      BuildAccount("eyeonwater.com", data, false)
    else if domain == "ca" then
      BuildAccount("eyeonwater.ca", data, true)
    else
      Err(WrongDomain(domain))
  }

  /** The `Account(...)` call: its keyword arguments are read in order, so a
      missing username is reported before a missing password. */
  function BuildAccount(hostname: string, data: FormData, metric: bool): (r: Result<Account, AccountError>) {
    if ConfUsername !in data then Err(MissingKey(ConfUsername))
    else if ConfPassword !in data then Err(MissingKey(ConfPassword))
    else Ok(Account(hostname, data[ConfUsername], data[ConfPassword], metric))
  }

  /** `validate_input`: builds the account (outside any handler, so its
      errors pass through), authenticates, and translates the client's
      errors. */
  function ValidateInput(data: FormData, auth: AuthOutcome): (r: Result<Info, ValidateError>)
    ensures CreateAccountFromConfig(data).Err? ==> r == Err(AccountFailed(CreateAccountFromConfig(data).error))
    ensures r.Ok? <==> CreateAccountFromConfig(data).Ok? && auth == Authenticated
    ensures r.Ok? ==> r.value.title == data[ConfUsername]
    ensures r == Err(CannotConnect) <==> CreateAccountFromConfig(data).Ok? && IsConnectivityFailure(auth)
    ensures r == Err(InvalidAuth) <==> CreateAccountFromConfig(data).Ok? && auth == AuthErr
    ensures r == Err(Unexpected) <==> CreateAccountFromConfig(data).Ok? && auth == OtherErr
  {
    match CreateAccountFromConfig(data)
    case Err(e) => Err(AccountFailed(e))
    case Ok(account) =>
      match auth
      case Authenticated => Ok(Info(account.username))
      case Timeout => Err(CannotConnect)
      case ClientErr => Err(CannotConnect)
      case ApiErr => Err(CannotConnect)
      case AuthErr => Err(InvalidAuth)
      case OtherErr => Err(Unexpected)
  }

  /** The handlers of `async_step_user`, tried in order: `CannotConnect`,
      then `InvalidAuth`, then the broad `Exception`, which also catches
      `WrongDomain` (a `HomeAssistantError`), `KeyError` and every other
      `Exception` subclass raised by `authenticate()`. */
  function FormErrorCode(e: ValidateError): (code: string)
    ensures code == CannotConnectCode <==> e == CannotConnect
    ensures code == InvalidAuthCode <==> e == InvalidAuth
    ensures code == UnknownCode <==> e.AccountFailed? || e == Unexpected
  {
    match e
    case CannotConnect => CannotConnectCode
    case InvalidAuth => InvalidAuthCode
    case AccountFailed(_) => UnknownCode
    case Unexpected => UnknownCode
  }

  /** `ConfigFlow.async_step_user`. `userInput` is the submitted form, if
      any; `auth` is how `authenticate()` would end; `configured` holds the
      unique ids of existing entries; `uniqueId` is the flow's unique id
      before the step. */
  function AsyncStepUser(userInput: Option<FormData>, auth: AuthOutcome, configured: set<string>,
                         uniqueId: Option<string>): (r: StepOutcome)
    ensures userInput.None? ==> r == StepOutcome(uniqueId, ShowForm(map[]))
    ensures r.result.CreateEntry? <==>
              && userInput.Some?
              && ValidateInput(userInput.value, auth).Ok?
              && userInput.value[ConfUsername] !in configured
    ensures r.result.AbortFlow? <==>
              && userInput.Some?
              && ValidateInput(userInput.value, auth).Ok?
              && userInput.value[ConfUsername] in configured
    ensures r.result.CreateEntry? ==>
              && r.result.title == userInput.value[ConfUsername]
              && r.result.data == userInput.value
              && r.uniqueId == Some(userInput.value[ConfUsername])
    ensures r.result.AbortFlow? ==>
              r.result.reason == AlreadyConfigured && r.uniqueId == Some(userInput.value[ConfUsername])
    ensures userInput.Some? && ValidateInput(userInput.value, auth).Err? ==>
              r == StepOutcome(uniqueId, ShowForm(map[ErrorBase := FormErrorCode(ValidateInput(userInput.value, auth).error)]))
  {
    match userInput
    case None => StepOutcome(uniqueId, ShowForm(map[]))
    case Some(data) =>
      match ValidateInput(data, auth)
      case Err(e) => StepOutcome(uniqueId, ShowForm(map[ErrorBase := FormErrorCode(e)]))
      case Ok(info) =>
        // The abort raised here is outside the try block, so no handler
        // above turns it into a form error.
        var id := data[ConfUsername];
        if id in configured then
          StepOutcome(Some(id), AbortFlow(AlreadyConfigured))
        else
          StepOutcome(Some(id), CreateEntry(info.title, data))
  }
}
