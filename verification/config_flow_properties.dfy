/** Properties of the configuration flow that relate several calls or single
    out one class of inputs. */
module ConfigFlowProperties {
  import opened Wrappers
  import opened ConfigFlow

  /** Selector "com" picks the imperial US service. */
  lemma ComSelectsUsService(data: FormData)
    requires DomainOf(data) == "com" && ConfUsername in data && ConfPassword in data
    ensures CreateAccountFromConfig(data).Ok?
    ensures CreateAccountFromConfig(data).value.hostname == "eyeonwater.com"
    ensures !CreateAccountFromConfig(data).value.metric
  {
  }

  /** Selector "ca" picks the metric Canadian service. */
  lemma CaSelectsCanadianService(data: FormData)
    requires DomainOf(data) == "ca" && ConfUsername in data && ConfPassword in data
    ensures CreateAccountFromConfig(data).Ok?
    ensures CreateAccountFromConfig(data).value.hostname == "eyeonwater.ca"
    ensures CreateAccountFromConfig(data).value.metric
  {
  }

  /** A form without a domain field behaves like one that selects "com":
      the same account, the same validation, the same unique id and the same
      step result, except that a created entry stores the form as submitted. */
  lemma MissingDomainActsAsCom(data: FormData, auth: AuthOutcome, configured: set<string>, uniqueId: Option<string>)
    requires ConfDomain !in data
    ensures CreateAccountFromConfig(data) == CreateAccountFromConfig(data[ConfDomain := "com"])
    ensures ValidateInput(data, auth) == ValidateInput(data[ConfDomain := "com"], auth)
    ensures AsyncStepUser(Some(data), auth, configured, uniqueId).uniqueId ==
            AsyncStepUser(Some(data[ConfDomain := "com"]), auth, configured, uniqueId).uniqueId
    ensures AsyncStepUser(Some(data), auth, configured, uniqueId).result.CreateEntry? <==>
            AsyncStepUser(Some(data[ConfDomain := "com"]), auth, configured, uniqueId).result.CreateEntry?
    ensures !AsyncStepUser(Some(data), auth, configured, uniqueId).result.CreateEntry? ==>
            AsyncStepUser(Some(data), auth, configured, uniqueId).result ==
            AsyncStepUser(Some(data[ConfDomain := "com"]), auth, configured, uniqueId).result
    ensures AsyncStepUser(Some(data), auth, configured, uniqueId).result.CreateEntry? ==>
            AsyncStepUser(Some(data), auth, configured, uniqueId).result.title ==
            AsyncStepUser(Some(data[ConfDomain := "com"]), auth, configured, uniqueId).result.title
  {
  }

  /** An unsupported selector is rejected before the client is used: the
      outcome of validation does not depend on how `authenticate()` would
      have ended. */
  lemma WrongDomainNeverAuthenticates(data: FormData, auth1: AuthOutcome, auth2: AuthOutcome)
    requires !SupportedDomain(DomainOf(data))
    ensures ValidateInput(data, auth1) == ValidateInput(data, auth2)
    ensures ValidateInput(data, auth1) == Err(AccountFailed(WrongDomain(DomainOf(data))))
  {
  }

  /** A timeout, a transport error or an API error redisplays the form with
      "cannot_connect" and leaves the flow's unique id alone. */
  lemma ConnectivityFailureShowsCannotConnect(data: FormData, auth: AuthOutcome, configured: set<string>,
                                              uniqueId: Option<string>)
    requires CreateAccountFromConfig(data).Ok? && IsConnectivityFailure(auth)
    ensures AsyncStepUser(Some(data), auth, configured, uniqueId) ==
            StepOutcome(uniqueId, ShowForm(map[ErrorBase := CannotConnectCode]))
  {
  }

  /** A rejected login redisplays the form with "invalid_auth". */
  lemma AuthRejectionShowsInvalidAuth(data: FormData, configured: set<string>, uniqueId: Option<string>)
    requires CreateAccountFromConfig(data).Ok?
    ensures AsyncStepUser(Some(data), AuthErr, configured, uniqueId) ==
            StepOutcome(uniqueId, ShowForm(map[ErrorBase := InvalidAuthCode]))
  {
  }

  /** Every other `Exception`, an unsupported selector and a missing
      credential included, redisplays the form with "unknown" rather than
      ending the flow. */
  lemma OtherFailureShowsUnknown(data: FormData, auth: AuthOutcome, configured: set<string>,
                                 uniqueId: Option<string>)
    requires CreateAccountFromConfig(data).Err? || auth == OtherErr
    ensures AsyncStepUser(Some(data), auth, configured, uniqueId) ==
            StepOutcome(uniqueId, ShowForm(map[ErrorBase := UnknownCode]))
  {
  }

  /** The form is shown without errors exactly when nothing was submitted;
      a shown form otherwise carries one of the three error codes. */
  lemma FormErrorsAreEmptyOnlyWithoutInput(userInput: Option<FormData>, auth: AuthOutcome,
                                           configured: set<string>, uniqueId: Option<string>)
    ensures AsyncStepUser(userInput, auth, configured, uniqueId).result == ShowForm(map[]) <==> userInput.None?
    ensures AsyncStepUser(userInput, auth, configured, uniqueId).result.ShowForm? && userInput.Some? ==>
            exists code :: code in {CannotConnectCode, InvalidAuthCode, UnknownCode} &&
              AsyncStepUser(userInput, auth, configured, uniqueId).result.errors == map[ErrorBase := code]
  {
    var r := AsyncStepUser(userInput, auth, configured, uniqueId);
    if r.result.ShowForm? && userInput.Some? {
      var code := FormErrorCode(ValidateInput(userInput.value, auth).error);
      assert ErrorBase in r.result.errors;
      assert r.result.errors == map[ErrorBase := code];
    }
  }

  /** At most one entry per account: once a submission has created an
      entry, submitting the same form again, with that entry's unique id
      now configured, aborts instead of creating a second one. */
  lemma SecondSetupOfSameAccountAborts(data: FormData, auth: AuthOutcome, configured: set<string>,
                                       uniqueId: Option<string>, laterId: Option<string>)
    requires AsyncStepUser(Some(data), auth, configured, uniqueId).result.CreateEntry?
    ensures AsyncStepUser(Some(data), auth, configured + {AsyncStepUser(Some(data), auth, configured, uniqueId).uniqueId.value},
                          laterId).result == AbortFlow(AlreadyConfigured)
  {
  }

  /** A created entry is keyed by, and titled with, the submitted username,
      and its data is the form as submitted. */
  lemma CreatedEntryRecordsTheSubmission(data: FormData, configured: set<string>, uniqueId: Option<string>)
    requires CreateAccountFromConfig(data).Ok? && data[ConfUsername] !in configured
    ensures AsyncStepUser(Some(data), Authenticated, configured, uniqueId) ==
            StepOutcome(Some(data[ConfUsername]), CreateEntry(data[ConfUsername], data))
  {
  }
}
