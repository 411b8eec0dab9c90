/** The screen's state and the events that change it: typing a domain,
    ticking a checkbox, clicking Submit, and the lookup settling. Covers
    `handleSubmit`, the effect that re-enables Submit when the domain text
    changes, and which cards are on screen. */
module AppState {
  import opened Wrappers
  import opened Values
  import DomainSyntax
  import DomainAge
  import Checkboxes
  import Merge
  import Rendering

  const FetchErrorMessage: string := "An error occurred while fetching data. Please try again."

  /** The React state of `App`, without the animation flag. */
  datatype UiState = UiState(
    domain: string,
    data: Option<Record>,
    redirects: seq<string>,
    isLoading: bool,
    error: string,
    disableSubmit: bool,
    checked: set<string>)

  /** The state right after mounting. */
  const Initial: UiState := UiState("", None, [], false, "", false, {})

  /** What the six lookups produced once settled: the decoded bodies, or
      `None` when a request or a body decoding failed. */
  type FetchOutcome = Option<Merge.Payloads>

  /** The text field changed to `text`. The `[domain]` effect clears
      `disableSubmit` whenever the domain actually changes; setting the same
      text again changes nothing. */
  function EditDomain(s: UiState, text: string): (r: UiState)
    ensures r.domain == text
    ensures r.disableSubmit <==> s.disableSubmit && text == s.domain
    ensures r.(domain := s.domain, disableSubmit := s.disableSubmit) == s
  {
    if text == s.domain then s else s.(domain := text, disableSubmit := false)
  }

  /** The synchronous part of `handleSubmit`, up to the first `await`. An
      invalid domain returns at once: nothing changes and Submit stays
      enabled. Otherwise Submit is disabled, loading starts, the error is
      cleared and the old result is dropped. */
  function StartSubmit(s: UiState): (r: UiState)
    ensures !DomainSyntax.IsValidDomain(s.domain) ==> r == s
    ensures DomainSyntax.IsValidDomain(s.domain) ==>
      && r.disableSubmit && r.isLoading && r.error == "" && r.data == None
      && r.domain == s.domain && r.checked == s.checked && r.redirects == s.redirects
  {
    if !DomainSyntax.IsValidDomain(s.domain) then s
    else s.(disableSubmit := true, isLoading := true, error := "", data := None)
  }

  /** The rest of `handleSubmit`, once every lookup has settled. On success
      the merged record and the redirect list are stored. A failure before
      the record is stored (a failed request or decoding, a WHOIS payload
      without `result`) sets the error message and leaves the stored result
      as it was. A `null` host.io body fails only after the record is
      stored: the record is kept, the error message is set and the old
      redirect list stays. */
  function FinishSubmit(s: UiState, outcome: FetchOutcome, nowMillis: int,
                        formatDate: Value -> string): (r: UiState)
    ensures !r.isLoading
    ensures r.domain == s.domain && r.checked == s.checked && r.disableSubmit == s.disableSubmit
    ensures outcome.None? ==> r.error == FetchErrorMessage && r.data == s.data && r.redirects == s.redirects
    ensures outcome.Some? && outcome.value.whoisResult.None? ==>
      r.error == FetchErrorMessage && r.data == s.data && r.redirects == s.redirects
    ensures outcome.Some? && outcome.value.whoisResult.Some? ==>
      var m := Merge.MergePayloads(outcome.value, nowMillis, formatDate);
      && m.Some? && r.data == Some(m.value.data)
      && (m.value.redirects.Some? ==> r.redirects == m.value.redirects.value && r.error == s.error)
      && (m.value.redirects.None? ==> r.redirects == s.redirects && r.error == FetchErrorMessage)
  {
    var failed := s.(isLoading := false, error := FetchErrorMessage);
    match outcome
    case None => failed
    case Some(p) =>
      match Merge.MergePayloads(p, nowMillis, formatDate)
      case None => failed
      case Some(m) =>
        match m.redirects
        case None => failed.(data := Some(m.data))
        case Some(rs) => s.(data := Some(m.data), redirects := rs, isLoading := false)
  }

  /** The events of the screen. */
  datatype Event =
    | TypeDomain(text: string)
    | ToggleParameter(parameter: string)
    | ClickSubmit
    | LookupSettled(outcome: FetchOutcome, nowMillis: int)

  /** One event. A click on a disabled Submit button does nothing. */
  function Step(s: UiState, e: Event, formatDate: Value -> string): UiState {
    match e
    case TypeDomain(text) => EditDomain(s, text)
    case ToggleParameter(p) => s.(checked := Checkboxes.Toggle(s.checked, p))
    case ClickSubmit => if s.disableSubmit then s else StartSubmit(s)
    case LookupSettled(outcome, now) => FinishSubmit(s, outcome, now, formatDate)
  }

  function Run(s: UiState, events: seq<Event>, formatDate: Value -> string): UiState
    decreases |events|
  {
    if |events| == 0 then s else Run(Step(s, events[0], formatDate), events[1..], formatDate)
  }

  /** Number of clicks in `events` that start a lookup. */
  function LookupsStarted(s: UiState, events: seq<Event>, formatDate: Value -> string): nat
    decreases |events|
  {
    if |events| == 0 then 0
    else
      var started := if events[0].ClickSubmit? && !s.disableSubmit && DomainSyntax.IsValidDomain(s.domain)
        then 1 else 0;
      started + LookupsStarted(Step(s, events[0], formatDate), events[1..], formatDate)
  }

  /** No event in `events` types a text other than `d`. */
  predicate KeepsDomain(events: seq<Event>, d: string) {
    forall i :: 0 <= i < |events| ==> events[i].TypeDomain? ==> events[i].text == d
  }

  /** Once Submit is disabled it stays disabled, and no further lookup
      starts, for as long as the domain text does not change. */
  lemma {:induction false} DisabledUntilDomainChanges(s: UiState, events: seq<Event>, formatDate: Value -> string)
    requires s.disableSubmit
    requires KeepsDomain(events, s.domain)
    ensures Run(s, events, formatDate).disableSubmit
    ensures Run(s, events, formatDate).domain == s.domain
    ensures LookupsStarted(s, events, formatDate) == 0
    decreases |events|
  {
    if |events| > 0 {
      var t := Step(s, events[0], formatDate);
      assert t.disableSubmit && t.domain == s.domain;
      assert KeepsDomain(events[1..], s.domain) by {
        forall i | 0 <= i < |events[1..]| ensures events[1..][i].TypeDomain? ==> events[1..][i].text == s.domain {
          assert events[1..][i] == events[i + 1];
        }
      }
      DisabledUntilDomainChanges(t, events[1..], formatDate);
    }
  }

  /** A valid submit disables the button; typing any different domain
      enables it again. */
  lemma SubmitThenEdit(s: UiState, text: string, formatDate: Value -> string)
    requires !s.disableSubmit && DomainSyntax.IsValidDomain(s.domain)
    requires text != s.domain
    ensures Step(s, ClickSubmit, formatDate).disableSubmit
    ensures !Step(Step(s, ClickSubmit, formatDate), TypeDomain(text), formatDate).disableSubmit
  {
  }

  /** The cards on screen: none while loading or without a result. */
  function VisibleRows(s: UiState, formatCurrency: Value -> string): seq<Rendering.Row>
  {
    if s.isLoading || s.data.None? then []
    else Rendering.ResultRows(s.checked, s.data.value, s.redirects, formatCurrency)
  }

  /** No event in `events` settles a lookup. */
  predicate NoneSettle(events: seq<Event>) {
    forall i :: 0 <= i < |events| ==> !events[i].LookupSettled?
  }

  /** Only a settling lookup ends loading. */
  lemma {:induction false} StaysLoading(s: UiState, events: seq<Event>, formatDate: Value -> string)
    requires s.isLoading
    requires NoneSettle(events)
    ensures Run(s, events, formatDate).isLoading
    decreases |events|
  {
    if |events| > 0 {
      assert !events[0].LookupSettled?;
      assert NoneSettle(events[1..]) by {
        forall i | 0 <= i < |events[1..]| ensures !events[1..][i].LookupSettled? {
          assert events[1..][i] == events[i + 1];
        }
      }
      StaysLoading(Step(s, events[0], formatDate), events[1..], formatDate);
    }
  }

  /** From a valid submit until the lookup settles, no card is on screen,
      whatever was shown before and whatever is typed, ticked or clicked in
      between. */
  lemma LoadingShowsNothing(s: UiState, events: seq<Event>,
                            formatDate: Value -> string, formatCurrency: Value -> string)
    requires !s.disableSubmit && DomainSyntax.IsValidDomain(s.domain)
    requires NoneSettle(events)
    ensures VisibleRows(Run(Step(s, ClickSubmit, formatDate), events, formatDate), formatCurrency) == []
  {
    assert Step(s, ClickSubmit, formatDate).isLoading;
    StaysLoading(Step(s, ClickSubmit, formatDate), events, formatDate);
  }

  /** Right after mounting no card is on screen and Submit is enabled. */
  lemma MountShowsNothing(formatCurrency: Value -> string)
    ensures VisibleRows(Initial, formatCurrency) == [] && !Initial.disableSubmit
  {
  }

  /** A lookup that fails before the record is stored leaves no cards on
      screen and shows the error message. */
  lemma FailedLookupShowsNothing(s: UiState, nowMillis: int, formatDate: Value -> string,
                                 formatCurrency: Value -> string)
    requires DomainSyntax.IsValidDomain(s.domain)
    ensures var r := FinishSubmit(StartSubmit(s), None, nowMillis, formatDate);
      VisibleRows(r, formatCurrency) == [] && r.error == FetchErrorMessage
  {
  }

  /** A `null` host.io body fails after the record is stored: the cards of
      the new record are on screen together with the error message, and the
      redirect section lists the redirects of the previous lookup. */
  lemma NullRedirectsShowCardsAndError(s: UiState, p: Merge.Payloads, nowMillis: int,
                                       formatDate: Value -> string, formatCurrency: Value -> string)
    requires DomainSyntax.IsValidDomain(s.domain)
    requires p.whoisResult.Some? && p.hostIo.NullBody?
    ensures var r := FinishSubmit(StartSubmit(s), Some(p), nowMillis, formatDate);
      && r.data == Some(Merge.MergePayloads(p, nowMillis, formatDate).value.data)
      && r.error == FetchErrorMessage
      && VisibleRows(r, formatCurrency) == Rendering.ResultRows(s.checked, r.data.value, s.redirects, formatCurrency)
  {
  }

  /** The cards of a merged record: a falsy `drops` reads "0", the
      expiration card shows the formatted date and the age card the age
      text. */
  lemma MergedCardValues(p: Merge.Payloads, nowMillis: int,
                         formatDate: Value -> string, formatCurrency: Value -> string)
    requires p.whoisResult.Some?
    ensures var data := Merge.MergePayloads(p, nowMillis, formatDate).value.data;
      && (Falsy(Get(p.completeDns, "drops")) ==>
            Rendering.ParameterValue("Domain Drops", data, formatCurrency) == "0")
      && Rendering.ParameterValue("Expiration Date", data, formatCurrency)
           == formatDate(p.whoisResult.value.expirationDate)
      && Rendering.ParameterValue("Domain Age", data, formatCurrency)
           == DomainAge.DomainAgeText(p.whoisResult.value.creationMillis, nowMillis)
  {
    var data := Merge.MergePayloads(p, nowMillis, formatDate).value.data;
    if Falsy(Get(p.completeDns, "drops")) {
      Rendering.ZeroDropsCard(data, formatCurrency);
    }
    var w := p.whoisResult.value;
    Rendering.StringFieldCard("Expiration Date", "expiration_date", data,
                              formatDate(w.expirationDate), formatCurrency);
    Rendering.StringFieldCard("Domain Age", "domain_age", data,
                              DomainAge.DomainAgeText(w.creationMillis, nowMillis), formatCurrency);
  }

  /** Once a settled lookup has stored its record and the DNS-history
      payload has a falsy `drops`, the "Domain Drops" card reads "0"; the
      expiration card shows the formatted date and the age card the age
      text. */
  lemma SettledCardValues(s: UiState, p: Merge.Payloads, nowMillis: int,
                          formatDate: Value -> string, formatCurrency: Value -> string)
    requires p.whoisResult.Some?
    ensures var r := FinishSubmit(s, Some(p), nowMillis, formatDate);
      && r.data.Some?
      && (Falsy(Get(p.completeDns, "drops")) ==>
            Rendering.ParameterValue("Domain Drops", r.data.value, formatCurrency) == "0")
      && Rendering.ParameterValue("Expiration Date", r.data.value, formatCurrency)
           == formatDate(p.whoisResult.value.expirationDate)
      && Rendering.ParameterValue("Domain Age", r.data.value, formatCurrency)
           == DomainAge.DomainAgeText(p.whoisResult.value.creationMillis, nowMillis)
  {
    MergedCardValues(p, nowMillis, formatDate, formatCurrency);
  }
}
