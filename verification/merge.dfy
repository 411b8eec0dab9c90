/** The six provider payloads and how a successful lookup folds them into
    one result record plus a redirect list. */
module Merge {
  import opened Wrappers
  import opened Values
  import DomainAge

  /** The `result` object of the WHOIS payload. The creation date is kept as
      the millisecond timestamp `new Date(...)` parses it to, `None` when it
      cannot be parsed. */
  datatype WhoisResult = WhoisResult(creationMillis: Option<int>, expirationDate: Value)

  /** The decoded host.io body. Reading `domains` off a `null` body throws;
      any other body yields its `domains` list, or `None` when that is
      absent or null. */
  datatype HostIoBody = NullBody | HostIoObject(domains: Option<seq<string>>)

  /** Decoded JSON bodies of the six lookups, in request order.
      `whoisResult` is `None` when the WHOIS payload has no `result`. A
      `null` DomDetailer body spreads to no properties, the empty record. */
  datatype Payloads = Payloads(
    domDetailer: Record,
    goDaddy: Record,
    isIndexed: Record,
    hostIo: HostIoBody,
    completeDns: Record,
    whoisResult: Option<WhoisResult>)

  /** What the settled lookup stores: the `data` record, and `redirects`
      unless reading the redirect list threw after the record was stored. */
  datatype Merged = Merged(data: Record, redirects: Option<seq<string>>)

  /** The properties written on top of the DomDetailer fields. */
  const OverriddenKeys: set<string> :=
    {"govalue", "isIndexed", "drops", "expiration_date", "domain_age"}

  /** `completednsData.drops || 0`. */
  function Drops(completeDns: Record): Value
  {
    var d := Get(completeDns, "drops");
    if Falsy(d) then Num(0) else d
  }

  /** `hostIoData.domains || []`, `None` when the read throws. */
  function Redirects(hostIo: HostIoBody): Option<seq<string>>
  {
    match hostIo
    case NullBody => None
    case HostIoObject(None) => Some([])
    case HostIoObject(Some(ds)) => Some(ds)
  }

  /** The branch of `handleSubmit` after all six bodies are decoded.
      Reading `whoisData.result.creation_date` throws when the WHOIS payload
      has no `result`, before anything is stored; the handler's `catch` then
      takes over, which is `None` here. The redirect list is read only after
      the record is stored. `formatDate` is the locale date formatter, taken
      as given. */
  function MergePayloads(p: Payloads, nowMillis: int, formatDate: Value -> string): (r: Option<Merged>)
    ensures r.Some? <==> p.whoisResult.Some?
    ensures r.Some? ==> r.value.data.Keys == p.domDetailer.Keys + OverriddenKeys
    ensures r.Some? ==> forall k :: k in p.domDetailer && k !in OverriddenKeys ==>
      r.value.data[k] == p.domDetailer[k]
    ensures r.Some? ==> r.value.data["govalue"] == Get(p.goDaddy, "govalue")
    ensures r.Some? ==> r.value.data["isIndexed"] == Get(p.isIndexed, "isIndexed")
    ensures r.Some? && Falsy(Get(p.completeDns, "drops")) ==> r.value.data["drops"] == Num(0)
    ensures r.Some? && !Falsy(Get(p.completeDns, "drops")) ==>
      r.value.data["drops"] == Get(p.completeDns, "drops")
    ensures r.Some? ==> r.value.data["expiration_date"] == Str(formatDate(p.whoisResult.value.expirationDate))
    ensures r.Some? ==>
      r.value.data["domain_age"] == Str(DomainAge.DomainAgeText(p.whoisResult.value.creationMillis, nowMillis))
    ensures r.Some? ==> (r.value.redirects.None? <==> p.hostIo.NullBody?)
    ensures r.Some? && p.hostIo == HostIoObject(None) ==> r.value.redirects == Some([])
    ensures r.Some? && p.hostIo.HostIoObject? && p.hostIo.domains.Some? ==>
      r.value.redirects == p.hostIo.domains
  {
    match p.whoisResult
    case None => None
    case Some(w) =>
      var data := p.domDetailer
        ["govalue" := Get(p.goDaddy, "govalue")]
        ["isIndexed" := Get(p.isIndexed, "isIndexed")]
        ["drops" := Drops(p.completeDns)]
        ["expiration_date" := Str(formatDate(w.expirationDate))]
        ["domain_age" := Str(DomainAge.DomainAgeText(w.creationMillis, nowMillis))];
      Some(Merged(data, Redirects(p.hostIo)))
  }

  /** The merged record never holds `null`/`undefined` for drops, expiration
      date or age, so those cards always show a value. */
  lemma MergedFieldsPresent(p: Payloads, nowMillis: int, formatDate: Value -> string)
    requires p.whoisResult.Some?
    ensures var m := MergePayloads(p, nowMillis, formatDate).value;
      && !Nullish(Get(m.data, "drops"))
      && !Nullish(Get(m.data, "expiration_date"))
      && !Nullish(Get(m.data, "domain_age"))
  {
  }
}
