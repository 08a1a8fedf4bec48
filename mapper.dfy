/**
 * Conversion between an endpoint and the host override that stores it
 * (`endpointToHost`, `hostToEndpoint`).
 */
module Mapper {
  import opened Wrappers
  import opened Types
  import opened Names
  import opened Codec

  /** The address written for records that have none (TXT records). */
  const PlaceholderIp := "127.0.0.1"

  predicate Supported(recordType: string) {
    recordType == "A" || recordType == "TXT"
  }

  /** A description that `hostToEndpoint` tries to read as JSON. */
  predicate IsDescription(descr: string) {
    descr != "" && descr[0] == '{'
  }

  /**
   * endpointToHost: the record type is checked first, then the name, then the
   * number of targets of an A record.
   */
  function EndpointToHost(e: Endpoint): (r: Result<Host, Error>)
    ensures !Supported(e.recordType) ==> r == Failure(UnsupportedRecordType(e.recordType))
    ensures Supported(e.recordType) && ExplodeHostName(e.dnsName).Failure? ==>
      r == Failure(ExplodeFailed(e.dnsName, NameWithoutDot([e.dnsName])))
    ensures Supported(e.recordType) && ExplodeHostName(e.dnsName).Success?
            && e.recordType == "A" && |e.targets| != 1 ==>
      r == Failure(TargetCount(e.targets, e.dnsName))
    ensures r.Success? <==>
      Supported(e.recordType) && '.' in e.dnsName && (e.recordType == "A" ==> |e.targets| == 1)
    ensures r.Success? ==>
      (r.value.host, r.value.domain) == ExplodeHostName(e.dnsName).value
      && r.value.ip == (if e.recordType == "A" then e.targets[0] else PlaceholderIp)
      && r.value.descr == Encode(e)
      && r.value.aliases == ""
  {
    if !Supported(e.recordType) then Failure(UnsupportedRecordType(e.recordType))
    else
      match ExplodeHostName(e.dnsName)
      case Failure(cause) => Failure(ExplodeFailed(e.dnsName, cause))
      case Success((hostname, domain)) =>
        if e.recordType == "A" && |e.targets| != 1 then Failure(TargetCount(e.targets, e.dnsName))
        else
          var ip := if e.recordType == "A" then e.targets[0] else PlaceholderIp;
          Success(Host(hostname, domain, ip, Encode(e), ""))
  }

  /**
   * hostToEndpoint: the name always comes from host and domain; a JSON
   * description supplies targets, labels and (when not empty) the record type.
   */
  function HostToEndpoint(h: Host): (r: Result<Endpoint, Error>)
    ensures r.Failure? <==> '.' in h.host || (IsDescription(h.descr) && Decode(h.descr).Failure?)
    ensures r.Success? ==> r.value.dnsName == BuildDnsName(h.host, h.domain).value
    ensures r.Success? && !IsDescription(h.descr) ==>
      r.value.targets == [h.ip] && r.value.labels == map[] && r.value.recordType == "A"
    ensures r.Success? && IsDescription(h.descr) ==>
      var d := Decode(h.descr).value;
      r.value.targets == d.targets && r.value.labels == d.labels
      && r.value.recordType == (if d.recordType != "" then d.recordType else "A")
  {
    match BuildDnsName(h.host, h.domain)
    case Failure(cause) => Failure(BuildNameFailed(h, cause))
    case Success(dnsName) =>
      if IsDescription(h.descr) then
        match Decode(h.descr)
        case Failure(message) => Failure(BadDescription(h.descr, message))
        case Success(d) =>
          Success(Endpoint(dnsName, d.targets, d.labels, if d.recordType != "" then d.recordType else "A"))
      else Success(Endpoint(dnsName, [h.ip], map[], "A"))
  }

  /**
   * A stored endpoint reads back as itself exactly when its name survives
   * being split and joined again.
   */
  lemma HostRoundTrip(e: Endpoint)
    requires EndpointToHost(e).Success?
    ensures HostToEndpoint(EndpointToHost(e).value) == Success(e) <==> RoundTrips(e.dnsName)
  {
    var h := EndpointToHost(e).value;
    JoinExplode(e.dnsName);
    DecodeEncode(e);
    assert IsDescription(h.descr);
  }

  /** The host override written for an endpoint is always read back without error. */
  lemma StoredHostReads(e: Endpoint)
    requires EndpointToHost(e).Success?
    ensures HostToEndpoint(EndpointToHost(e).value).Success?
  {
    var h := EndpointToHost(e).value;
    var dots := Count(e.dnsName, '.');
    assert dots >= 1;
    assert '.' !in h.host;
    DecodeEncode(e);
  }
}
