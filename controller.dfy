/**
 * The webhook controller: the external-dns endpoints of the HTTP API, their
 * conversion to and from the endpoints the pfSense service stores, and the
 * four webhook operations (negotiate, list, apply, adjust).
 */
module Controller {
  import opened Wrappers
  import opened Types
  import opened Pfsense

  /** A provider-specific property of the API; both parts may be absent. */
  datatype ProviderSpecificProperty = ProviderSpecificProperty(name: Option<string>, value: Option<string>)

  /** An endpoint as external-dns sends and receives it; the scalar fields may be absent. */
  datatype ApiEndpoint = ApiEndpoint(
    dnsName: Option<string>,
    targets: Option<seq<string>>,
    recordType: Option<string>,
    labels: map<string, string>,
    providerSpecific: seq<ProviderSpecificProperty>)

  /** The body of a set-records request; each list may be absent. */
  datatype Changes = Changes(
    create: Option<seq<ApiEndpoint>>,
    updateOld: Option<seq<ApiEndpoint>>,
    updateNew: Option<seq<ApiEndpoint>>,
    delete: Option<seq<ApiEndpoint>>)

  /**
   * The controller's view of a service endpoint: the stored fields together
   * with the provider-specific properties as a map. The service itself has no
   * place for the properties and never sees them.
   */
  datatype UnboundRecord = UnboundRecord(endpoint: Endpoint, providerSpecific: map<string, string>)

  /** The answer to a successful set-records request (HTTP 204). */
  datatype SetRecordsResponse = NoContent

  // ---------------------------------------------------------------------------
  // Provider-specific properties, list to map

  /** A property `toProviderSpecificMap` keeps: both name and value present and non-empty. */
  predicate Kept(p: ProviderSpecificProperty) {
    p.name.Some? && p.name.value != "" && p.value.Some? && p.value.value != ""
  }

  /** A kept property with name `k`. */
  predicate Carries(p: ProviderSpecificProperty, k: string) {
    Kept(p) && p.name.value == k
  }

  /** The map the loop of `toProviderSpecificMap` holds after the given properties. */
  function ProviderSpecificMap(values: seq<ProviderSpecificProperty>): (m: map<string, string>)
    ensures forall k | k in m :: k != "" && m[k] != ""
  {
    if values == [] then map[]
    else
      var v := values[|values| - 1];
      var before := ProviderSpecificMap(values[..|values| - 1]);
      if Kept(v) then before[v.name.value := v.value.value] else before
  }

  /** Position of the last kept property named `k`, or -1. */
  function LastCarrier(values: seq<ProviderSpecificProperty>, k: string): (i: int)
    ensures -1 <= i < |values|
    ensures i >= 0 ==> Carries(values[i], k)
    ensures forall j | i < j < |values| :: !Carries(values[j], k)
  {
    if values == [] then -1
    else if Carries(values[|values| - 1], k) then |values| - 1
    else LastCarrier(values[..|values| - 1], k)
  }

  /**
   * A name is in the map exactly when some kept property has it, and it maps
   * to the value of the last such property: later duplicates win.
   */
  lemma {:induction false} ProviderSpecificMapMeaning(values: seq<ProviderSpecificProperty>, k: string)
    ensures k in ProviderSpecificMap(values) <==> LastCarrier(values, k) >= 0
    ensures k in ProviderSpecificMap(values) ==>
      ProviderSpecificMap(values)[k] == values[LastCarrier(values, k)].value.value
  {
    if values != [] {
      var init := values[..|values| - 1];
      ProviderSpecificMapMeaning(init, k);
      assert forall j | 0 <= j < |init| :: init[j] == values[j];
    }
  }

  /** toProviderSpecificMap: one pass over the properties, filling a map. */
  method ToProviderSpecificMap(values: seq<ProviderSpecificProperty>) returns (result: map<string, string>)
    ensures result == ProviderSpecificMap(values)
  {
    result := map[];
    var i := 0;
    while i < |values|
      invariant 0 <= i <= |values|
      invariant result == ProviderSpecificMap(values[..i])
    {
      var v := values[i];
      assert values[..i + 1][..i] == values[..i];
      if v.name.Some? && v.name.value != "" && v.value.Some? && v.value.value != "" {
        result := result[v.name.value := v.value.value];
      }
      i := i + 1;
    }
    assert values[..i] == values;
  }

  // ---------------------------------------------------------------------------
  // Provider-specific properties, map to list

  /**
   * What `fromProviderSpecificMap` promises: one property per entry of `m`,
   * with its name and value, each name once, in some order.
   */
  predicate Lists(props: seq<ProviderSpecificProperty>, m: map<string, string>) {
    |props| == |m|
    && (forall i | 0 <= i < |props| ::
          props[i].name.Some? && props[i].value.Some?
          && props[i].name.value in m && m[props[i].name.value] == props[i].value.value)
    && (forall k | k in m :: exists i | 0 <= i < |props| :: props[i].name == Some(k))
    && (forall i, j | 0 <= i < j < |props| :: props[i].name != props[j].name)
  }

  /** fromProviderSpecificMap: the entries of the map, in the map's iteration order. */
  method FromProviderSpecificMap(values: map<string, string>) returns (result: seq<ProviderSpecificProperty>)
    ensures Lists(result, values)
  {
    result := [];
    var remaining := values.Keys;
    while remaining != {}
      invariant remaining <= values.Keys
      invariant |result| + |remaining| == |values.Keys|
      invariant forall i | 0 <= i < |result| ::
        result[i].name.Some? && result[i].value.Some?
        && result[i].name.value in values.Keys - remaining
        && values[result[i].name.value] == result[i].value.value
      invariant forall k | k in values.Keys - remaining :: exists i | 0 <= i < |result| :: result[i].name == Some(k)
      invariant forall i, j | 0 <= i < j < |result| :: result[i].name != result[j].name
      decreases |remaining|
    {
      var k :| k in remaining;
      ghost var before := result;
      result := result + [ProviderSpecificProperty(Some(k), Some(values[k]))];
      assert forall i | 0 <= i < |before| :: result[i] == before[i];
      assert result[|before|].name == Some(k);
      remaining := remaining - {k};
    }
    assert values.Keys - remaining == values.Keys;
  }

  /**
   * Listing a map and collecting the list again gives the map back exactly
   * when none of its names and values is empty.
   */
  lemma ListedCollectsBack(props: seq<ProviderSpecificProperty>, m: map<string, string>)
    requires Lists(props, m)
    ensures ProviderSpecificMap(props) == m <==> forall k | k in m :: k != "" && m[k] != ""
  {
    var collected := ProviderSpecificMap(props);
    if forall k | k in m :: k != "" && m[k] != "" {
      forall k | k in m ensures k in collected && collected[k] == m[k] {
        var i :| 0 <= i < |props| && props[i].name == Some(k);
        assert Carries(props[i], k);
        ProviderSpecificMapMeaning(props, k);
        var last := LastCarrier(props, k);
        assert props[last].name == props[i].name;
      }
      forall k | k in collected ensures k in m {
        ProviderSpecificMapMeaning(props, k);
      }
      assert collected.Keys == m.Keys;
    }
  }

  // ---------------------------------------------------------------------------
  // Endpoint conversions

  /** asUnboundEndpoint: absent fields take their zero value; it never fails. */
  function AsUnboundEndpoint(e: ApiEndpoint): (r: UnboundRecord)
    ensures e.dnsName.Some? ==> r.endpoint.dnsName == e.dnsName.value
    ensures e.dnsName.None? ==> r.endpoint.dnsName == ""
    ensures e.targets.Some? ==> r.endpoint.targets == e.targets.value
    ensures e.targets.None? ==> r.endpoint.targets == []
    ensures e.recordType.Some? ==> r.endpoint.recordType == e.recordType.value
    ensures e.recordType.None? ==> r.endpoint.recordType == ""
    ensures r.endpoint.labels == e.labels
    ensures r.providerSpecific == ProviderSpecificMap(e.providerSpecific)
    ensures forall k | k in r.providerSpecific :: k != "" && r.providerSpecific[k] != ""
  {
    UnboundRecord(
      Endpoint(
        if e.dnsName.Some? then e.dnsName.value else "",
        if e.targets.Some? then e.targets.value else [],
        e.labels,
        if e.recordType.Some? then e.recordType.value else ""),
      ProviderSpecificMap(e.providerSpecific))
  }

  /** What `asExternalDNSEndpoint` promises: every field present, the properties listed. */
  predicate Shows(x: ApiEndpoint, r: UnboundRecord) {
    x.dnsName == Some(r.endpoint.dnsName)
    && x.targets == Some(r.endpoint.targets)
    && x.recordType == Some(r.endpoint.recordType)
    && x.labels == r.endpoint.labels
    && Lists(x.providerSpecific, r.providerSpecific)
  }

  /** asExternalDNSEndpoint: all fields set from the record; it never fails. */
  method AsExternalDnsEndpoint(r: UnboundRecord) returns (x: ApiEndpoint)
    ensures Shows(x, r)
  {
    var props := FromProviderSpecificMap(r.providerSpecific);
    x := ApiEndpoint(Some(r.endpoint.dnsName), Some(r.endpoint.targets), Some(r.endpoint.recordType),
                     r.endpoint.labels, props);
  }

  /**
   * An endpoint shown to external-dns and sent back reads as the same stored
   * endpoint, and keeps its properties unless one of them is empty.
   */
  lemma ShownReadsBack(x: ApiEndpoint, r: UnboundRecord)
    requires Shows(x, r)
    ensures AsUnboundEndpoint(x).endpoint == r.endpoint
    ensures AsUnboundEndpoint(x) == r <==> forall k | k in r.providerSpecific :: k != "" && r.providerSpecific[k] != ""
  {
    ListedCollectsBack(x.providerSpecific, r.providerSpecific);
  }

  /** A request list as the service sees it; an absent list is empty. */
  function UnboundEndpoints(list: Option<seq<ApiEndpoint>>): (es: seq<Endpoint>)
    ensures list.None? ==> es == []
    ensures list.Some? ==>
      |es| == |list.value| && forall i | 0 <= i < |es| :: es[i] == AsUnboundEndpoint(list.value[i]).endpoint
  {
    if list.None? then []
    else seq(|list.value|, i requires 0 <= i < |list.value| => AsUnboundEndpoint(list.value[i]).endpoint)
  }

  // ---------------------------------------------------------------------------
  // The webhook operations

  /** Negotiate: the provider asks external-dns for no domain filter. */
  function Negotiate(): (filters: seq<string>)
    ensures |filters| == 0
  {
    []
  }

  /** AdjustRecords: the records are accepted as they are. */
  function AdjustRecords(body: seq<ApiEndpoint>): (adjusted: seq<ApiEndpoint>)
    ensures |adjusted| == |body|
    ensures forall i | 0 <= i < |body| :: adjusted[i] == body[i]
  {
    body
  }

  /** The listed endpoints shown one by one, in order; a stored endpoint has no properties. */
  method ShowAll(endpoints: seq<Endpoint>) returns (shown: seq<ApiEndpoint>)
    ensures |shown| == |endpoints|
    ensures forall j | 0 <= j < |endpoints| :: Shows(shown[j], UnboundRecord(endpoints[j], map[]))
  {
    shown := [];
    var i := 0;
    while i < |endpoints|
      invariant 0 <= i <= |endpoints|
      invariant |shown| == i
      invariant forall j | 0 <= j < i :: Shows(shown[j], UnboundRecord(endpoints[j], map[]))
    {
      var x := AsExternalDnsEndpoint(UnboundRecord(endpoints[i], map[]));
      shown := shown + [x];
      i := i + 1;
    }
  }

  class WebhookController {
    const service: PfsenseService

    constructor(service: PfsenseService)
      ensures this.service == service
    {
      this.service := service;
    }

    /**
     * SetRecords: the creates, the new side of the updates and the deletes go to
     * ApplyChanges; the old side of the updates is not used.
     */
    method SetRecords(body: Changes) returns (r: Result<SetRecordsResponse, Error>)
      modifies service.client
      ensures var p := ApplyPlan(service.client.remote, old(service.client.trace), service.dryRun,
                                 UnboundEndpoints(body.create), UnboundEndpoints(body.updateNew),
                                 UnboundEndpoints(body.delete));
        service.client.trace == old(service.client.trace) + p.calls
        && (p.result.Success? ==> r == Success(NoContent))
        && (p.result.Failure? ==> r == Failure(ApplyFailed(p.result.error)))
    {
      var hostsToCreate: seq<Endpoint> := [];
      var hostsToUpdate: seq<Endpoint> := [];
      var hostsToDelete: seq<Endpoint> := [];
      if body.create.Some? {
        hostsToCreate := UnboundEndpoints(body.create);
      }
      if body.updateNew.Some? {
        hostsToUpdate := UnboundEndpoints(body.updateNew);
      }
      if body.delete.Some? {
        hostsToDelete := UnboundEndpoints(body.delete);
      }
      var applied := service.ApplyChanges(hostsToCreate, hostsToUpdate, hostsToDelete);
      if applied.Failure? {
        return Failure(ApplyFailed(applied.error));
      }
      return Success(NoContent);
    }

    /** GetRecords: every listed endpoint, in order, shown to external-dns. */
    method GetRecords() returns (r: Result<seq<ApiEndpoint>, Error>)
      modifies service.client
      ensures var p := ListPlan(service.client.remote, old(service.client.trace));
        service.client.trace == old(service.client.trace) + p.calls
        && (p.result.Failure? ==> r == Failure(ListFailed(p.result.error)))
        && (p.result.Success? ==>
              r.Success? && |r.value| == |p.result.value|
              && forall i | 0 <= i < |r.value| :: Shows(r.value[i], UnboundRecord(p.result.value[i], map[])))
    {
      var listed := service.ListEndpoints();
      if listed.Failure? {
        return Failure(ListFailed(listed.error));
      }
      var shown := ShowAll(listed.value);
      return Success(shown);
    }
  }
}
