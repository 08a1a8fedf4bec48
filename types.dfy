/**
 * The records the pfSense webhook moves around: the endpoint it stores in
 * Unbound, the host override entry pfSense keeps for it, the Unbound section
 * of the pfSense configuration, and the errors of the service and controller.
 */
module Types {

  /**
   * One DNS record as this provider stores it (`UnboundEndpoint`). A Go nil
   * slice or map and an empty one are the same value here.
   */
  datatype Endpoint = Endpoint(
    dnsName: string,
    targets: seq<string>,
    labels: map<string, string>,
    recordType: string)

  /** One host override of the Unbound resolver (`host`). */
  datatype Host = Host(host: string, domain: string, ip: string, descr: string, aliases: string)

  datatype AclRow = AclRow(aclNetwork: string, mask: string, description: string)

  datatype Acl = Acl(aclid: string, aclname: string, aclaction: string, description: string, rows: seq<AclRow>)

  /**
   * The `unbound` configuration section. Its scalar settings (enable, dnssec,
   * port, cache sizes and the rest) are carried by their XML element name.
   */
  datatype UnboundSection = UnboundSection(hosts: seq<Host>, acls: seq<Acl>, settings: map<string, string>)

  /** The section a reply without one decodes to: every field at its zero value. */
  const EmptySection := UnboundSection([], [], map[])

  datatype Error =
    // explodeHostName: the name has no dot, and so no domain part
    | NameWithoutDot(parts: seq<string>)
    // buildDNSName: the host part itself contains a dot
    | HostWithDot(parts: seq<string>)
    // endpointToHost
    | UnsupportedRecordType(recordType: string)
    | ExplodeFailed(dnsName: string, cause: Error)
    | TargetCount(targets: seq<string>, dnsName: string)
    // hostToEndpoint
    | BuildNameFailed(host: Host, cause: Error)
    | BadDescription(descr: string, message: string)
    // ApplyChanges and ListEndpoints
    | ConvertUpdateFailed(endpoint: Endpoint, cause: Error)
    | ConvertCreatesFailed(cause: Error)
    | FetchFailed(cause: Error)
    | MapHostsFailed(cause: Error)
    | SaveFailed(cause: Error)
    // remote calls
    | CallFailed(procedure: string, fault: string)
    | ExecFailed(cause: Error)
    | ExecRejected
    | RestoreRejected
    | ConfigureUnboundFailed
    | ConfigureDhcpdFailed
    // controller
    | ListFailed(cause: Error)
    | ApplyFailed(cause: Error)
}
