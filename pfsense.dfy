/**
 * The pfSense service: the remote procedure calls it issues over XML-RPC and
 * the order in which `ApplyChanges` and `ListEndpoints` issue them.
 *
 * The remote is a function from the calls made so far and the next call to
 * its reply; a `Client` records every call in `trace`. For each operation a
 * plan function states which calls are made and what is returned; the
 * methods are proved to follow their plan.
 */
module Pfsense {
  import opened Wrappers
  import opened Types
  import opened Mapper
  import opened Reconciliation
  import Names

  /** The configuration section the service reads and writes. */
  const UnboundConfigSection := "unbound"
  /** Seconds pfSense is given to restore a section. */
  const RestoreTimeout := 30
  const ConfigureUnbound := "$toreturn = services_unbound_configure(false);"
  const ConfigureDhcpd := "$toreturn = services_dhcpd_configure();"

  datatype RpcCall =
    | BackupConfigSection(sections: seq<string>)
    | RestoreConfigSection(restored: map<string, UnboundSection>, timeout: int)
    | ExecPhp(code: string)

  /** `pfsense.backup_config_section` for the Unbound section. */
  const Backup := BackupConfigSection([UnboundConfigSection])

  function Restore(section: UnboundSection): RpcCall {
    RestoreConfigSection(map[UnboundConfigSection := section], RestoreTimeout)
  }

  /** A reply: a fault, or a response that decodes to a section or to a success flag. */
  datatype Reply =
    | Fault(message: string)
    | SectionReply(section: UnboundSection)
    | ResultReply(success: bool)

  /** The section a response decodes to; a response without one leaves the zero section. */
  function SectionOf(r: Reply): UnboundSection {
    if r.SectionReply? then r.section else EmptySection
  }

  /** The `Success` flag a response decodes to; a response without one leaves `false`. */
  function SuccessOf(r: Reply): bool {
    r.ResultReply? && r.success
  }

  /** The remote end: the reply to a call given the calls made before it. */
  type Remote = (seq<RpcCall>, RpcCall) -> Reply

  /** The calls an operation makes, in order, and what it returns. */
  datatype Plan<T> = Plan(calls: seq<RpcCall>, result: Result<T, Error>)

  /** The operation makes no further call after one that failed. */
  predicate Succeeded(call: RpcCall, reply: Reply) {
    !reply.Fault? && (call.BackupConfigSection? || SuccessOf(reply))
  }

  /** Every call of `calls` made after `history`, except possibly the last, succeeded. */
  predicate StopsAtFailure(remote: Remote, history: seq<RpcCall>, calls: seq<RpcCall>) {
    forall i | 0 <= i < |calls| - 1 :: Succeeded(calls[i], remote(history + calls[..i], calls[i]))
  }

  /** The last call of `calls`, made after `history` and the calls before it, failed. */
  predicate LastFailed(remote: Remote, history: seq<RpcCall>, calls: seq<RpcCall>) {
    calls != [] &&
    !Succeeded(calls[|calls| - 1], remote(history + calls[..|calls| - 1], calls[|calls| - 1]))
  }

  /** The remote accepts each of `calls` in turn, starting after `history`. */
  predicate AllSucceed(remote: Remote, history: seq<RpcCall>, calls: seq<RpcCall>) {
    forall i | 0 <= i < |calls| :: Succeeded(calls[i], remote(history + calls[..i], calls[i]))
  }

  // ---------------------------------------------------------------------------
  // Plans

  /** fetchUnboundSection: one backup call. */
  function FetchPlan(remote: Remote, history: seq<RpcCall>): (p: Plan<UnboundSection>)
    ensures p.calls == [Backup]
    ensures p.result.Failure? <==> remote(history, Backup).Fault?
    ensures p.result.Success? ==> p.result.value == SectionOf(remote(history, Backup))
  {
    var reply := remote(history, Backup);
    if reply.Fault? then Plan([Backup], Failure(CallFailed("backup_config_section", reply.message)))
    else Plan([Backup], Success(SectionOf(reply)))
  }

  /** execPhp: one call; a fault or a `false` flag is an error. */
  function ExecPlan(remote: Remote, history: seq<RpcCall>, code: string): (p: Plan<()>)
    ensures p.calls == [ExecPhp(code)]
    ensures p.result.Success? <==> Succeeded(ExecPhp(code), remote(history, ExecPhp(code)))
  {
    var reply := remote(history, ExecPhp(code));
    if reply.Fault? then Plan([ExecPhp(code)], Failure(ExecFailed(CallFailed("exec_php", reply.message))))
    else if !SuccessOf(reply) then Plan([ExecPhp(code)], Failure(ExecRejected))
    else Plan([ExecPhp(code)], Success(()))
  }

  /** The calls that write a section back, in the order `saveUnboundSection` makes them. */
  function WriteSequence(section: UnboundSection): seq<RpcCall> {
    [Restore(section), ExecPhp(ConfigureUnbound), ExecPhp(ConfigureDhcpd)]
  }

  /** saveUnboundSection: restore, then configure Unbound, then configure dhcpd. */
  function SavePlan(remote: Remote, history: seq<RpcCall>, section: UnboundSection): (p: Plan<()>)
    ensures 1 <= |p.calls| <= 3 && p.calls == WriteSequence(section)[..|p.calls|]
    ensures StopsAtFailure(remote, history, p.calls)
    ensures |p.calls| < 3 ==> LastFailed(remote, history, p.calls)
    ensures p.result.Success? <==>
      |p.calls| == 3 && Succeeded(p.calls[2], remote(history + p.calls[..2], p.calls[2]))
  {
    var restore := Restore(section);
    var reply := remote(history, restore);
    assert [restore][..0] == [] && history + [] == history;
    if reply.Fault? then Plan([restore], Failure(CallFailed("restore_config_section", reply.message)))
    else if !SuccessOf(reply) then Plan([restore], Failure(RestoreRejected))
    else
      var unbound := ExecPlan(remote, history + [restore], ConfigureUnbound);
      var calls := [restore] + unbound.calls;
      assert calls[..0] == [] && history + [] == history;
      assert calls[..1] == [restore];
      assert calls == WriteSequence(section)[..2];
      if unbound.result.Failure? then Plan(calls, Failure(ConfigureUnboundFailed))
      else
        var dhcpd := ExecPlan(remote, history + calls, ConfigureDhcpd);
        var all := calls + dhcpd.calls;
        assert all[..0] == [] && all[..1] == [restore] && all[..2] == calls;
        assert all == WriteSequence(section);
        var result: Result<(), Error> := if dhcpd.result.Failure? then Failure(ConfigureDhcpdFailed) else Success(());
        Plan(all, result)
  }

  /** The section `ApplyChanges` writes back: the one fetched, with only its hosts replaced. */
  function Written(fetched: UnboundSection, hosts: seq<Host>): (s: UnboundSection)
    ensures s.hosts == hosts && s.acls == fetched.acls && s.settings == fetched.settings
  {
    fetched.(hosts := hosts)
  }

  /** No created, updated or deleted endpoints: `ApplyChanges` has nothing to do. */
  predicate NoChanges(toCreate: seq<Endpoint>, toUpdate: seq<Endpoint>, toDelete: seq<Endpoint>) {
    toCreate == [] && toUpdate == [] && toDelete == []
  }

  /** ApplyChanges: fetch, reconcile, and (unless in dry run) write back. */
  function ApplyPlan(remote: Remote, history: seq<RpcCall>, dryRun: bool,
                     toCreate: seq<Endpoint>, toUpdate: seq<Endpoint>, toDelete: seq<Endpoint>): (p: Plan<()>)
    ensures NoChanges(toCreate, toUpdate, toDelete) ==> p.calls == [] && p.result.Success?
    ensures !NoChanges(toCreate, toUpdate, toDelete) ==> 1 <= |p.calls| <= 4 && p.calls[0] == Backup
    ensures remote(history, Backup).Fault? && !NoChanges(toCreate, toUpdate, toDelete) ==>
      p.calls == [Backup] && p.result.Failure?
    ensures dryRun ==> |p.calls| <= 1
    ensures |p.calls| > 1 ==>
      var fetched := SectionOf(remote(history, Backup));
      var hosts := Reconcile(fetched.hosts, toCreate, toUpdate, toDelete);
      hosts.Success? && p.calls[1..] == WriteSequence(Written(fetched, hosts.value))[..|p.calls| - 1]
    ensures !NoChanges(toCreate, toUpdate, toDelete) && !remote(history, Backup).Fault? && !dryRun
            && Reconcile(SectionOf(remote(history, Backup)).hosts, toCreate, toUpdate, toDelete).Success? ==>
      |p.calls| >= 2
    ensures StopsAtFailure(remote, history, p.calls)
    ensures 2 <= |p.calls| < 4 ==> LastFailed(remote, history, p.calls)
  {
    if NoChanges(toCreate, toUpdate, toDelete) then Plan([], Success(()))
    else
      var fetch := FetchPlan(remote, history);
      if fetch.result.Failure? then Plan(fetch.calls, Failure(FetchFailed(fetch.result.error)))
      else
        match Reconcile(fetch.result.value.hosts, toCreate, toUpdate, toDelete)
        case Failure(e) => Plan(fetch.calls, Failure(e))
        case Success(hosts) =>
          if dryRun then Plan(fetch.calls, Success(()))
          else
            var save := SavePlan(remote, history + fetch.calls, Written(fetch.result.value, hosts));
            SaveAfterFetch(remote, history, save.calls);
            FailedAfterFetch(remote, history, save.calls);
            var result: Result<(), Error> := if save.result.Failure? then Failure(SaveFailed(save.result.error)) else Success(());
            Plan(fetch.calls + save.calls, result)
  }

  /** StopsAtFailure carries over from the write-back calls to the whole call sequence. */
  lemma SaveAfterFetch(remote: Remote, history: seq<RpcCall>, save: seq<RpcCall>)
    requires Succeeded(Backup, remote(history, Backup))
    requires StopsAtFailure(remote, history + [Backup], save)
    ensures StopsAtFailure(remote, history, [Backup] + save)
  {
    var calls := [Backup] + save;
    forall i | 0 <= i < |calls| - 1
      ensures Succeeded(calls[i], remote(history + calls[..i], calls[i]))
    {
      if i == 0 {
        assert calls[..0] == [];
        assert history + [] == history;
      } else {
        assert calls[i] == save[i - 1];
        assert history + calls[..i] == (history + [Backup]) + save[..i - 1];
      }
    }
  }

  /** LastFailed carries over from the write-back calls to the whole call sequence. */
  lemma FailedAfterFetch(remote: Remote, history: seq<RpcCall>, save: seq<RpcCall>)
    requires save != []
    ensures LastFailed(remote, history + [Backup], save) ==> LastFailed(remote, history, [Backup] + save)
  {
    var calls := [Backup] + save;
    assert calls[|calls| - 1] == save[|save| - 1];
    assert calls[..|calls| - 1] == [Backup] + save[..|save| - 1];
    assert history + calls[..|calls| - 1] == (history + [Backup]) + save[..|save| - 1];
  }

  /**
   * saveUnboundSection succeeds exactly when the remote accepts the restore,
   * the Unbound reconfiguration and the dhcpd reconfiguration, in turn.
   */
  lemma SaveSucceeds(remote: Remote, history: seq<RpcCall>, section: UnboundSection)
    ensures SavePlan(remote, history, section).result.Success? <==>
      AllSucceed(remote, history, WriteSequence(section))
  {
    var p := SavePlan(remote, history, section);
    var ws := WriteSequence(section);
    var n := |p.calls|;
    assert p.calls == ws[..n];
    if n < 3 {
      assert p.calls[..n - 1] == ws[..n - 1];
      assert p.calls[n - 1] == ws[n - 1];
    } else {
      assert p.calls == ws;
    }
  }

  /**
   * ApplyChanges succeeds exactly when there is nothing to do, or the fetch and
   * the reconciliation succeed and either dry run is on or the remote accepts
   * each write-back call of the reconciled section in turn.
   */
  lemma ApplySucceeds(remote: Remote, history: seq<RpcCall>, dryRun: bool,
                      toCreate: seq<Endpoint>, toUpdate: seq<Endpoint>, toDelete: seq<Endpoint>)
    ensures var p := ApplyPlan(remote, history, dryRun, toCreate, toUpdate, toDelete);
      var fetched := SectionOf(remote(history, Backup));
      var hosts := Reconcile(fetched.hosts, toCreate, toUpdate, toDelete);
      p.result.Success? <==>
        NoChanges(toCreate, toUpdate, toDelete)
        || (!remote(history, Backup).Fault? && hosts.Success?
            && (dryRun || AllSucceed(remote, history + [Backup], WriteSequence(Written(fetched, hosts.value)))))
  {
    if !NoChanges(toCreate, toUpdate, toDelete) && !remote(history, Backup).Fault? && !dryRun {
      var fetched := SectionOf(remote(history, Backup));
      var hosts := Reconcile(fetched.hosts, toCreate, toUpdate, toDelete);
      if hosts.Success? {
        SaveSucceeds(remote, history + [Backup], Written(fetched, hosts.value));
      }
    }
  }

  /** hostToEndpoint over all fetched hosts, in order, stopping at the first error. */
  function ReadAll(hosts: seq<Host>): (r: Result<seq<Endpoint>, Error>)
    ensures r.Success? <==> forall i | 0 <= i < |hosts| :: HostToEndpoint(hosts[i]).Success?
    ensures r.Success? ==> |r.value| == |hosts|
    ensures r.Success? ==> forall i | 0 <= i < |hosts| :: r.value[i] == HostToEndpoint(hosts[i]).value
  {
    if hosts == [] then Success([])
    else
      var tail := hosts[1..];
      assert forall j | 0 <= j < |tail| :: tail[j] == hosts[j + 1];
      match HostToEndpoint(hosts[0])
      case Failure(e) => Failure(e)
      case Success(first) =>
        match ReadAll(tail)
        case Failure(e) => Failure(e)
        case Success(rest) =>
          assert forall i | 1 <= i < |hosts| :: hosts[i] == tail[i - 1];
          Success([first] + rest)
  }

  /** ListEndpoints: one backup call, then every host read back as an endpoint. */
  function ListPlan(remote: Remote, history: seq<RpcCall>): (p: Plan<seq<Endpoint>>)
    ensures p.calls == [Backup]
    ensures p.result.Success? <==>
      !remote(history, Backup).Fault? && ReadAll(SectionOf(remote(history, Backup)).hosts).Success?
    ensures p.result.Success? ==> p.result.value == ReadAll(SectionOf(remote(history, Backup)).hosts).value
  {
    var fetch := FetchPlan(remote, history);
    if fetch.result.Failure? then Plan(fetch.calls, Failure(FetchFailed(fetch.result.error)))
    else
      match ReadAll(fetch.result.value.hosts)
      case Failure(cause) => Plan(fetch.calls, Failure(MapHostsFailed(cause)))
      case Success(endpoints) => Plan(fetch.calls, Success(endpoints))
  }

  /** An endpoint the service can store and whose name survives being split and joined. */
  predicate Storable(e: Endpoint) {
    EndpointToHost(e).Success? && Names.RoundTrips(e.dnsName)
  }

  /** The host overrides written for storable endpoints read back as those endpoints. */
  lemma ReadConverted(stored: seq<Endpoint>)
    requires forall i | 0 <= i < |stored| :: Storable(stored[i])
    ensures ConvertAll(stored).Success? && ReadAll(ConvertAll(stored).value) == Success(stored)
  {
    var hosts := ConvertAll(stored).value;
    forall i | 0 <= i < |hosts| ensures HostToEndpoint(hosts[i]) == Success(stored[i]) {
      HostRoundTrip(stored[i]);
    }
    assert ReadAll(hosts).value == stored;
  }

  /** Storable endpoints this service wrote are listed back unchanged. */
  lemma ListStored(remote: Remote, history: seq<RpcCall>, stored: seq<Endpoint>)
    requires forall i | 0 <= i < |stored| :: Storable(stored[i])
    requires remote(history, Backup).SectionReply?
    requires ConvertAll(stored) == Success(remote(history, Backup).section.hosts)
    ensures ListPlan(remote, history).result == Success(stored)
  {
    ReadConverted(stored);
  }

  // ---------------------------------------------------------------------------
  // The client and the service

  /** An XML-RPC client: every call is recorded, and answered by the remote. */
  class Client {
    var trace: seq<RpcCall>
    const remote: Remote

    constructor(remote: Remote)
      ensures this.remote == remote && trace == []
    {
      this.remote := remote;
      trace := [];
    }

    method Call(call: RpcCall) returns (reply: Reply)
      modifies this
      ensures reply == remote(old(trace), call)
      ensures trace == old(trace) + [call]
    {
      reply := remote(trace, call);
      trace := trace + [call];
    }
  }

  class PfsenseService {
    const client: Client
    const dryRun: bool

    constructor(client: Client, dryRun: bool)
      ensures this.client == client && this.dryRun == dryRun
    {
      this.client := client;
      this.dryRun := dryRun;
    }

    method FetchUnboundSection() returns (r: Result<UnboundSection, Error>)
      modifies client
      ensures var p := FetchPlan(client.remote, old(client.trace));
        client.trace == old(client.trace) + p.calls && r == p.result
    {
      var reply := client.Call(BackupConfigSection([UnboundConfigSection]));
      if reply.Fault? {
        return Failure(CallFailed("backup_config_section", reply.message));
      }
      return Success(SectionOf(reply));
    }

    method ExecPhpCode(code: string) returns (r: Result<(), Error>)
      modifies client
      ensures var p := ExecPlan(client.remote, old(client.trace), code);
        client.trace == old(client.trace) + p.calls && r == p.result
    {
      var reply := client.Call(ExecPhp(code));
      if reply.Fault? {
        return Failure(ExecFailed(CallFailed("exec_php", reply.message)));
      }
      if !SuccessOf(reply) {
        return Failure(ExecRejected);
      }
      return Success(());
    }

    method SaveUnboundSection(section: UnboundSection) returns (r: Result<(), Error>)
      modifies client
      ensures var p := SavePlan(client.remote, old(client.trace), section);
        client.trace == old(client.trace) + p.calls && r == p.result
    {
      ghost var history := client.trace;
      var reply := client.Call(RestoreConfigSection(map[UnboundConfigSection := section], RestoreTimeout));
      if reply.Fault? {
        return Failure(CallFailed("restore_config_section", reply.message));
      }
      if !SuccessOf(reply) {
        return Failure(RestoreRejected);
      }
      var unbound := ExecPhpCode(ConfigureUnbound);
      ghost var calls := [Restore(section), ExecPhp(ConfigureUnbound)];
      assert client.trace == history + calls;
      if unbound.Failure? {
        return Failure(ConfigureUnboundFailed);
      }
      var dhcpd := ExecPhpCode(ConfigureDhcpd);
      assert client.trace == history + (calls + [ExecPhp(ConfigureDhcpd)]);
      assert dhcpd == ExecPlan(client.remote, history + calls, ConfigureDhcpd).result;
      assert SavePlan(client.remote, history, section).calls == calls + [ExecPhp(ConfigureDhcpd)];
      if dhcpd.Failure? {
        return Failure(ConfigureDhcpdFailed);
      }
      return Success(());
    }

    method ApplyChanges(toCreate: seq<Endpoint>, toUpdate: seq<Endpoint>, toDelete: seq<Endpoint>)
      returns (r: Result<(), Error>)
      modifies client
      ensures var p := ApplyPlan(client.remote, old(client.trace), dryRun, toCreate, toUpdate, toDelete);
        client.trace == old(client.trace) + p.calls && r == p.result
    {
      ghost var history := client.trace;
      if |toCreate| == 0 && |toUpdate| == 0 && |toDelete| == 0 {
        return Success(());
      }
      var fetched := FetchUnboundSection();
      if fetched.Failure? {
        return Failure(FetchFailed(fetched.error));
      }
      var section := fetched.value;
      var finalHosts := ReconcileHosts(section.hosts, toCreate, toUpdate, toDelete);
      if finalHosts.Failure? {
        return Failure(finalHosts.error);
      }
      section := section.(hosts := finalHosts.value);
      if dryRun {
        return Success(());
      }
      ghost var fetchedTrace := client.trace;
      var saved := SaveUnboundSection(section);
      ghost var save := SavePlan(client.remote, fetchedTrace, section);
      assert client.trace == history + ([Backup] + save.calls);
      if saved.Failure? {
        return Failure(SaveFailed(saved.error));
      }
      return Success(());
    }

    method ListEndpoints() returns (r: Result<seq<Endpoint>, Error>)
      modifies client
      ensures var p := ListPlan(client.remote, old(client.trace));
        client.trace == old(client.trace) + p.calls && r == p.result
    {
      var fetched := FetchUnboundSection();
      if fetched.Failure? {
        return Failure(FetchFailed(fetched.error));
      }
      var endpoints := ReadAll(fetched.value.hosts);
      if endpoints.Failure? {
        return Failure(MapHostsFailed(endpoints.error));
      }
      return Success(endpoints.value);
    }
  }
}
