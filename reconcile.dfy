/**
 * The host list `ApplyChanges` writes back: the fetched host overrides, each
 * dropped, replaced or kept according to the delete and update lists, followed
 * by the creates that no kept host already stood for.
 *
 * The match test is modelled as written: a host matches an endpoint when
 * building the host's DNS name FAILS and the (then empty) name equals the
 * endpoint's name. `MatchesExactly` spells out what that means.
 */
module Reconciliation {
  import opened Wrappers
  import opened Types
  import opened Names
  import opened Mapper

  /** The predicate passed to `slices.ContainsFunc` and `slices.IndexFunc`. */
  predicate Matches(h: Host, e: Endpoint) {
    var built := BuildDnsName(h.host, h.domain);
    var existingDns := if built.Success? then built.value else "";
    built.Failure? && existingDns == e.dnsName
  }

  /** A host matches only when its host part holds a dot, and then only endpoints with an empty name. */
  lemma MatchesExactly(h: Host, e: Endpoint)
    ensures Matches(h, e) <==> '.' in h.host && e.dnsName == ""
  {
  }

  /** An update that matches a host can never be converted to a host: its name is empty. */
  lemma MatchedUpdateFails(h: Host, e: Endpoint)
    requires Matches(h, e)
    ensures EndpointToHost(e).Failure?
  {
    assert '.' !in e.dnsName;
  }

  /** `slices.ContainsFunc(es, match h)`. */
  predicate AnyMatch(h: Host, es: seq<Endpoint>) {
    exists i | 0 <= i < |es| :: Matches(h, es[i])
  }

  /** `slices.IndexFunc(es, match h)`: the first matching position, or -1. */
  function IndexOfMatch(h: Host, es: seq<Endpoint>): (k: int)
    ensures -1 <= k < |es|
    ensures k == -1 <==> !AnyMatch(h, es)
    ensures k >= 0 ==> Matches(h, es[k]) && forall i | 0 <= i < k :: !Matches(h, es[i])
  {
    if es == [] then -1
    else if Matches(h, es[0]) then 0
    else
      var rest := es[1..];
      var k := IndexOfMatch(h, rest);
      assert forall i | 1 <= i < |es| :: es[i] == rest[i - 1];
      if k == -1 then -1 else k + 1
  }

  /** Maps every endpoint to a host override, in order, stopping at the first error. */
  function ConvertAll(es: seq<Endpoint>): (r: Result<seq<Host>, Error>)
    ensures r.Success? <==> forall i | 0 <= i < |es| :: EndpointToHost(es[i]).Success?
    ensures r.Success? ==> |r.value| == |es|
    ensures r.Success? ==> forall i | 0 <= i < |es| :: r.value[i] == EndpointToHost(es[i]).value
    ensures r.Failure? ==>
      exists i | 0 <= i < |es| :: EndpointToHost(es[i]) == Failure(r.error)
        && forall j | 0 <= j < i :: EndpointToHost(es[j]).Success?
  {
    if es == [] then Success([])
    else
      var tail := es[1..];
      assert forall i | 1 <= i < |es| :: es[i] == tail[i - 1];
      match EndpointToHost(es[0])
      case Failure(e) => Failure(e)
      case Success(h) =>
        var rest := ConvertAll(tail);
        if rest.Failure? then Failure(rest.error)
        else Success([h] + rest.value)
  }

  /** `creates` with position `j` spliced out. */
  function RemoveAt(creates: seq<Endpoint>, j: nat): (r: seq<Endpoint>)
    requires j < |creates|
    ensures |r| == |creates| - 1
  {
    creates[..j] + creates[j + 1..]
  }

  /** What one existing host becomes: itself, or the host made from its first matching update. */
  function Substitute(h: Host, updates: seq<Endpoint>): Result<Host, Error> {
    var k := IndexOfMatch(h, updates);
    if k == -1 then Success(h)
    else
      match EndpointToHost(updates[k])
      case Failure(cause) => Failure(ConvertUpdateFailed(updates[k], cause))
      case Success(replacement) => Success(replacement)
  }

  /** The creates left once `h` is kept: its first matching create is taken out. */
  function Consume(h: Host, creates: seq<Endpoint>): seq<Endpoint> {
    var j := IndexOfMatch(h, creates);
    if j == -1 then creates else RemoveAt(creates, j)
  }

  /** The loop over the fetched hosts: the hosts kept, and the creates still pending. */
  function ReconcileExisting(existing: seq<Host>, creates: seq<Endpoint>, updates: seq<Endpoint>, deletes: seq<Endpoint>)
    : Result<(seq<Host>, seq<Endpoint>), Error>
  {
    if existing == [] then Success(([], creates))
    else if AnyMatch(existing[0], deletes) then ReconcileExisting(existing[1..], creates, updates, deletes)
    else
      var kept :- Substitute(existing[0], updates);
      var rest :- ReconcileExisting(existing[1..], Consume(kept, creates), updates, deletes);
      Success(([kept] + rest.0, rest.1))
  }

  /** The replacement host list: the kept hosts, then the pending creates converted in order. */
  function Reconcile(existing: seq<Host>, creates: seq<Endpoint>, updates: seq<Endpoint>, deletes: seq<Endpoint>)
    : Result<seq<Host>, Error>
  {
    var pass :- ReconcileExisting(existing, creates, updates, deletes);
    var made :- match ConvertAll(pass.1)
      case Failure(cause) => Failure(ConvertCreatesFailed(cause))
      case Success(hosts) => Success(hosts);
    Success(pass.0 + made)
  }

  /** A pass over a longer list whose first hosts are already in `prefix`. */
  function Prepend(prefix: seq<Host>, r: Result<(seq<Host>, seq<Endpoint>), Error>): Result<(seq<Host>, seq<Endpoint>), Error> {
    match r
    case Success((kept, pending)) => Success((prefix + kept, pending))
    case Failure(e) => Failure(e)
  }

  lemma PrependEmpty(r: Result<(seq<Host>, seq<Endpoint>), Error>)
    ensures Prepend([], r) == r
  {
    match r {
      case Success((kept, pending)) => assert [] + kept == kept;
      case Failure(_) =>
    }
  }

  lemma PrependTwice(a: seq<Host>, b: seq<Host>, r: Result<(seq<Host>, seq<Endpoint>), Error>)
    ensures Prepend(a, Prepend(b, r)) == Prepend(a + b, r)
  {
    match r {
      case Success((kept, pending)) => assert a + (b + kept) == (a + b) + kept;
      case Failure(_) =>
    }
  }

  /** One step of the pass, for the host at position `i`. */
  lemma PassStep(existing: seq<Host>, i: nat, creates: seq<Endpoint>, updates: seq<Endpoint>, deletes: seq<Endpoint>)
    requires i < |existing|
    ensures AnyMatch(existing[i], deletes) ==>
      ReconcileExisting(existing[i..], creates, updates, deletes)
      == ReconcileExisting(existing[i + 1..], creates, updates, deletes)
    ensures !AnyMatch(existing[i], deletes) && Substitute(existing[i], updates).Failure? ==>
      ReconcileExisting(existing[i..], creates, updates, deletes)
      == Failure(Substitute(existing[i], updates).error)
    ensures !AnyMatch(existing[i], deletes) && Substitute(existing[i], updates).Success? ==>
      var kept := Substitute(existing[i], updates).value;
      ReconcileExisting(existing[i..], creates, updates, deletes)
      == Prepend([kept], ReconcileExisting(existing[i + 1..], Consume(kept, creates), updates, deletes))
  {
    assert existing[i..][0] == existing[i] && existing[i..][1..] == existing[i + 1..];
  }

  /** The update step of the loop: the first matching update replaces the host. */
  method UpdateHost(existingHost: Host, toUpdate: seq<Endpoint>) returns (r: Result<Host, Error>)
    ensures r == Substitute(existingHost, toUpdate)
    ensures r.Success? <==> !AnyMatch(existingHost, toUpdate)
    ensures r.Success? ==> r.value == existingHost
    ensures r.Failure? ==>
      var k := IndexOfMatch(existingHost, toUpdate);
      r.error.ConvertUpdateFailed? && r.error.endpoint == toUpdate[k] && toUpdate[k].dnsName == ""
  {
    var updateIndex := IndexOfMatch(existingHost, toUpdate);
    if updateIndex == -1 {
      return Success(existingHost);
    }
    match EndpointToHost(toUpdate[updateIndex]) {
      case Failure(cause) =>
        MatchesExactly(existingHost, toUpdate[updateIndex]);
        return Failure(ConvertUpdateFailed(toUpdate[updateIndex], cause));
      case Success(replacement) =>
        MatchedUpdateFails(existingHost, toUpdate[updateIndex]);
        assert false;
    }
  }

  /** The create step of the loop: the first create matching the kept host is taken out. */
  method RemoveCreate(existingHost: Host, toCreate: seq<Endpoint>) returns (creates: seq<Endpoint>)
    ensures creates == Consume(existingHost, toCreate)
    ensures !AnyMatch(existingHost, toCreate) ==> creates == toCreate
    ensures AnyMatch(existingHost, toCreate) ==>
      var j := IndexOfMatch(existingHost, toCreate);
      |creates| == |toCreate| - 1 && toCreate[j].dnsName == "" && '.' in existingHost.host
      && creates[..j] == toCreate[..j] && creates[j..] == toCreate[j + 1..]
  {
    creates := toCreate;
    var createIndex := IndexOfMatch(existingHost, creates);
    if createIndex != -1 {
      MatchesExactly(existingHost, creates[createIndex]);
      creates := creates[..createIndex] + creates[createIndex + 1..];
    }
  }

  /** The loop over the fetched hosts in `ApplyChanges`, over a local copy of the creates. */
  method PassOverHosts(existing: seq<Host>, toCreate: seq<Endpoint>, toUpdate: seq<Endpoint>, toDelete: seq<Endpoint>)
    returns (r: Result<(seq<Host>, seq<Endpoint>), Error>)
    ensures r == ReconcileExisting(existing, toCreate, toUpdate, toDelete)
  {
    var finalHosts: seq<Host> := [];
    var creates := toCreate;
    var i := 0;
    assert existing[0..] == existing;
    PrependEmpty(ReconcileExisting(existing, toCreate, toUpdate, toDelete));
    while i < |existing|
      invariant 0 <= i <= |existing|
      invariant ReconcileExisting(existing, toCreate, toUpdate, toDelete)
             == Prepend(finalHosts, ReconcileExisting(existing[i..], creates, toUpdate, toDelete))
    {
      var existingHost := existing[i];
      PassStep(existing, i, creates, toUpdate, toDelete);
      if AnyMatch(existingHost, toDelete) {
        i := i + 1;
        continue;
      }
      var updated := UpdateHost(existingHost, toUpdate);
      if updated.Failure? {
        return Failure(updated.error);
      }
      existingHost := updated.value;
      PrependTwice(finalHosts, [existingHost],
        ReconcileExisting(existing[i + 1..], Consume(existingHost, creates), toUpdate, toDelete));
      finalHosts := finalHosts + [existingHost];
      creates := RemoveCreate(existingHost, creates);
      i := i + 1;
    }
    assert existing[i..] == [];
    assert finalHosts + [] == finalHosts;
    return Success((finalHosts, creates));
  }

  /** The reconcile step of `ApplyChanges`: the pass over the fetched hosts, then the pending creates. */
  method ReconcileHosts(existing: seq<Host>, toCreate: seq<Endpoint>, toUpdate: seq<Endpoint>, toDelete: seq<Endpoint>)
    returns (r: Result<seq<Host>, Error>)
    ensures r == Reconcile(existing, toCreate, toUpdate, toDelete)
  {
    var pass := PassOverHosts(existing, toCreate, toUpdate, toDelete);
    if pass.Failure? {
      return Failure(pass.error);
    }
    var finalHosts := pass.value.0;
    var hostsToCreate := ConvertAll(pass.value.1);
    if hostsToCreate.Failure? {
      return Failure(ConvertCreatesFailed(hostsToCreate.error));
    }
    finalHosts := finalHosts + hostsToCreate.value;
    return Success(finalHosts);
  }

  // ---------------------------------------------------------------------------
  // What the loop amounts to

  /** The fetched hosts that no delete matches, in their order. */
  function Survivors(existing: seq<Host>, deletes: seq<Endpoint>): (s: seq<Host>)
    ensures |s| <= |existing|
    ensures forall i | 0 <= i < |s| :: !AnyMatch(s[i], deletes)
  {
    if existing == [] then []
    else if AnyMatch(existing[0], deletes) then Survivors(existing[1..], deletes)
    else [existing[0]] + Survivors(existing[1..], deletes)
  }

  /** The creates left after each kept host in turn has taken out its first match. */
  function Pending(kept: seq<Host>, creates: seq<Endpoint>): (p: seq<Endpoint>)
    ensures |p| <= |creates|
  {
    if kept == [] then creates else Pending(kept[1..], Consume(kept[0], creates))
  }

  /** No kept host has a matching update. */
  predicate NoUpdateMatches(kept: seq<Host>, updates: seq<Endpoint>) {
    forall i | 0 <= i < |kept| :: !AnyMatch(kept[i], updates)
  }

  /**
   * The pass fails exactly when a surviving host matches an update (that update
   * cannot be converted); otherwise it keeps the survivors unchanged and leaves
   * the creates none of them consumed.
   */
  lemma {:induction false} ReconcileExistingMeaning(existing: seq<Host>, creates: seq<Endpoint>,
                                                    updates: seq<Endpoint>, deletes: seq<Endpoint>)
    ensures var r := ReconcileExisting(existing, creates, updates, deletes);
      var kept := Survivors(existing, deletes);
      (r.Success? <==> NoUpdateMatches(kept, updates))
      && (r.Success? ==> r.value == (kept, Pending(kept, creates)))
  {
    if existing != [] {
      var h := existing[0];
      var kept := Survivors(existing, deletes);
      if AnyMatch(h, deletes) {
        ReconcileExistingMeaning(existing[1..], creates, updates, deletes);
      } else {
        assert kept == [h] + Survivors(existing[1..], deletes);
        assert kept[1..] == Survivors(existing[1..], deletes);
        if AnyMatch(h, updates) {
          MatchedUpdateFails(h, updates[IndexOfMatch(h, updates)]);
          assert !NoUpdateMatches(kept, updates) by {
            assert kept[0] == h;
          }
        } else {
          ReconcileExistingMeaning(existing[1..], Consume(h, creates), updates, deletes);
          assert NoUpdateMatches(kept, updates) <==> NoUpdateMatches(kept[1..], updates) by {
            assert forall i | 1 <= i < |kept| :: kept[i] == kept[1..][i - 1];
          }
        }
      }
    }
  }

  /**
   * The whole reconciliation: fails when a surviving host matches an update or
   * a pending create cannot be converted; otherwise the survivors in their
   * order, then the pending creates converted in their order.
   */
  lemma ReconcileMeaning(existing: seq<Host>, creates: seq<Endpoint>, updates: seq<Endpoint>, deletes: seq<Endpoint>)
    ensures var r := Reconcile(existing, creates, updates, deletes);
      var kept := Survivors(existing, deletes);
      (r.Success? <==> NoUpdateMatches(kept, updates) && ConvertAll(Pending(kept, creates)).Success?)
      && (r.Success? ==> r.value == kept + ConvertAll(Pending(kept, creates)).value)
  {
    ReconcileExistingMeaning(existing, creates, updates, deletes);
  }

  /** With no dot in any host part, nothing is deleted, updated or de-duplicated. */
  lemma {:induction false} NoDottedHosts(existing: seq<Host>, creates: seq<Endpoint>, updates: seq<Endpoint>, deletes: seq<Endpoint>)
    requires forall i | 0 <= i < |existing| :: '.' !in existing[i].host
    ensures ReconcileExisting(existing, creates, updates, deletes) == Success((existing, creates))
  {
    if existing != [] {
      var h := existing[0];
      assert !AnyMatch(h, deletes);
      assert !AnyMatch(h, updates);
      assert !AnyMatch(h, creates);
      assert forall i | 0 <= i < |existing[1..]| :: existing[1..][i] == existing[i + 1];
      NoDottedHosts(existing[1..], creates, updates, deletes);
      assert [h] + existing[1..] == existing;
    }
  }

  /** The consequence for the written list: the fetched hosts, then every create converted. */
  lemma NoDottedHostsResult(existing: seq<Host>, creates: seq<Endpoint>, updates: seq<Endpoint>, deletes: seq<Endpoint>)
    requires forall i | 0 <= i < |existing| :: '.' !in existing[i].host
    ensures Reconcile(existing, creates, updates, deletes)
         == match ConvertAll(creates)
            case Success(made) => Success(existing + made)
            case Failure(cause) => Failure(ConvertCreatesFailed(cause))
  {
    NoDottedHosts(existing, creates, updates, deletes);
  }
}
