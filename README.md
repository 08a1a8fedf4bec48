# pfSense webhook for external-dns, modelled in Dafny

This project models the core of an external-dns webhook provider. The provider stores DNS records as host overrides of the Unbound resolver on a pfSense firewall. It has two layers:

- The service layer (`pkg/business/svc/pfsense.go`) works on the firewall. It fetches the whole `unbound` configuration section over XML-RPC. It merges the requested creates, updates and deletes into the section's host list, or dry-runs that merge. It writes the section back and asks pfSense to reconfigure Unbound and dhcpd. It also turns each host override back into an endpoint for listing.
- The controller layer (`pkg/business/controller.go`) serves the four webhook operations: negotiate, get records, set records and adjust records. It converts the external-dns API endpoints to and from the service's endpoints.

A host override has only a host part, a domain, an IP address and a free-text description. The service therefore keeps the whole endpoint as a JSON object in the description: DNS name, targets, labels and record type.

## Modules

| file | module | contents |
|---|---|---|
| `wrappers.dfy` | `Wrappers` | `Option` and `Result` |
| `types.dfy` | `Types` | `Endpoint` (`UnboundEndpoint`), `Host` (`host`), the `unbound` section, the error values |
| `names.dfy` | `Names` | `explodeHostName`, `buildDNSName` and their round trips |
| `json.dfy` | `Json` | JSON values, a canonical serializer and a parser with the acceptance rules of Go's `encoding/json` (RFC 8259 whitespace, escapes including surrogate pairs, numbers, literals); parsing what was serialized gives the value back |
| `keyorder.dfy` | `KeyOrder` | the byte order in which `json.Marshal` writes map keys, and the least key of a set |
| `codec.dfy` | `Codec` | `json.Marshal` and `json.Unmarshal` of an `UnboundEndpoint` in the description; decoding the encoding gives the endpoint back |
| `mapper.dfy` | `Mapper` | `endpointToHost`, `hostToEndpoint` |
| `reconcile.dfy` | `Reconciliation` | the loop of `ApplyChanges` over the fetched hosts, as a specification and as an imperative method proved against it |
| `pfsense.dfy` | `Pfsense` | the XML-RPC client, `fetchUnboundSection`, `execPhp`, `saveUnboundSection`, `ApplyChanges`, `ListEndpoints` |
| `controller.dfy` | `Controller` | the API endpoint conversions and the webhook controller |

## How the remote is modelled

The pfSense end is a function `Remote` from two things to a reply: the calls made so far, and the next call. So the firewall may answer the same call differently after a restore. A `Client` object records every call in its `trace`. A reply is a fault (the transport error of `client.Call`), a decoded section, or a decoded success flag. A reply of the wrong shape decodes to Go's zero value: the empty section, or `Success == false`.

Each remote operation has a plan function. The plan says which calls are made, in order, and what the operation returns: `FetchPlan`, `ExecPlan`, `SavePlan`, `ApplyPlan`, `ListPlan`. Each method of `PfsenseService` is proved to append exactly its plan's calls to the trace and to return the plan's result. The properties of the operations are lemmas about the plans. For example:

- no call is made after the first failed one;
- dry run makes only the fetch;
- the section written back differs from the fetched one in its hosts only;
- `ApplyChanges` succeeds exactly when nothing is requested, or when the fetch and the merge succeed and either dry run is on or the remote accepts the three write-back calls in turn.

## The match test, as written

`ApplyChanges` passes the same predicate to `slices.ContainsFunc` and `slices.IndexFunc` three times (`pfsense.go:68-71`, `76-79`, `91-94`). The predicate builds the existing host's DNS name. It holds when that build returns an error AND the returned name equals the endpoint's name. The model keeps this exactly. `buildDNSName` fails only when the host part holds a dot, and then it returns `""`. So a host matches an endpoint only when its host part holds a dot and the endpoint's DNS name is empty (`Reconciliation.MatchesExactly`). Several consequences are proved:

- An update that matches can never be converted, so it makes `ApplyChanges` fail (`Reconciliation.MatchedUpdateFails`, `Reconciliation.ReconcileMeaning`).
- When no fetched host has a dot in its host part, nothing is deleted, updated or de-duplicated. The hosts written back are then the fetched hosts followed by every create converted (`Reconciliation.NoDottedHostsResult`).

So deleting `a.x.com` does not remove the host `a` / `x.com` (`pfsense.go:68-71`), and updating `a.x.com` does not replace it (`pfsense.go:76-86`). A create for `a.x.com` is added even when that host already exists (`pfsense.go:91-97`). The model follows the code.

## Behaviour a reader may not expect

- The match test, as described above.
- A description that starts with `{` but does not unmarshal makes `hostToEndpoint` fail (`pfsense.go:201-205`), and with it `ListEndpoints` (`pfsense.go:40-43`). The defaults (an A record with the host's IP) apply only to a description that does not start with `{`.
- `hostToEndpoint` fails on a host part that holds a dot (`pfsense.go:192-195`), so one such host override makes listing fail.
- A key in the description that names no field is skipped, as `json.Unmarshal` does, and is not an error.
- For each kept host, only the first matching create is removed (`pfsense.go:91-97`), and the match test above applies.
- In dry run, `ApplyChanges` fetches, merges, logs and returns success without writing (`pfsense.go:110-118`).
- `controller.go` reads and writes a `ProviderSpecific` field of `svc.UnboundEndpoint` (`controller.go:84`, `94`), but `pfsense.go:245-250` declares no such field. The controller therefore keeps its own view, `UnboundRecord`: a service endpoint together with the provider-specific map. The service never receives the map, and listed endpoints carry an empty one.

## Model

| member | source | states |
|---|---|---|
| Names.ExplodeHostName | pkg/business/svc/pfsense.go:221-230 | a name without a dot fails with its one-part split; a name with one dot is all domain; otherwise the dot-free part before the first dot is the host and the rest the domain |
| Names.BuildDnsName | pkg/business/svc/pfsense.go:232-243 | fails exactly when the host part holds a dot; an empty host gives the domain, otherwise host "." domain |
| Names.Split | pkg/business/svc/pfsense.go:234 | `strings.Split` on one separator: one more part than separators, no part holds the separator, and the parts joined by the separator give the input back |
| Names.JoinExplode | pkg/business/svc/pfsense.go:221-243 | exploding a name and building it again gives the name back exactly when it has one dot, or two or more and does not start with a dot |
| Names.ExplodeJoin | pkg/business/svc/pfsense.go:221-243 | building a name from (host, domain) and exploding it gives the pair back exactly when the host has no dot and either host is empty and the domain has one dot, or host is non-empty and the domain has a dot |
| Json.ParseSerializeRoundTrip | pkg/business/svc/pfsense.go:181-203 | a value whose number lexemes are valid, once serialized, parses back as a whole document to the same value |
| Json.ValueRoundTrip | pkg/business/svc/pfsense.go:181-203 | a serialized value followed by a delimiter parses as that value, leaving the delimiter |
| Json.EscapeRoundTrip | pkg/business/svc/pfsense.go:181-203 | an escaped string body followed by the closing quote reads back as the string, escapes and control characters included |
| Json.NumberRoundTrip | pkg/business/svc/pfsense.go:181-203 | a valid number lexeme followed by a delimiter parses as that lexeme |
| Codec.LabelMembers | pkg/business/svc/pfsense.go:248 | the labels map becomes one member per key, each with its value, keys strictly ascending |
| Codec.Encode | pkg/business/svc/pfsense.go:181 | the description written is a JSON object, so it starts with `{` as `hostToEndpoint` tests |
| Codec.Decode | pkg/business/svc/pfsense.go:203 | a description that is not JSON fails; a description that decodes is a JSON object |
| Codec.StoreItemsMeaning | pkg/business/svc/pfsense.go:203 | decoding an array into an existing slice fails exactly when an element is neither a string nor null; otherwise element `i` overwrites slot `i` with its string, a null keeps what the backing array held there |
| Codec.StoreLabelsMeaning | pkg/business/svc/pfsense.go:203 | decoding an object into an existing labels map fails exactly when a member value is neither a string nor null; otherwise the keys are the old keys plus the member keys, each member key holds its last member's string (`""` for null), and other keys keep their value |
| Codec.DecodeEncode | pkg/business/svc/pfsense.go:181-210 | unmarshalling what `json.Marshal` wrote for an endpoint gives the same endpoint |
| Mapper.EndpointToHost | pkg/business/svc/pfsense.go:162-189 | unsupported type, name without a dot and an A record without exactly one target fail, in that order, with their errors; otherwise the host and domain are the exploded name, the IP is the A target or 127.0.0.1, and the description is the encoded endpoint |
| Mapper.HostToEndpoint | pkg/business/svc/pfsense.go:191-219 | fails exactly when the host part has a dot or a `{` description does not decode; the name is the built name; without a JSON description the result is an A record with the host's IP and no labels, with one the decoded targets and labels and the decoded type or A |
| Mapper.HostRoundTrip | pkg/business/svc/pfsense.go:162-219 | the host written for an endpoint reads back as that endpoint exactly when its name survives being exploded and built again |
| Mapper.StoredHostReads | pkg/business/svc/pfsense.go:162-219 | the host written for an endpoint is always read back without error |
| Reconciliation.MatchesExactly | pkg/business/svc/pfsense.go:68-71 | the match predicate holds exactly when the host part holds a dot and the endpoint's name is empty |
| Reconciliation.MatchedUpdateFails | pkg/business/svc/pfsense.go:76-86 | an update that matches a host cannot be converted to a host |
| Reconciliation.IndexOfMatch | pkg/business/svc/pfsense.go:76-79 | `slices.IndexFunc`: -1 exactly when nothing matches, otherwise the first matching position |
| Reconciliation.ConvertAll | pkg/business/svc/pfsense.go:101-104 | every endpoint converted in order, failing exactly when one fails, with the error of the first that fails |
| Reconciliation.PassStep | pkg/business/svc/pfsense.go:66-97 | one iteration of the loop: a deleted host is skipped, a failed update aborts, otherwise the kept host precedes the rest and consumes its first matching create |
| Reconciliation.UpdateHost | pkg/business/svc/pfsense.go:76-86 | computes the specified substitution; it succeeds exactly when no update matches, and then keeps the host unchanged; on failure it reports the first matching update, whose name is empty |
| Reconciliation.RemoveCreate | pkg/business/svc/pfsense.go:91-97 | computes the specified removal; without a matching create the creates are unchanged; otherwise exactly the first matching create, which has an empty name, is spliced out and the others keep their order |
| Reconciliation.PassOverHosts | pkg/business/svc/pfsense.go:65-98 | the loop computes the kept hosts and the pending creates of the specification of one pass |
| Reconciliation.ReconcileHosts | pkg/business/svc/pfsense.go:65-108 | the loop followed by the conversion of the pending creates computes the specified host list, and a failed conversion is reported as such |
| Reconciliation.ReconcileExistingMeaning | pkg/business/svc/pfsense.go:65-98 | the pass fails exactly when a host no delete matches has a matching update, and otherwise keeps those hosts in order and leaves the creates they did not consume |
| Reconciliation.ReconcileMeaning | pkg/business/svc/pfsense.go:65-108 | the written list is the surviving hosts in order followed by the pending creates converted in order, and fails exactly when an update matches or a pending create cannot be converted |
| Reconciliation.NoDottedHosts | pkg/business/svc/pfsense.go:65-98 | with no dot in any host part the pass keeps every fetched host and every create |
| Reconciliation.NoDottedHostsResult | pkg/business/svc/pfsense.go:65-108 | with no dot in any host part the written list is the fetched hosts followed by all creates converted |
| Pfsense.FetchPlan | pkg/business/svc/pfsense.go:47-54 | one backup call of the `unbound` section; fails exactly on a fault, otherwise returns the decoded section |
| Pfsense.ExecPlan | pkg/business/svc/pfsense.go:150-160 | one exec_php call; succeeds exactly when there is no fault and the success flag is set |
| Pfsense.SavePlan | pkg/business/svc/pfsense.go:126-148 | restore, configure Unbound, configure dhcpd, in that order; each call is made exactly when the one before it succeeded; succeeds exactly when all three succeed |
| Pfsense.Written | pkg/business/svc/pfsense.go:108 | the section written back is the fetched one with only its hosts replaced |
| Pfsense.ApplyPlan | pkg/business/svc/pfsense.go:56-124 | no calls when nothing is requested; otherwise the backup call first, only it on a fault, a failed merge or in dry run; after a successful fetch and merge outside dry run the write sequence of the fetched section with the reconciled hosts, each call made exactly when the one before it succeeded |
| Pfsense.SaveSucceeds | pkg/business/svc/pfsense.go:126-148 | saving succeeds exactly when the remote accepts the restore, the Unbound reconfiguration and the dhcpd reconfiguration in turn |
| Pfsense.ApplySucceeds | pkg/business/svc/pfsense.go:56-124 | success exactly when nothing was requested, or the fetch and the merge succeed and either dry run is on or the remote accepts the restore and both reconfigurations of the reconciled section in turn |
| Pfsense.ReadAll | pkg/business/svc/pfsense.go:40-43 | every host read in order, succeeding exactly when every host reads, with each host's endpoint at its position |
| Pfsense.ListPlan | pkg/business/svc/pfsense.go:35-45 | one backup call; succeeds exactly when there is no fault and every fetched host reads, returning the endpoints read |
| Pfsense.ReadConverted | pkg/business/svc/pfsense.go:162-219 | hosts written for storable endpoints read back as exactly those endpoints |
| Pfsense.ListStored | pkg/business/svc/pfsense.go:35-45 | when the section holds the hosts written for storable endpoints, listing returns those endpoints |
| Pfsense.Client.Call | pkg/business/svc/pfsense.go:50 | the call is appended to the trace and answered by the remote given the earlier calls |
| Pfsense.PfsenseService.constructor | pkg/business/svc/pfsense.go:28-33 | the service keeps its client and dry-run flag |
| Pfsense.PfsenseService.FetchUnboundSection | pkg/business/svc/pfsense.go:47-54 | makes exactly the calls of the fetch plan and returns its result |
| Pfsense.PfsenseService.ExecPhpCode | pkg/business/svc/pfsense.go:150-160 | makes exactly the calls of the exec plan and returns its result |
| Pfsense.PfsenseService.SaveUnboundSection | pkg/business/svc/pfsense.go:126-148 | makes exactly the calls of the save plan and returns its result |
| Pfsense.PfsenseService.ApplyChanges | pkg/business/svc/pfsense.go:56-124 | makes exactly the calls of the apply plan and returns its result |
| Pfsense.PfsenseService.ListEndpoints | pkg/business/svc/pfsense.go:35-45 | makes exactly the calls of the list plan and returns its result |
| Controller.ProviderSpecificMap | pkg/business/controller.go:98-106 | the map holds only non-empty names and values |
| Controller.ProviderSpecificMapMeaning | pkg/business/controller.go:98-106 | a name is in the map exactly when a property with non-empty name and value has it, and maps to the value of the last such property |
| Controller.ToProviderSpecificMap | pkg/business/controller.go:98-106 | the loop computes the specified map |
| Controller.FromProviderSpecificMap | pkg/business/controller.go:108-119 | one property per entry with its name and value, every name once, in the map's iteration order |
| Controller.ListedCollectsBack | pkg/business/controller.go:98-119 | listing a map and collecting the list again gives the map back exactly when no name or value is empty |
| Controller.AsUnboundEndpoint | pkg/business/controller.go:88-96 | absent name, targets and type become "", [] and ""; present ones and the labels pass through; the map is `ProviderSpecificMap` of the properties, so it holds exactly the non-empty names with the last such property's non-empty value (`ProviderSpecificMapMeaning`) |
| Controller.AsExternalDnsEndpoint | pkg/business/controller.go:78-86 | every field is set from the record, and the properties list its map |
| Controller.ShownReadsBack | pkg/business/controller.go:78-96 | an endpoint shown and sent back reads as the same service endpoint, and as the same record exactly when no property name or value is empty |
| Controller.UnboundEndpoints | pkg/business/controller.go:47-66 | an absent list is empty; a present one is converted element by element, in order |
| Controller.ShowAll | pkg/business/controller.go:34-37 | every listed endpoint is shown, in order |
| Controller.Negotiate | pkg/business/controller.go:23-27 | no domain filters are announced |
| Controller.AdjustRecords | pkg/business/controller.go:74-76 | the records come back unchanged, element by element |
| Controller.WebhookController.constructor | pkg/business/controller.go:17-21 | the controller keeps its service |
| Controller.WebhookController.SetRecords | pkg/business/controller.go:41-72 | the creates, the new updates and the deletes, converted, are passed to `ApplyChanges`; its calls are made, and its failure is reported or 204 returned |
| Controller.WebhookController.GetRecords | pkg/business/controller.go:29-39 | the calls of the list plan are made; a failure is reported, otherwise every listed endpoint is shown in order |

## Left out

- The XML-RPC transport, XML encoding and decoding, and the nested reply type: the remote is the `Remote` function, and a reply is a fault, a section or a success flag.
- The scalar settings of the `unbound` section are carried as one name-to-value map, and the ACLs as records. Both pass through unchanged.
- Error messages are modelled as error values carrying the same data. The text of each `fmt.Errorf` is not modelled.
- Logging (`slog`), the `context.Context` parameters and the dry-run log line are left out.
- `Codec.Encode`: does not produce Go's exact escaping. Go writes `<`, `>`, `&`, U+2028 and U+2029 as `\u` escapes, writes backspace and form feed as `\b` and `\f`, and replaces invalid UTF-8. The model writes the first five unescaped and the other two as `\u00XX`. Both forms read back as the same string.
- `Codec.Encode`: the marshal error that `endpointToHost` ignores cannot arise for this struct and is not modelled.
- `Codec.Decode`: Go's nesting-depth limit and its replacement of invalid UTF-8 are not modelled. Numbers are kept as their lexemes. A number stored into a string field fails, as in Go.
- `Codec.FoldChar`: folds ASCII letters and the two non-ASCII letters that fold onto ASCII (ſ and the Kelvin sign). No other Unicode case folding is needed for the four field names.
- A Go nil slice or map and an empty one are the same value. So `hostToEndpoint` returning nil labels and `omitempty` are modelled as the empty map.
- `Reconciliation.PassOverHosts`: works on a local sequence. The source reassigns `toCreate` with `append(toCreate[:i], toCreate[i+1:]...)` (`pfsense.go:96`), which shifts the caller's backing array in place. That aliasing is not modelled.
- A nil request body in `AdjustRecords` (a Go nil dereference) is not modelled.
- `Controller.WebhookController.SetRecords`: never returns the validation error of `controller.go:49-65`.
- `Controller.WebhookController.GetRecords`: never returns the validation error of `controller.go:35-37`.
- Both of those errors are unreachable, because `asUnboundEndpoint` and `asExternalDNSEndpoint` never fail.
- `Controller.WebhookController.GetRecords`: listed endpoints carry an empty provider-specific map, because the service endpoint has no such field.
- `Controller.FromProviderSpecificMap`: Go's map iteration order is randomised. The model takes an arbitrary key each step, so the contract states the list up to order.
- `pkg/app.go` (wiring, configuration, HTTP server) is not part of this model. Nor are `pkg/integration` except the helpers used above (`MapSliceErr`, `FromPtr`), the generated API package `api/externaldnsapi`, the test data and the end-to-end tests.
