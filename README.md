# forti_api: the API-key gate and the autoban sequence

A model of the two pieces of logic in `forti_api.py`, a small Bottle web
service. The service takes intrusion alerts and bans the offending address on
a FortiGate firewall.

- **The `apicheck` gate** wraps each protected route. It reads the `api-key`
  header (an absent header becomes the empty string). It then scans the
  credential registry in order. An entry admits when the presented key equals
  its `api-key`, or REMOTE_ADDR is in its `whitelist`, and in both cases the
  request path is in its `allowed` list. For the first entry that admits, the
  wrapped handler runs and its reply is returned. A scan that finds no entry
  ends in a 401 "api-key is not valid here". Any exception inside the scan
  ends in a 401 "Something went wrong, exiting...". That covers a registry
  entry without a field the scan reads, and also the wrapped handler raising.
- **The autoban route** reads the offending address from the alert at
  `backlog[0].fields.ssh_invalid_user_ip`. A bad body gives 400. From the
  address it derives the object name `auto-<ip>`, the subnet `<ip>/32` and the
  fixed group `MaliciousAuto`. It then makes three firewall calls in order:
  1. create the address object (the response status is ignored);
  2. read the group (more than one result gives `False`; none raises);
  3. replace the group's membership with the old member names followed by the
     new name, without deduplication.

  The first failure aborts with 500. Calls already made stay made.

Files:
- wrappers.dfy: `Option` and `CallOutcome` (a call's decoded response, or an
  exception).
- replies.dfy: the reply dictionaries and their statuses.
- json.dfy: the decoded body, Python's `v[key]` and `v[0]` on it, and
  `str()` as `'{}'.format` uses it.
- `auth_gate.dfy`: the gate. `Gate` and `ScanFrom` are the specification, a
  recursive scan in registry order. `PassesOver`, `KeyAdmits` and
  `AdmitsVia` restate the matching rule without the scan, and the lemmas
  connect the two. `Authorize` is the decorator's loop, proved equal to
  `Gate`.
- firewall.dfy: the three firewall operations. `MembershipPayload` (with
  `Names`) specifies the PUT payload, and `BuildMembership` is the loop that
  builds it.
- autoban.dfy: `Ban` specifies the handler as a function. Its inputs are
  the decoded body (None: it did not decode) and what each firewall call gives
  back. Its output is the reply and the list of calls issued. `Autoban` is the
  handler's sequential code, proved equal to `Ban`. `ServeAuth` and
  `ServeAutoban` put the routes behind the gate.

The code differs from the documented intent of the service in three ways,
and the model follows the code:
- A denial and a fault both use status 401 but return different messages, so
  the client can tell them apart by the message, not just the log.
- Exceptions raised by the wrapped handler are also caught and turned into a
  fault, because the handler is called inside the `try`.
- "Every principal's key or whitelisted address is admitted on its routes"
  holds only when no earlier registry entry lacks a field the scan reads.
  `GrantedKeyAdmitted` and `GrantedAddressAdmitted` prove it under that
  hypothesis, and `MalformedEntryShadows` shows an earlier entry without
  `whitelist` faulting the request.

## Model

| member | source | states |
|---|---|---|
| `AuthGate.PresentedKey` | forti_api.py:20-23 | an absent `api-key` header is the empty key; a present one is used as sent |
| `AuthGate.InspectNone` | forti_api.py:26-33 | inspecting one entry goes on to the next exactly when the entry is passed over: `api-key` and `whitelist` are present, and neither check finds the path allowed |
| `AuthGate.ScanStops` | forti_api.py:25-37 | once every earlier entry is passed over, the scan's result is the first non-passing entry's own outcome |
| `AuthGate.ScanDenies` | forti_api.py:25-41 | the scan ends without a match exactly when every remaining entry is passed over |
| `AuthGate.ScanReaches` | forti_api.py:25-37 | an admitting or faulting decision names the entry where the scan stopped, and every entry before it was passed over |
| `AuthGate.AdmissionRule` | forti_api.py:25-33 | admitted by entry i through the key or the whitelist with reply r iff all earlier entries are passed over, entry i admits that way with the path in `allowed`, its username can be read, and the handler returns r |
| `AuthGate.DenyRule` | forti_api.py:39-41 | denied iff every entry is passed over; a denial does not depend on the handler (it never runs) and the reply status is 401 |
| `AuthGate.FaultOnMissingField` | forti_api.py:24-37 | once the scan reaches entry i it faults at i when `api-key` is missing; when `whitelist` is missing and the key did not admit; when `allowed` is missing and the key is equal or the address is listed; and when the entry admits but has no `username`. A fault replies 401 "Something went wrong, exiting..." |
| `AuthGate.FaultOnHandlerRaise` | forti_api.py:24-37 | where a returning handler would be admitted by entry i, a raising handler faults at entry i; a raising handler is never admitted |
| `AuthGate.FallThrough` | forti_api.py:26-33 | a key that matches on a disallowed path does not admit: the scan reads the entry's whitelist (faulting if it is missing) and goes on to the next entry |
| `AuthGate.MissingHeader` | forti_api.py:20-27 | a request without the header is handled exactly as one with an empty key, and an entry whose key is empty admits it on its allowed paths |
| `AuthGate.LaterEntriesIgnored` | forti_api.py:25-37 | once a prefix of the registry decides (admits or faults), entries appended after it change nothing |
| `AuthGate.GrantedKeyAdmitted` | forti_api.py:25-29 | in a registry whose entries have all four fields, presenting entry t's key on one of its allowed paths is admitted by entry t or an earlier one, with the handler's reply |
| `AuthGate.GrantedAddressAdmitted` | forti_api.py:30-33 | in a registry whose entries have all four fields, a request from an address entry t whitelists, on one of its allowed paths, is admitted by entry t or an earlier one, with the handler's reply |
| `AuthGate.UnknownCredentialRefused` | forti_api.py:25-41 | a key that is no entry's, from an address no entry lists, is never admitted, and in a well-formed registry it is denied on every path |
| `AuthGate.MalformedEntryShadows` | forti_api.py:26-30 | an earlier entry without `whitelist` faults a request that a later entry's key would admit |
| `AuthGate.Respond` | forti_api.py:34-41 | an admitted request gets the handler's reply; a denial and a fault get 401 with their two fixed messages |
| `AuthGate.Authorize` | forti_api.py:18-42 | the decorator's loop with early returns computes exactly the specified decision `Gate` |
| `Firewall.ReadGroup` | forti_api.py:45-52 | more than one result gives the ambiguous `False`; exactly one with a `member` list gives that list; no results, a missing key or a failed GET raises |
| `Firewall.CreateAddress` | forti_api.py:55-63 | every POST that returns counts as success whatever its status; only a raising POST propagates |
| `Firewall.NamesContents` | forti_api.py:71-73 | the member loop succeeds iff every member has a `name`, and then keeps exactly the names, in order |
| `Firewall.PayloadContents` | forti_api.py:66-76 | the PUT payload has one more element than the member list, keeps each member's name in order and ends with the new name |
| `Firewall.NoDeduplication` | forti_api.py:71-76 | a new name that some member already has appears in the payload at least twice |
| `Firewall.AmbiguousHasNoPayload` | forti_api.py:71 | iterating the ambiguous `False` raises, so no payload is built and no PUT is sent |
| `Firewall.BuildMembership` | forti_api.py:66-76 | the list-building loop computes exactly the specified payload, including the raising cases |
| `Firewall.ReplaceGroup` | forti_api.py:66-79 | the replace succeeds iff the payload can be built and the PUT returns; the PUT's status is ignored |
| `Autoban.DerivedNamesInjective` | forti_api.py:105-106 | `auto-<ip>` and `<ip>/32` determine the address: equal derived values come only from equal addresses |
| `Json.Lookup` | forti_api.py:105 | a dictionary read finds a value exactly when some member has the key, the value is that member's, and with distinct keys it is the value stored under the key |
| `Autoban.OffenderIp` | forti_api.py:105 | a value is extracted only along `backlog`, a non-empty list whose first element is a dictionary, its `fields` dictionary, then `ssh_invalid_user_ip` |
| `Autoban.OffenderIpFound` | forti_api.py:105 | any decoded alert holding `backlog` whose first element holds `fields` holding `ssh_invalid_user_ip` yields that value, whatever other members there are and in any order |
| `Autoban.AlertShape` | forti_api.py:105 | an alert of the form `{"backlog":[{"fields":{"ssh_invalid_user_ip": ip}}], ...}` yields ip, and ip is written into the names as is |
| `Autoban.MalformedInputRejected` | forti_api.py:91-111 | 400 "Wrong input parameters" with no firewall call exactly when the body does not decode or lacks the address |
| `Autoban.CallOrder` | forti_api.py:113-116 | calls go out in the order create(`auto-<ip>`, `<ip>/32`), read(`MaliciousAuto`), replace(payload); each one only after the previous one succeeded |
| `Autoban.AbortOnFirstFailure` | forti_api.py:113-122 | 200 exactly when all three calls went through; otherwise 500 "Failed to communicate with the firewall", with the earlier calls issued and nothing rolled back |
| `Autoban.DuplicateCreateIgnored` | forti_api.py:61-63 | the outcome does not depend on the create call's HTTP status, so a duplicate object is as good as a fresh one |
| `Autoban.UnusableGroupAborts` | forti_api.py:113-120 | a group read with zero results or more than one aborts with 500 after the read and before any replace |
| `Autoban.RepeatedBan` | forti_api.py:113-122 | banning an address again, when the group already holds the name, succeeds again and puts the name in the payload twice |
| `Autoban.Autoban` | forti_api.py:88-122 | the handler's sequential code with early returns computes exactly the specified run `Ban`: the reply and the calls |
| `Autoban.AuthRouteStatus` | forti_api.py:82-85 | the auth route replies 200 "apicheck passed" exactly when the gate admits, and 401 otherwise |
| `Autoban.GateGuardsFirewall` | forti_api.py:88-90 | a refused autoban request gets 401 and issues no firewall call; any call issued means some entry granted the autoban path to this key or address |

## Left out

- Bottle plumbing is not modelled: route registration, reading the header and
  environ, setting `response.status`, `bottle.run`. The header, path and
  REMOTE_ADDR are inputs, and the status is part of the reply.
- The HTTP calls through `requests` are not modelled: URLs, bearer token,
  `verify=False`, http versus https. Each call is only the outcome it hands
  back.
- Logging, `print(r.status_code)` and the `debug` flag are side effects and
  are not modelled.
- The `datetime.now()` comment on a created address object depends on the
  clock and is not modelled.
- The `settings` module (firewall host, vdom, token, how the registry is
  loaded) is configuration. The registry is a given sequence.
- The `__main__` block is bootstrap code and is not modelled.
- `json.loads` and UTF-8 decoding are the `Option<Json>` argument, not a
  parser. A GET response that is not JSON counts as a raising call.
- The read-then-replace race between concurrent bans is not modelled. The
  code does nothing about it, and the model has no concurrency.
- The blocklist cache routes are described for the system but are not in this
  source file, so they are not part of this model.
- Json.Str: nested strings inside a list or dictionary value are always
  rendered in single quotes, without Python's quote choice and escaping.
  Floating-point JSON numbers are not represented.
- Json.Lookup: returns the first member with the key. The decoder produces
  distinct keys, so this matches Python's dictionary lookup.
- Firewall.ReadGroup: group members are dictionaries of string values.
  Non-string `name` values are not represented. `results` is always a list
  (or missing). If `results` were a dictionary or a string, `len(...) > 1`
  would also give `False` for more than one key or character. That case is
  not represented.
- AuthGate.Authorize: registry fields are typed. `allowed` and `whitelist`
  are lists of strings and `api-key` is a string or missing. Other
  configuration types (for example a string `allowed`, where `in` would test
  for a substring) are not represented.
- Autoban.ServeAutoban: the autoban handler is taken never to raise, because
  every exception it can meet is caught inside it. So the gate's
  handler-raised fault appears only in the gate's own lemmas.
