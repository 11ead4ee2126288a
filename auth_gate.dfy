/** The `apicheck` decorator: the API-key / address-whitelist gate that
    wraps a route handler. */
module AuthGate {
  import opened Wrappers
  import opened Replies

  /** One entry of the credential registry, a dictionary from configuration.
      Any of its four keys may be missing; reading a missing one raises. */
  datatype Principal = Principal(
    username: Option<string>,
    apiKey: Option<string>,
    allowed: Option<seq<string>>,
    whitelist: Option<seq<string>>)

  datatype Field = UsernameField | ApiKeyField | AllowedField | WhitelistField

  /** Which of a principal's two checks admitted the request. */
  datatype Via = ByKey | ByWhitelist

  /** Why evaluation raised: a field read that failed, or the wrapped handler. */
  datatype FaultCause = MissingField(entry: nat, field: Field) | HandlerRaised(entry: nat)

  /** What the wrapped handler does when it is run. */
  datatype HandlerOutcome = Returned(reply: Reply) | Raised

  /** The gate's three outcomes: the handler ran for registry entry `entry`
      and gave `reply`; no entry matched; something raised inside the scan. */
  datatype Decision =
    | Admitted(entry: nat, via: Via, reply: Reply)
    | Denied
    | Faulted(cause: FaultCause)

  /** An absent `api-key` header is read as the empty string. */
  function PresentedKey(header: Option<string>): (key: string)
    ensures header.None? ==> key == ""
    ensures header.Some? ==> key == header.value
  {
    match header
    case None => ""
    case Some(k) => k
  }

  /** `REMOTE_ADDR in whitelist`; a missing REMOTE_ADDR (None) is in no list
      of strings. */
  predicate Listed(addr: Option<string>, whitelist: seq<string>)
  {
    addr.Some? && addr.value in whitelist
  }

  /** Entry `i` has matched: its username is read for the log line, then the
      handler is run, both inside the `try`. */
  function Enter(p: Principal, i: nat, via: Via, handler: HandlerOutcome): Decision
  {
    if p.username.None? then Faulted(MissingField(i, UsernameField))
    else match handler
      case Returned(reply) => Admitted(i, via, reply)
      case Raised => Faulted(HandlerRaised(i))
  }

  /** Inspecting entry `i`: Some(decision) when the scan stops here, None
      when it goes on to the next entry. Field reads happen in source order:
      `api-key`, then `allowed` if the key is equal, then `whitelist`, then
      `allowed` if the address is listed. */
  function Inspect(p: Principal, i: nat, key: string, path: string, addr: Option<string>,
                   handler: HandlerOutcome): Option<Decision>
  {
    if p.apiKey.None? then Some(Faulted(MissingField(i, ApiKeyField)))
    else if key == p.apiKey.value && p.allowed.None? then Some(Faulted(MissingField(i, AllowedField)))
    else if key == p.apiKey.value && path in p.allowed.value then Some(Enter(p, i, ByKey, handler))
    else if p.whitelist.None? then Some(Faulted(MissingField(i, WhitelistField)))
    else if Listed(addr, p.whitelist.value) && p.allowed.None? then Some(Faulted(MissingField(i, AllowedField)))
    else if Listed(addr, p.whitelist.value) && path in p.allowed.value then Some(Enter(p, i, ByWhitelist, handler))
    else None
  }

  /** The scan of the registry from entry `i` on, in registry order. */
  function ScanFrom(reg: seq<Principal>, i: nat, key: string, path: string, addr: Option<string>,
                    handler: HandlerOutcome): Decision
    requires i <= |reg|
    decreases |reg| - i
  {
    if i == |reg| then Denied
    else match Inspect(reg[i], i, key, path, addr, handler)
      case Some(d) => d
      case None => ScanFrom(reg, i + 1, key, path, addr, handler)
  }

  /** The gate's decision for a request with the given `api-key` header,
      path and REMOTE_ADDR, where the wrapped handler would behave as
      `handler`. */
  function Gate(reg: seq<Principal>, header: Option<string>, path: string, addr: Option<string>,
                handler: HandlerOutcome): Decision
  {
    ScanFrom(reg, 0, PresentedKey(header), path, addr, handler)
  }

  /** What the client receives. Both refusals carry status 401. */
  function Respond(d: Decision): (r: Reply)
    ensures d.Admitted? ==> r == d.reply
    ensures d.Denied? ==> r == GateFailure(DeniedMessage)
    ensures d.Faulted? ==> r == GateFailure(FaultMessage)
  {
    match d
    case Admitted(_, _, reply) => reply
    case Denied => GateFailure(DeniedMessage)
    case Faulted(_) => GateFailure(FaultMessage)
  }

  // ---------------------------------------------------------------------
  // The matching rule, stated without the scan

  /** The key check of an entry succeeds. */
  predicate KeyAdmits(p: Principal, key: string, path: string)
  {
    p.apiKey == Some(key) && p.allowed.Some? && path in p.allowed.value
  }

  /** The whitelist check of an entry succeeds. */
  predicate AddrAdmits(p: Principal, addr: Option<string>, path: string)
  {
    p.whitelist.Some? && Listed(addr, p.whitelist.value) && p.allowed.Some? && path in p.allowed.value
  }

  /** The scan reads every field it needs from `p` without raising, admits
      by neither check, and moves on. */
  predicate PassesOver(p: Principal, key: string, path: string, addr: Option<string>)
  {
    && p.apiKey.Some?
    && p.whitelist.Some?
    && (p.apiKey.value == key ==> p.allowed.Some? && path !in p.allowed.value)
    && (Listed(addr, p.whitelist.value) ==> p.allowed.Some? && path !in p.allowed.value)
  }

  /** An entry admits through its whitelist only when its key is present and
      differs: a key that matches on a disallowed path also fails the
      whitelist branch's path test. */
  predicate AdmitsVia(p: Principal, via: Via, key: string, path: string, addr: Option<string>)
  {
    match via
    case ByKey => KeyAdmits(p, key, path)
    case ByWhitelist => p.apiKey.Some? && p.apiKey.value != key && AddrAdmits(p, addr, path)
  }

  /** Every entry before `i` (from `k` on) is passed over. */
  predicate PassedBefore(reg: seq<Principal>, k: nat, i: nat, key: string, path: string, addr: Option<string>)
    requires i <= |reg|
  {
    forall j :: k <= j < i ==> PassesOver(reg[j], key, path, addr)
  }

  lemma InspectNone(p: Principal, i: nat, key: string, path: string, addr: Option<string>,
                    handler: HandlerOutcome)
    ensures Inspect(p, i, key, path, addr, handler).None? <==> PassesOver(p, key, path, addr)
  {
  }

  /** The scan goes on past an entry exactly when that entry is passed over;
      where it stops, the entry's own inspection is the result. */
  lemma {:induction false} ScanStops(reg: seq<Principal>, k: nat, i: nat, key: string, path: string,
                                     addr: Option<string>, handler: HandlerOutcome)
    requires k <= i < |reg|
    requires PassedBefore(reg, k, i, key, path, addr)
    requires !PassesOver(reg[i], key, path, addr)
    ensures Inspect(reg[i], i, key, path, addr, handler).Some?
    ensures ScanFrom(reg, k, key, path, addr, handler) == Inspect(reg[i], i, key, path, addr, handler).value
    decreases i - k
  {
    InspectNone(reg[k], k, key, path, addr, handler);
    InspectNone(reg[i], i, key, path, addr, handler);
    if k < i {
      ScanStops(reg, k + 1, i, key, path, addr, handler);
    }
  }

  /** The scan from `k` denies exactly when every remaining entry is passed over. */
  lemma {:induction false} ScanDenies(reg: seq<Principal>, k: nat, key: string, path: string,
                                      addr: Option<string>, handler: HandlerOutcome)
    requires k <= |reg|
    ensures ScanFrom(reg, k, key, path, addr, handler) == Denied <==> PassedBefore(reg, k, |reg|, key, path, addr)
    decreases |reg| - k
  {
    if k < |reg| {
      InspectNone(reg[k], k, key, path, addr, handler);
      ScanDenies(reg, k + 1, key, path, addr, handler);
      var d := Inspect(reg[k], k, key, path, addr, handler);
      if d.Some? {
        assert !d.value.Denied?;
      }
    }
  }

  /** The decision on the scan from `k` onward names an entry at or after
      `k` that every earlier entry was passed over to reach. */
  lemma {:induction false} ScanReaches(reg: seq<Principal>, k: nat, key: string, path: string,
                                       addr: Option<string>, handler: HandlerOutcome)
    requires k <= |reg|
    ensures var d := ScanFrom(reg, k, key, path, addr, handler);
      d.Admitted? ==> k <= d.entry < |reg| && PassedBefore(reg, k, d.entry, key, path, addr)
                      && !PassesOver(reg[d.entry], key, path, addr)
    ensures var d := ScanFrom(reg, k, key, path, addr, handler);
      d.Faulted? ==> k <= d.cause.entry < |reg| && PassedBefore(reg, k, d.cause.entry, key, path, addr)
                     && !PassesOver(reg[d.cause.entry], key, path, addr)
    decreases |reg| - k
  {
    if k < |reg| {
      InspectNone(reg[k], k, key, path, addr, handler);
      ScanReaches(reg, k + 1, key, path, addr, handler);
    }
  }

  /** Admission rule: the request is admitted by entry `i` through check
      `via` with the handler's reply exactly when every earlier entry is
      passed over, entry `i` admits through `via`, its username is present
      and the handler returns that reply. */
  lemma AdmissionRule(reg: seq<Principal>, header: Option<string>, path: string, addr: Option<string>,
                      handler: HandlerOutcome, i: nat, via: Via, reply: Reply)
    ensures var key := PresentedKey(header);
      Gate(reg, header, path, addr, handler) == Admitted(i, via, reply)
      <==>
      && i < |reg|
      && PassedBefore(reg, 0, i, key, path, addr)
      && AdmitsVia(reg[i], via, key, path, addr)
      && reg[i].username.Some?
      && handler == Returned(reply)
  {
    var key := PresentedKey(header);
    var d := Gate(reg, header, path, addr, handler);
    ScanReaches(reg, 0, key, path, addr, handler);
    if d == Admitted(i, via, reply) {
      ScanStops(reg, 0, i, key, path, addr, handler);
    }
    if i < |reg| && PassedBefore(reg, 0, i, key, path, addr) && AdmitsVia(reg[i], via, key, path, addr) {
      ScanStops(reg, 0, i, key, path, addr, handler);
    }
  }

  /** Deny: the request is refused with the denial message exactly when
      every entry is passed over; the handler's behaviour plays no part. */
  lemma DenyRule(reg: seq<Principal>, header: Option<string>, path: string, addr: Option<string>,
                 handler: HandlerOutcome, other: HandlerOutcome)
    ensures Gate(reg, header, path, addr, handler) == Denied
            <==> PassedBefore(reg, 0, |reg|, PresentedKey(header), path, addr)
    ensures Gate(reg, header, path, addr, handler) == Denied ==>
            Gate(reg, header, path, addr, other) == Denied
            && Respond(Gate(reg, header, path, addr, handler)).status == 401
  {
    ScanDenies(reg, 0, PresentedKey(header), path, addr, handler);
    ScanDenies(reg, 0, PresentedKey(header), path, addr, other);
  }

  /** Fault on a missing field: once the scan reaches entry `i`, evaluation
      raises when `api-key` is missing; when `whitelist` is missing and the
      key did not admit; when `allowed` is missing and the key is equal or
      the address is listed; and when the entry admits but has no
      `username` for the log line. */
  lemma FaultOnMissingField(reg: seq<Principal>, header: Option<string>, path: string,
                            addr: Option<string>, handler: HandlerOutcome, i: nat)
    requires i < |reg|
    requires PassedBefore(reg, 0, i, PresentedKey(header), path, addr)
    ensures reg[i].apiKey.None? ==>
            Gate(reg, header, path, addr, handler) == Faulted(MissingField(i, ApiKeyField))
    ensures reg[i].apiKey.Some? && !KeyAdmits(reg[i], PresentedKey(header), path)
            && (reg[i].apiKey.value == PresentedKey(header) ==> reg[i].allowed.Some?)
            && reg[i].whitelist.None? ==>
            Gate(reg, header, path, addr, handler) == Faulted(MissingField(i, WhitelistField))
    ensures reg[i].apiKey == Some(PresentedKey(header)) && reg[i].allowed.None? ==>
            Gate(reg, header, path, addr, handler) == Faulted(MissingField(i, AllowedField))
    ensures reg[i].apiKey.Some? && reg[i].whitelist.Some? && Listed(addr, reg[i].whitelist.value)
            && reg[i].allowed.None? ==>
            Gate(reg, header, path, addr, handler) == Faulted(MissingField(i, AllowedField))
    ensures forall via :: AdmitsVia(reg[i], via, PresentedKey(header), path, addr) && reg[i].username.None? ==>
            Gate(reg, header, path, addr, handler) == Faulted(MissingField(i, UsernameField))
    ensures Gate(reg, header, path, addr, handler).Faulted? ==>
            Respond(Gate(reg, header, path, addr, handler)) == GateFailure(FaultMessage)
  {
    if !PassesOver(reg[i], PresentedKey(header), path, addr) {
      ScanStops(reg, 0, i, PresentedKey(header), path, addr, handler);
    }
  }

  /** A matching entry's handler raising is a fault, not a propagated error:
      whenever a returning handler would be admitted by entry `i`, a raising
      one faults at entry `i`. */
  lemma FaultOnHandlerRaise(reg: seq<Principal>, header: Option<string>, path: string,
                            addr: Option<string>, reply: Reply)
    ensures var d := Gate(reg, header, path, addr, Returned(reply));
      d.Admitted? ==> Gate(reg, header, path, addr, Raised) == Faulted(HandlerRaised(d.entry))
    ensures !Gate(reg, header, path, addr, Raised).Admitted?
  {
    var key := PresentedKey(header);
    var d := Gate(reg, header, path, addr, Returned(reply));
    ScanReaches(reg, 0, key, path, addr, Returned(reply));
    ScanReaches(reg, 0, key, path, addr, Raised);
    if d.Admitted? {
      ScanStops(reg, 0, d.entry, key, path, addr, Returned(reply));
      ScanStops(reg, 0, d.entry, key, path, addr, Raised);
    }
    var e := Gate(reg, header, path, addr, Raised);
    if e.Admitted? {
      ScanStops(reg, 0, e.entry, key, path, addr, Raised);
    }
  }

  /** Fall-through: an entry whose key matches but whose `allowed` lacks the
      path admits by neither check; the scan reads its whitelist and moves on. */
  lemma FallThrough(reg: seq<Principal>, i: nat, key: string, path: string, addr: Option<string>,
                    handler: HandlerOutcome)
    requires i < |reg|
    requires reg[i].apiKey == Some(key) && reg[i].allowed.Some? && path !in reg[i].allowed.value
    ensures ScanFrom(reg, i, key, path, addr, handler) ==
            if reg[i].whitelist.None? then Faulted(MissingField(i, WhitelistField))
            else ScanFrom(reg, i + 1, key, path, addr, handler)
  {
  }

  /** A missing header is the empty key: it never faults by itself, and an
      entry whose key is empty admits header-less requests on its paths. */
  lemma MissingHeader(reg: seq<Principal>, path: string, addr: Option<string>, reply: Reply, i: nat)
    requires i < |reg|
    requires PassedBefore(reg, 0, i, "", path, addr)
    requires reg[i].apiKey == Some("") && reg[i].allowed.Some? && path in reg[i].allowed.value
    requires reg[i].username.Some?
    ensures Gate(reg, None, path, addr, Returned(reply)) == Admitted(i, ByKey, reply)
    ensures forall h :: Gate(reg, None, path, addr, h) == Gate(reg, Some(""), path, addr, h)
  {
    ScanStops(reg, 0, i, "", path, addr, Returned(reply));
  }

  /** Entries after the deciding one are never inspected: once a registry
      decides (admits or faults), appending entries changes nothing. */
  lemma {:induction false} LaterEntriesIgnored(reg: seq<Principal>, more: seq<Principal>, k: nat,
                                               key: string, path: string, addr: Option<string>,
                                               handler: HandlerOutcome)
    requires k <= |reg|
    requires ScanFrom(reg, k, key, path, addr, handler) != Denied
    ensures ScanFrom(reg + more, k, key, path, addr, handler) == ScanFrom(reg, k, key, path, addr, handler)
    decreases |reg| - k
  {
    assert (reg + more)[k] == reg[k];
    if Inspect(reg[k], k, key, path, addr, handler).None? {
      LaterEntriesIgnored(reg, more, k + 1, key, path, addr, handler);
    }
  }

  /** A registry in which every entry has all four fields. */
  predicate WellFormed(reg: seq<Principal>)
  {
    forall j :: 0 <= j < |reg| ==>
      reg[j].username.Some? && reg[j].apiKey.Some? && reg[j].allowed.Some? && reg[j].whitelist.Some?
  }

  /** In a well-formed registry, presenting an entry's key on one of its
      allowed paths is admitted (perhaps by an earlier entry that also
      grants the path). */
  lemma {:induction false} GrantedKeyAdmitted(reg: seq<Principal>, k: nat, t: nat, key: string, path: string,
                                              addr: Option<string>, reply: Reply)
    requires WellFormed(reg)
    requires k <= t < |reg|
    requires KeyAdmits(reg[t], key, path)
    ensures var d := ScanFrom(reg, k, key, path, addr, Returned(reply));
      d.Admitted? && d.entry <= t && d.reply == reply
    decreases t - k
  {
    if Inspect(reg[k], k, key, path, addr, Returned(reply)).None? {
      InspectNone(reg[k], k, key, path, addr, Returned(reply));
      assert k < t;
      GrantedKeyAdmitted(reg, k + 1, t, key, path, addr, reply);
    }
  }

  /** In a well-formed registry, a request from an address that an entry
      whitelists, on one of that entry's allowed paths, is admitted (perhaps
      by an earlier entry that also grants the path). */
  lemma {:induction false} GrantedAddressAdmitted(reg: seq<Principal>, k: nat, t: nat, key: string, path: string,
                                                  addr: Option<string>, reply: Reply)
    requires WellFormed(reg)
    requires k <= t < |reg|
    requires AddrAdmits(reg[t], addr, path)
    ensures var d := ScanFrom(reg, k, key, path, addr, Returned(reply));
      d.Admitted? && d.entry <= t && d.reply == reply
    decreases t - k
  {
    if Inspect(reg[k], k, key, path, addr, Returned(reply)).None? {
      InspectNone(reg[k], k, key, path, addr, Returned(reply));
      assert k < t;
      GrantedAddressAdmitted(reg, k + 1, t, key, path, addr, reply);
    }
  }

  /** In a well-formed registry, a request whose key is no entry's and whose
      address no entry lists is denied, whatever the path. Without
      well-formedness it is at least never admitted. */
  lemma UnknownCredentialRefused(reg: seq<Principal>, header: Option<string>, path: string,
                                 addr: Option<string>, handler: HandlerOutcome)
    requires forall j :: 0 <= j < |reg| ==> reg[j].apiKey != Some(PresentedKey(header))
    requires forall j :: 0 <= j < |reg| ==> reg[j].whitelist.None? || !Listed(addr, reg[j].whitelist.value)
    ensures !Gate(reg, header, path, addr, handler).Admitted?
    ensures WellFormed(reg) ==> Gate(reg, header, path, addr, handler) == Denied
  {
    var key := PresentedKey(header);
    ScanReaches(reg, 0, key, path, addr, handler);
    ScanDenies(reg, 0, key, path, addr, handler);
    var d := Gate(reg, header, path, addr, handler);
    if d.Admitted? {
      ScanStops(reg, 0, d.entry, key, path, addr, handler);
    }
  }

  /** The registry order decides, not just the registry's contents: an
      earlier entry without a `whitelist` faults the request before a later
      entry whose key matches is reached. */
  lemma MalformedEntryShadows()
    ensures var reg := [Principal(Some("ops"), Some("k1"), Some(["/p"]), None),
                        Principal(Some("bot"), Some("k2"), Some(["/p"]), Some([]))];
      Gate(reg, Some("k2"), "/p", None, Returned(Reply(200, []))) == Faulted(MissingField(0, WhitelistField))
  {
  }

  // ---------------------------------------------------------------------
  // The decorator's loop

  /** `_wrap`: scan the registry in order with early returns, inside one
      `try` whose handler turns every exception into a fault. */
  method Authorize(reg: seq<Principal>, header: Option<string>, path: string, addr: Option<string>,
                   handler: HandlerOutcome) returns (d: Decision)
    ensures d == Gate(reg, header, path, addr, handler)
  {
    var key := PresentedKey(header);
    var i := 0;
    while i < |reg|
      invariant i <= |reg|
      invariant ScanFrom(reg, i, key, path, addr, handler) == Gate(reg, header, path, addr, handler)
    {
      var p := reg[i];
      if p.apiKey.None? {
        return Faulted(MissingField(i, ApiKeyField));
      }
      if key == p.apiKey.value {
        if p.allowed.None? {
          return Faulted(MissingField(i, AllowedField));
        }
        if path in p.allowed.value {
          return Enter(p, i, ByKey, handler);
        }
      }
      if p.whitelist.None? {
        return Faulted(MissingField(i, WhitelistField));
      }
      if addr.Some? && addr.value in p.whitelist.value {
        if p.allowed.None? {
          return Faulted(MissingField(i, AllowedField));
        }
        if path in p.allowed.value {
          return Enter(p, i, ByWhitelist, handler);
        }
      }
      i := i + 1;
    }
    return Denied;
  }
}
