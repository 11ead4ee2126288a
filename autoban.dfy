/** The two routes behind the gate, `/forti_api/v1/auth` and
    `/forti_api/v1/autoban`, and the ban sequence the latter runs against
    the firewall. */
module Autoban {
  import opened Wrappers
  import opened Json
  import opened Replies
  import opened Firewall
  import opened AuthGate

  const AuthPath := "/forti_api/v1/auth"
  const AutobanPath := "/forti_api/v1/autoban"

  /** The fixed address group that banned addresses join. */
  const GroupName := "MaliciousAuto"

  const WrongInput := "Wrong input parameters"
  const FirewallFailed := "Failed to communicate with the firewall"
  const Updated := "Successfully uppdated address group"
  const AuthPassed := "apicheck passed"

  /** An outbound firewall call, with what it sends. */
  datatype Call =
    | CreateCall(name: string, subnet: string)
    | ReadCall(group: string)
    | ReplaceCall(group: string, members: seq<NameRef>)

  /** What one request produces: the reply and the firewall calls issued,
      in order. */
  datatype Run = Run(reply: Reply, calls: seq<Call>)

  /** `data['backlog'][0]['fields']['ssh_invalid_user_ip']`, None when any
      step of the lookup raises. */
  function OffenderIp(data: Json): (r: Option<Json>)
    ensures r.Some? ==>
      && data.JObj?
      && Lookup(data.fields, "backlog").Some?
      && var backlog := Lookup(data.fields, "backlog").value;
      && backlog.JArr? && |backlog.items| > 0 && backlog.items[0].JObj?
      && Lookup(backlog.items[0].fields, "fields").Some?
      && var fields := Lookup(backlog.items[0].fields, "fields").value;
      && fields.JObj? && Lookup(fields.fields, "ssh_invalid_user_ip") == r
  {
    match Member(data, "backlog")
    case None => None
    case Some(backlog) =>
      match First(backlog)
      case None => None
      case Some(alert) =>
        match Member(alert, "fields")
        case None => None
        case Some(fields) => Member(fields, "ssh_invalid_user_ip")
  }

  /** The address object's name for a banned address. */
  function AddressName(ip: string): string
  {
    "auto-" + ip
  }

  /** The single-host subnet for a banned address. */
  function Subnet(ip: string): string
  {
    ip + "/32"
  }

  /** Names and subnets are stable and unique per address: equal derived
      values come from equal addresses. */
  lemma DerivedNamesInjective(a: string, b: string)
    ensures AddressName(a) == AddressName(b) <==> a == b
    ensures Subnet(a) == Subnet(b) <==> a == b
    ensures AddressName(a)[..5] == "auto-" && AddressName(a)[5..] == a
  {
    if AddressName(a) == AddressName(b) {
      assert a == AddressName(a)[5..] && b == AddressName(b)[5..];
    }
    if Subnet(a) == Subnet(b) {
      assert a == Subnet(a)[..|a|] && b == Subnet(b)[..|b|];
    }
  }

  /** The ban sequence, given the decoded body (None: the body did not
      decode) and what each of the three firewall calls would give back:
      create, then read, then replace, stopping at the first failure. */
  function Ban(body: Option<Json>, post: CallOutcome<int>, get: CallOutcome<GroupResponse>,
               put: CallOutcome<int>): Run
  {
    var bad := Run(RouteError(400, WrongInput), []);
    if body.None? then bad
    else match OffenderIp(body.value)
      case None => bad
      case Some(v) =>
        var name := AddressName(Str(v));
        var created := [CreateCall(name, Subnet(Str(v)))];
        var read := created + [ReadCall(GroupName)];
        if CreateAddress(post).Raise? then Run(RouteError(500, FirewallFailed), created)
        else match ReadGroup(get)
          case Raise => Run(RouteError(500, FirewallFailed), read)
          case Ok(value) =>
            match MembershipPayload(value, name)
            case None => Run(RouteError(500, FirewallFailed), read)
            case Some(payload) =>
              var all := read + [ReplaceCall(GroupName, payload)];
              if ReplaceGroup(value, name, put).Raise? then Run(RouteError(500, FirewallFailed), all)
              else Run(RouteSuccess(Updated), all)
  }

  /** The input is usable: it decodes and holds the offending address. */
  predicate UsableInput(body: Option<Json>)
  {
    body.Some? && OffenderIp(body.value).Some?
  }

  /** The offending address as it is written into the derived names. */
  function Offender(body: Option<Json>): string
    requires UsableInput(body)
  {
    Str(OffenderIp(body.value).value)
  }

  /** A body that does not decode, or lacks the address, gives 400 "Wrong
      input parameters" and issues no firewall call; a usable one never
      gives 400. */
  lemma MalformedInputRejected(body: Option<Json>, post: CallOutcome<int>,
                               get: CallOutcome<GroupResponse>, put: CallOutcome<int>)
    ensures !UsableInput(body) <==> Ban(body, post, get, put).reply.status == 400
    ensures !UsableInput(body) ==>
            Ban(body, post, get, put) == Run(RouteError(400, WrongInput), [])
  {
  }

  /** The calls are issued in the order create, read, replace, each only
      after the previous one succeeded, with the derived name, subnet,
      fixed group and built payload. */
  lemma CallOrder(body: Option<Json>, post: CallOutcome<int>, get: CallOutcome<GroupResponse>,
                  put: CallOutcome<int>)
    requires UsableInput(body)
    ensures var r := Ban(body, post, get, put);
      && 1 <= |r.calls| <= 3
      && r.calls[0] == CreateCall(AddressName(Offender(body)), Subnet(Offender(body)))
      && (|r.calls| >= 2 <==> post.Ok?)
      && (|r.calls| >= 2 ==> r.calls[1] == ReadCall(GroupName))
      && (|r.calls| == 3 <==> post.Ok? && ReadGroup(get).Ok?
                               && MembershipPayload(ReadGroup(get).payload, AddressName(Offender(body))).Some?)
      && (|r.calls| == 3 ==>
            r.calls[2] == ReplaceCall(GroupName,
                            MembershipPayload(ReadGroup(get).payload, AddressName(Offender(body))).value))
  {
  }

  /** Success is 200 exactly when all three calls went through; any
      failure aborts with 500 and the calls issued before it stay issued
      (no rollback). */
  lemma AbortOnFirstFailure(body: Option<Json>, post: CallOutcome<int>, get: CallOutcome<GroupResponse>,
                            put: CallOutcome<int>)
    requires UsableInput(body)
    ensures var r := Ban(body, post, get, put);
      && (r.reply.status == 200 <==> |r.calls| == 3 && put.Ok?)
      && (r.reply.status == 200 ==> r.reply == RouteSuccess(Updated))
      && (r.reply.status != 200 ==> r.reply == RouteError(500, FirewallFailed))
  {
  }

  /** The create call's status is ignored: a duplicate object (status 500)
      is as good as a fresh one. */
  lemma DuplicateCreateIgnored(body: Option<Json>, s1: int, s2: int, get: CallOutcome<GroupResponse>,
                               put: CallOutcome<int>)
    ensures Ban(body, Ok(s1), get, put) == Ban(body, Ok(s2), get, put)
  {
  }

  /** A group read with more than one result, or with none, aborts with 500
      after the read and before any replace. */
  lemma UnusableGroupAborts(body: Option<Json>, post: CallOutcome<int>, response: GroupResponse,
                            put: CallOutcome<int>)
    requires UsableInput(body) && post.Ok?
    requires response.results.Some? && |response.results.value| != 1
    ensures Ban(body, post, Ok(response), put) ==
            Run(RouteError(500, FirewallFailed),
                [CreateCall(AddressName(Offender(body)), Subnet(Offender(body))), ReadCall(GroupName)])
  {
  }

  /** The member list a later read returns after a replace with `payload`. */
  function AsMembers(payload: seq<NameRef>): (ms: seq<MemberObject>)
    ensures |ms| == |payload|
    ensures forall j :: 0 <= j < |ms| ==> ms[j] == map["name" := payload[j].name]
  {
    seq(|payload|, j requires 0 <= j < |payload| => map["name" := payload[j].name])
  }

  /** Banning the same address twice: the second run also succeeds (the
      duplicate create is tolerated) and, since the membership is not
      deduplicated, its payload names the address object twice. */
  lemma RepeatedBan(body: Option<Json>, post1: CallOutcome<int>, get1: CallOutcome<GroupResponse>,
                    put: CallOutcome<int>, status2: int)
    requires UsableInput(body) && put.Ok?
    requires Ban(body, post1, get1, put).reply.status == 200
    ensures var first := Ban(body, post1, get1, put);
      |first.calls| == 3 &&
      var again := GroupResponse(Some([GroupResult(Some(AsMembers(first.calls[2].members)))]));
      var second := Ban(body, Ok(status2), Ok(again), put);
      && second.reply.status == 200
      && |second.calls| == 3
      && multiset(second.calls[2].members)[NameRef(AddressName(Offender(body)))] >= 2
  {
    var name := AddressName(Offender(body));
    AbortOnFirstFailure(body, post1, get1, put);
    CallOrder(body, post1, get1, put);
    var first := Ban(body, post1, get1, put);
    var p := first.calls[2].members;
    PayloadContents(ReadGroup(get1).payload.members, name);
    var ms := AsMembers(p);
    NoDeduplication(ms, name, |p| - 1);
    var again := GroupResponse(Some([GroupResult(Some(ms))]));
    CallOrder(body, Ok(status2), Ok(again), put);
    AbortOnFirstFailure(body, Ok(status2), Ok(again), put);
  }

  /** An alert in the documented shape yields the address it carries. */
  lemma AlertShape(ip: string, other: seq<(string, Json)>)
    ensures var alert := JObj([("backlog", JArr([JObj([("fields", JObj([("ssh_invalid_user_ip", JStr(ip))]))])]))] + other);
      OffenderIp(alert) == Some(JStr(ip)) && Str(JStr(ip)) == ip
  {
  }

  /** Any decoded alert whose `backlog` list starts with a dictionary whose
      `fields` dictionary holds `ssh_invalid_user_ip` yields that value,
      whatever other members the three dictionaries hold and in whatever
      order. */
  lemma OffenderIpFound(top: seq<(string, Json)>, alert: seq<(string, Json)>, rest: seq<Json>,
                        fields: seq<(string, Json)>, v: Json)
    requires DistinctKeys(top) && ("backlog", JArr([JObj(alert)] + rest)) in top
    requires DistinctKeys(alert) && ("fields", JObj(fields)) in alert
    requires DistinctKeys(fields) && ("ssh_invalid_user_ip", v) in fields
    ensures OffenderIp(JObj(top)) == Some(v)
  {
  }

  /** The autoban handler body: decode, extract, then create, read and
      replace with an early return at the first failure. */
  method Autoban(body: Option<Json>, post: CallOutcome<int>, get: CallOutcome<GroupResponse>,
                 put: CallOutcome<int>) returns (reply: Reply, calls: seq<Call>)
    ensures Run(reply, calls) == Ban(body, post, get, put)
  {
    calls := [];
    if body.None? {
      return RouteError(400, WrongInput), calls;
    }
    var ipValue := OffenderIp(body.value);
    if ipValue.None? {
      return RouteError(400, WrongInput), calls;
    }
    var addressName := AddressName(Str(ipValue.value));
    var subnet := Subnet(Str(ipValue.value));

    calls := calls + [CreateCall(addressName, subnet)];
    var created := CreateAddress(post);
    if created.Raise? {
      return RouteError(500, FirewallFailed), calls;
    }
    calls := calls + [ReadCall(GroupName)];
    var members := ReadGroup(get);
    if members.Raise? {
      return RouteError(500, FirewallFailed), calls;
    }
    var payload := BuildMembership(members.payload, addressName);
    if payload.None? {
      return RouteError(500, FirewallFailed), calls;
    }
    calls := calls + [ReplaceCall(GroupName, payload.value)];
    if put.Raise? {
      return RouteError(500, FirewallFailed), calls;
    }
    return RouteSuccess(Updated), calls;
  }

  // ---------------------------------------------------------------------
  // The routes behind the gate

  /** GET `/forti_api/v1/auth`: the gate, then a fixed confirmation. */
  function ServeAuth(reg: seq<Principal>, header: Option<string>, addr: Option<string>): Reply
  {
    Respond(Gate(reg, header, AuthPath, addr, Returned(RouteSuccess(AuthPassed))))
  }

  /** POST `/forti_api/v1/autoban`: the gate, then the ban sequence. The
      handler's calls happen only when the gate runs it. */
  function ServeAutoban(reg: seq<Principal>, header: Option<string>, addr: Option<string>,
                        body: Option<Json>, post: CallOutcome<int>, get: CallOutcome<GroupResponse>,
                        put: CallOutcome<int>): Run
  {
    var run := Ban(body, post, get, put);
    var d := Gate(reg, header, AutobanPath, addr, Returned(run.reply));
    Run(Respond(d), if d.Admitted? then run.calls else [])
  }

  /** The auth route answers 200 exactly when the gate admits, and 401
      otherwise. */
  lemma AuthRouteStatus(reg: seq<Principal>, header: Option<string>, addr: Option<string>)
    ensures var d := Gate(reg, header, AuthPath, addr, Returned(RouteSuccess(AuthPassed)));
      (ServeAuth(reg, header, addr).status == 200 <==> d.Admitted?)
      && (!d.Admitted? ==> ServeAuth(reg, header, addr).status == 401)
      && (d.Admitted? ==> ServeAuth(reg, header, addr) == RouteSuccess(AuthPassed))
  {
    var handler := Returned(RouteSuccess(AuthPassed));
    var d := Gate(reg, header, AuthPath, addr, handler);
    if d.Admitted? {
      AdmissionRule(reg, header, AuthPath, addr, handler, d.entry, d.via, d.reply);
    }
  }

  /** The gate guards the firewall: a refused request gets 401 and issues
      no call, and any call issued means some entry granted the autoban
      path to this key or this address. */
  lemma GateGuardsFirewall(reg: seq<Principal>, header: Option<string>, addr: Option<string>,
                           body: Option<Json>, post: CallOutcome<int>, get: CallOutcome<GroupResponse>,
                           put: CallOutcome<int>)
    ensures var r := ServeAutoban(reg, header, addr, body, post, get, put);
      var d := Gate(reg, header, AutobanPath, addr, Returned(Ban(body, post, get, put).reply));
      && (!d.Admitted? ==> r.calls == [] && r.reply.status == 401)
      && (r.calls != [] ==>
            exists i :: 0 <= i < |reg| &&
              (KeyAdmits(reg[i], PresentedKey(header), AutobanPath) || AddrAdmits(reg[i], addr, AutobanPath)))
  {
    var handler := Returned(Ban(body, post, get, put).reply);
    var d := Gate(reg, header, AutobanPath, addr, handler);
    if d.Admitted? {
      AdmissionRule(reg, header, AutobanPath, addr, handler, d.entry, d.via, d.reply);
    }
  }
}
