/** The three firewall calls: `get_addressgroup`, `create_address` and
    `add_to_addressgroup`. The HTTP exchange itself is abstracted to the
    outcome each call hands back. */
module Firewall {
  import opened Wrappers

  /** An element of a group's `member` list as the firewall returns it: a
      dictionary whose `name` key names an address object. */
  type MemberObject = map<string, string>

  /** One element of the GET response's `results` list. */
  datatype GroupResult = GroupResult(member: Option<seq<MemberObject>>)

  /** The decoded GET response body: its `results` list, if present. */
  datatype GroupResponse = GroupResponse(results: Option<seq<GroupResult>>)

  /** What `get_addressgroup` returns: `False` when the group name is
      ambiguous, otherwise the single result's member list. */
  datatype GroupValue = NotUnique | Members(members: seq<MemberObject>)

  /** One element of the PUT payload's `member` list: `{"name": ...}`. */
  datatype NameRef = NameRef(name: string)

  /** `get_addressgroup`: more than one result is ambiguous; exactly one
      gives its member list; none, or a missing `results` or `member` key,
      raises (IndexError / KeyError), as does the GET itself. */
  function ReadGroup(get: CallOutcome<GroupResponse>): (r: CallOutcome<GroupValue>)
    ensures r == Ok(NotUnique) <==>
            get.Ok? && get.payload.results.Some? && |get.payload.results.value| > 1
    ensures r.Ok? && r.payload.Members? <==>
            get.Ok? && get.payload.results.Some? && |get.payload.results.value| == 1
            && get.payload.results.value[0].member.Some?
    ensures r.Ok? && r.payload.Members? ==>
            r.payload.members == get.payload.results.value[0].member.value
    ensures get.Ok? && get.payload.results == Some([]) ==> r.Raise?
  {
    match get
    case Raise => Raise
    case Ok(response) =>
      match response.results
      case None => Raise
      case Some(results) =>
        if |results| > 1 then Ok(NotUnique)
        else if |results| == 0 then Raise
        else match results[0].member
          case None => Raise
          case Some(ms) => Ok(Members(ms))
  }

  /** `create_address`: the POST's HTTP status is ignored (an existing
      object gives 500 and still counts as created); only an exception
      from the POST itself propagates. */
  function CreateAddress(post: CallOutcome<int>): (r: CallOutcome<bool>)
    ensures post.Ok? ==> r == Ok(true)
    ensures post.Raise? ==> r.Raise?
  {
    match post
    case Ok(_) => Ok(true)
    case Raise => Raise
  }

  /** The `name` of each member in order; None when one lacks it (KeyError). */
  function Names(ms: seq<MemberObject>): Option<seq<NameRef>>
  {
    if ms == [] then Some([])
    else if "name" !in ms[0] then None
    else match Names(ms[1..])
      case None => None
      case Some(rest) => Some([NameRef(ms[0]["name"])] + rest)
  }

  /** The PUT payload's member list, or None when building it raises:
      iterating `False` (an ambiguous group) is a TypeError, and a member
      without `name` a KeyError. */
  function MembershipPayload(v: GroupValue, newMember: string): Option<seq<NameRef>>
  {
    match v
    case NotUnique => None
    case Members(ms) =>
      match Names(ms)
      case None => None
      case Some(names) => Some(names + [NameRef(newMember)])
  }

  /** Names succeeds exactly when every member has a name, and then keeps
      each member's name, in order, and nothing else. */
  lemma {:induction false} NamesContents(ms: seq<MemberObject>)
    ensures Names(ms).Some? <==> forall j :: 0 <= j < |ms| ==> "name" in ms[j]
    ensures Names(ms).Some? ==>
            |Names(ms).value| == |ms|
            && forall j :: 0 <= j < |ms| ==> Names(ms).value[j] == NameRef(ms[j]["name"])
  {
    if ms != [] {
      NamesContents(ms[1..]);
      assert forall j :: 1 <= j < |ms| ==> ms[j] == ms[1..][j - 1];
    }
  }

  /** The payload is the existing member names in order followed by the new
      name: one longer than the member list, ending with the new name. */
  lemma PayloadContents(ms: seq<MemberObject>, newMember: string)
    ensures MembershipPayload(Members(ms), newMember).Some? <==>
            forall j :: 0 <= j < |ms| ==> "name" in ms[j]
    ensures var p := MembershipPayload(Members(ms), newMember);
      p.Some? ==>
        && |p.value| == |ms| + 1
        && (forall j :: 0 <= j < |ms| ==> p.value[j] == NameRef(ms[j]["name"]))
        && p.value[|ms|] == NameRef(newMember)
  {
    NamesContents(ms);
  }

  /** No deduplication: a new name that some member already has ends up in
      the payload twice. */
  lemma NoDeduplication(ms: seq<MemberObject>, newMember: string, j: nat)
    requires j < |ms| && "name" in ms[j] && ms[j]["name"] == newMember
    requires forall k :: 0 <= k < |ms| ==> "name" in ms[k]
    ensures var p := MembershipPayload(Members(ms), newMember);
      p.Some? && |p.value| == |ms| + 1
      && p.value[j] == p.value[|ms|] == NameRef(newMember)
      && multiset(p.value)[NameRef(newMember)] >= 2
  {
    PayloadContents(ms, newMember);
    var p := MembershipPayload(Members(ms), newMember).value;
    TwiceInMultiset(p, j, |ms|);
  }

  /** Two positions holding the same element count twice in the multiset. */
  lemma TwiceInMultiset<T>(s: seq<T>, i: nat, k: nat)
    requires i < k < |s| && s[i] == s[k]
    ensures multiset(s)[s[k]] >= 2
  {
    assert s == s[..i] + [s[i]] + s[i + 1..k] + [s[k]] + s[k + 1..];
  }

  /** An ambiguous group never yields a payload, so no PUT is sent. */
  lemma AmbiguousHasNoPayload(newMember: string)
    ensures MembershipPayload(NotUnique, newMember).None?
  {
  }

  /** The loop of `add_to_addressgroup` that builds the list `l`. */
  method BuildMembership(v: GroupValue, newMember: string) returns (r: Option<seq<NameRef>>)
    ensures r == MembershipPayload(v, newMember)
  {
    if v.NotUnique? {
      return None;
    }
    var members := v.members;
    NamesContents(members);
    var l: seq<NameRef> := [];
    var i := 0;
    while i < |members|
      invariant i <= |members|
      invariant forall j :: 0 <= j < i ==> "name" in members[j]
      invariant |l| == i
      invariant forall j :: 0 <= j < i ==> l[j] == NameRef(members[j]["name"])
    {
      if "name" !in members[i] {
        return None;
      }
      l := l + [NameRef(members[i]["name"])];
      i := i + 1;
    }
    l := l + [NameRef(newMember)];
    PayloadContents(members, newMember);
    assert l == MembershipPayload(v, newMember).value;
    return Some(l);
  }

  /** `add_to_addressgroup`: raises when the payload cannot be built (no PUT
      is sent) or when the PUT raises; the PUT's status is printed and
      otherwise ignored. */
  function ReplaceGroup(v: GroupValue, newMember: string, put: CallOutcome<int>): (r: CallOutcome<bool>)
    ensures r.Ok? <==> MembershipPayload(v, newMember).Some? && put.Ok?
    ensures r.Ok? ==> r.payload
  {
    if MembershipPayload(v, newMember).None? then Raise
    else match put
      case Ok(_) => Ok(true)
      case Raise => Raise
  }
}
