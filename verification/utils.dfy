/**
 * Ownership and lookup helpers (modules/base/utils.py). Discord members,
 * servers and roles are reduced to the identifiers and names the helpers read.
 */
module Utils {
  import opened Wrappers
  import Text

  datatype Role = Role(id: string, name: string)
  datatype Member = Member(id: string, roles: seq<Role>)
  datatype Server = Server(id: string, roles: seq<Role>)

  /**
   * The owner-role setting as a list: the empty setting is the empty list,
   * any other setting is split on line breaks.
   */
  function OwnerRoleList(setting: string): (r: seq<string>)
    ensures setting == "" <==> r == []
    ensures setting != "" ==> Text.Join("\n", r) == setting
    ensures forall i :: 0 <= i < |r| ==> '\n' !in r[i]
  {
    if setting == "" then []
    else
      Text.JoinSplit(setting, '\n');
      Text.Split(setting, '\n')
  }

  /** One role grants ownership (the test inside the loop over the member's roles). */
  predicate RoleGrants(role: Role, owners: seq<string>, memberId: string) {
    role.id in owners || role.name in owners || memberId in owners
  }

  /** The loop over `member.roles`: true as soon as one role grants ownership. */
  function AnyRoleGrants(roles: seq<Role>, owners: seq<string>, memberId: string): (r: bool)
    ensures r <==> (exists i :: 0 <= i < |roles| && (roles[i].id in owners || roles[i].name in owners))
                   || (memberId in owners && |roles| > 0)
  {
    if roles == [] then false
    else RoleGrants(roles[0], owners, memberId) || AnyRoleGrants(roles[1..], owners, memberId)
  }

  /**
   * `is_owner`. `botOwners` is the configured `bot_owners` list, `None` when
   * the configuration has no such key. `serverId` is the server's id, `None`
   * outside a server. `serverSetting` is the server's own `owner_roles`
   * setting, `None` when the server has none. `ownerRoleDefault` is the global
   * `owner_role`, `None` when the configuration has no such key. The answer is
   * `None` where the source raises `KeyError`: a missing `bot_owners`, or a
   * missing `owner_role` once the server setting is looked up, because the
   * default is evaluated before the lookup whether or not it is needed.
   */
  function IsOwner(botOwners: Option<seq<string>>, member: Member, serverId: Option<string>,
                   serverSetting: Option<string>, ownerRoleDefault: Option<string>): (r: Option<bool>)
    ensures botOwners.None? ==> r.None?
    ensures botOwners.Some? && member.id in botOwners.value ==> r == Some(true)
    ensures botOwners.Some? && member.id !in botOwners.value && serverId.None? ==> r == Some(false)
    ensures botOwners.Some? && member.id !in botOwners.value && serverId.Some? && ownerRoleDefault.None? ==> r.None?
    ensures botOwners.Some? && member.id !in botOwners.value && serverId.Some? && ownerRoleDefault.Some? ==>
      var owners := OwnerRoleList(serverSetting.GetOr(ownerRoleDefault.value));
      r.Some? &&
      (r.value <==> (exists i :: 0 <= i < |member.roles| &&
                      (member.roles[i].id in owners || member.roles[i].name in owners))
                    || (member.id in owners && |member.roles| > 0))
  {
    match botOwners
    case None => None
    case Some(bots) =>
      if member.id in bots then Some(true)
      else if serverId.None? then Some(false)
      else if ownerRoleDefault.None? then None
      else Some(AnyRoleGrants(member.roles, OwnerRoleList(serverSetting.GetOr(ownerRoleDefault.value)), member.id))
  }

  /** A member listed by id is an owner only when it has at least one role. */
  lemma MemberIdNeedsARole(bots: seq<string>, member: Member, serverId: Option<string>,
                           serverSetting: Option<string>, ownerRoleDefault: string)
    requires member.id !in bots
    requires member.roles == []
    ensures IsOwner(Some(bots), member, serverId, serverSetting, Some(ownerRoleDefault)) == Some(false)
  {
  }

  /** An empty owner-role setting grants nothing beyond `bot_owners`. */
  lemma EmptySettingGrantsNothing(bots: seq<string>, member: Member, serverId: Option<string>,
                                  serverSetting: Option<string>, ownerRoleDefault: string)
    requires serverSetting.GetOr(ownerRoleDefault) == ""
    ensures IsOwner(Some(bots), member, serverId, serverSetting, Some(ownerRoleDefault)) == Some(member.id in bots)
  {
  }

  /**
   * A server's own `owner_roles` replaces the global `owner_role`, but does
   * not save the lookup: without a global `owner_role`, asking about a member
   * who is not a bot owner, in a server, raises.
   */
  lemma ServerSettingNeedsGlobalDefault(bots: seq<string>, member: Member, serverId: string,
                                        serverSetting: string, ownerRoleDefault: string)
    ensures member.id !in bots ==> IsOwner(Some(bots), member, Some(serverId), Some(serverSetting), None).None?
    ensures IsOwner(Some(bots), member, Some(serverId), Some(serverSetting), Some(ownerRoleDefault))
         == IsOwner(Some(bots), member, Some(serverId), None, Some(serverSetting))
  {
  }

  predicate RoleMatches(r: Role, query: string) {
    r.name == query || r.id == query
  }

  /** `get_server_role`: the first role of the server, in server order, whose name or id is `query`. */
  method GetServerRole(server: Server, query: string) returns (r: Option<Role>)
    ensures r.Some? ==> RoleMatches(r.value, query)
    ensures r.Some? ==> exists i :: 0 <= i < |server.roles| && server.roles[i] == r.value
                          && forall j :: 0 <= j < i ==> !RoleMatches(server.roles[j], query)
    ensures r.None? <==> forall i :: 0 <= i < |server.roles| ==> !RoleMatches(server.roles[i], query)
  {
    var k := 0;
    while k < |server.roles|
      invariant 0 <= k <= |server.roles|
      invariant forall j :: 0 <= j < k ==> !RoleMatches(server.roles[j], query)
    {
      if RoleMatches(server.roles[k], query) {
        return Some(server.roles[k]);
      }
      k := k + 1;
    }
    return None;
  }

  /** Reference reading of `unserialize_avail`: each value followed by its key, in mapping order. */
  function Serialized(avails: seq<(string, string)>): string {
    if avails == [] then "" else avails[0].1 + avails[0].0 + Serialized(avails[1..])
  }

  lemma {:induction false} SerializedAppend(a: seq<(string, string)>, b: seq<(string, string)>)
    ensures Serialized(a + b) == Serialized(a) + Serialized(b)
  {
    if a == [] {
      assert a + b == b;
    } else {
      assert (a + b)[0] == a[0];
      assert (a + b)[1..] == a[1..] + b;
      SerializedAppend(a[1..], b);
    }
  }

  /**
   * `unserialize_avail`, with the Python mapping given as its (key, value)
   * items in iteration order.
   */
  method UnserializeAvail(avails: seq<(string, string)>) returns (s: string)
    ensures s == Serialized(avails)
    ensures avails == [] ==> s == ""
  {
    s := "";
    var k := 0;
    while k < |avails|
      invariant 0 <= k <= |avails|
      invariant s == Serialized(avails[..k])
    {
      var (key, value) := avails[k];
      SerializedAppend(avails[..k], [avails[k]]);
      assert avails[..k + 1] == avails[..k] + [avails[k]];
      s := s + value + key;
      k := k + 1;
    }
    assert avails[..k] == avails;
  }
}
