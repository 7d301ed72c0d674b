/** The access-control list of a stream: five role arrays, each of which may
    be null, fixed at construction. */
module StreamAcls {
  import opened Wrappers
  import Text

  /** Readonly fields; `None` stands for a null array. */
  datatype StreamAcl = StreamAcl(
    readRoles: Option<seq<string>>,
    writeRoles: Option<seq<string>>,
    deleteRoles: Option<seq<string>>,
    metaReadRoles: Option<seq<string>>,
    metaWriteRoles: Option<seq<string>>)

  /** A null role becomes a null array, any other role a one-element array. */
  function SingleRole(role: Option<string>): (roles: Option<seq<string>>)
    ensures role.None? <==> roles.None?
    ensures role.Some? ==> roles.value == [role.value]
  {
    match role
    case None => None
    case Some(r) => Some([r])
  }

  /** The array constructor stores the five arrays as given. */
  function FromRoleArrays(readRoles: Option<seq<string>>, writeRoles: Option<seq<string>>,
                          deleteRoles: Option<seq<string>>, metaReadRoles: Option<seq<string>>,
                          metaWriteRoles: Option<seq<string>>): (acl: StreamAcl)
    ensures acl.readRoles == readRoles && acl.writeRoles == writeRoles
    ensures acl.deleteRoles == deleteRoles
    ensures acl.metaReadRoles == metaReadRoles && acl.metaWriteRoles == metaWriteRoles
  {
    StreamAcl(readRoles, writeRoles, deleteRoles, metaReadRoles, metaWriteRoles)
  }

  /** The single-role constructor, which delegates to the array constructor. */
  function FromRoles(readRole: Option<string>, writeRole: Option<string>, deleteRole: Option<string>,
                     metaReadRole: Option<string>, metaWriteRole: Option<string>): (acl: StreamAcl)
    ensures acl.readRoles.None? <==> readRole.None?
    ensures acl.writeRoles.None? <==> writeRole.None?
    ensures acl.deleteRoles.None? <==> deleteRole.None?
    ensures acl.metaReadRoles.None? <==> metaReadRole.None?
    ensures acl.metaWriteRoles.None? <==> metaWriteRole.None?
    ensures readRole.Some? ==> acl.readRoles == Some([readRole.value])
    ensures writeRole.Some? ==> acl.writeRoles == Some([writeRole.value])
    ensures deleteRole.Some? ==> acl.deleteRoles == Some([deleteRole.value])
    ensures metaReadRole.Some? ==> acl.metaReadRoles == Some([metaReadRole.value])
    ensures metaWriteRole.Some? ==> acl.metaWriteRoles == Some([metaWriteRole.value])
  {
    FromRoleArrays(SingleRole(readRole), SingleRole(writeRole), SingleRole(deleteRole),
      SingleRole(metaReadRole), SingleRole(metaWriteRole))
  }

  /** One array in `ToString`: `<null>`, or its roles joined by commas
      between brackets. */
  function RolesToString(roles: Option<seq<string>>): (s: string)
    ensures roles.None? ==> s == "<null>"
    ensures roles.Some? ==> |s| >= 2 && s[0] == '[' && s[|s| - 1] == ']'
    ensures roles.Some? ==> s[1..|s| - 1] == Text.Join(",", roles.value)
  {
    match roles
    case None => "<null>"
    case Some(xs) => "[" + Text.Join(",", xs) + "]"
  }

  /** A null array and a non-null one never print alike, and a one-role array
      prints as that role between brackets. */
  lemma RolesToStringDistinguishesNull(xs: seq<string>, r: string)
    ensures RolesToString(None) != RolesToString(Some(xs))
    ensures RolesToString(Some([r])) == "[" + r + "]"
  {
    assert RolesToString(None)[0] == '<';
  }

  /** `ToString`: the five arrays, labelled, in the order Read, Write,
      Delete, MetaRead, MetaWrite. */
  function ToString(acl: StreamAcl): string
  {
    "Read: " + RolesToString(acl.readRoles) + ", Write: " + RolesToString(acl.writeRoles)
    + ", Delete: " + RolesToString(acl.deleteRoles) + ", MetaRead: " + RolesToString(acl.metaReadRoles)
    + ", MetaWrite: " + RolesToString(acl.metaWriteRoles)
  }

  /** What an ACL built from single roles prints: each given role between
      brackets, `<null>` for each missing one. */
  lemma FromRolesToString(readRole: Option<string>, writeRole: Option<string>, deleteRole: Option<string>,
                          metaReadRole: Option<string>, metaWriteRole: Option<string>)
    ensures var acl := FromRoles(readRole, writeRole, deleteRole, metaReadRole, metaWriteRole);
      ToString(acl) == "Read: " + RoleText(readRole) + ", Write: " + RoleText(writeRole)
        + ", Delete: " + RoleText(deleteRole) + ", MetaRead: " + RoleText(metaReadRole)
        + ", MetaWrite: " + RoleText(metaWriteRole)
  {
    SingleRoleText(readRole);
    SingleRoleText(writeRole);
    SingleRoleText(deleteRole);
    SingleRoleText(metaReadRole);
    SingleRoleText(metaWriteRole);
  }

  function RoleText(role: Option<string>): string {
    if role.None? then "<null>" else "[" + role.value + "]"
  }

  lemma SingleRoleText(role: Option<string>)
    ensures RolesToString(SingleRole(role)) == RoleText(role)
  {
    if role.Some? {
      RolesToStringDistinguishesNull([], role.value);
    }
  }
}
