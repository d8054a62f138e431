/** The fixed role table of models/role_model.py and its two first-match lookups. */
module RoleModel {
  import opened Wrappers
  import opened Lookup

  datatype Role = Role(roleId: int, roleName: string, permissions: string)

  /** What get_permissions answers for a name that is not in the table. */
  const NoPermissions := "No permissions"

  /** get_all_roles: the same three roles, in this order, on every call. */
  function AllRoles(): (roles: seq<Role>)
    ensures |roles| == 3
    ensures forall i :: 0 <= i < |roles| ==> roles[i].roleId == i + 1
    ensures forall i, j :: 0 <= i < j < |roles| ==> roles[i].roleName != roles[j].roleName
  {
    [ Role(1, "Administrator", "Full access (manage users, edit/delete data)"),
      Role(2, "Investor", "View country profiles, charts, exports, production"),
      Role(3, "Researcher", "View/export mineral & country data, add insights") ]
  }

  function HasRoleId(id: int): Role -> bool {
    (r: Role) => r.roleId == id
  }

  function HasRoleName(name: string): Role -> bool {
    (r: Role) => r.roleName == name
  }

  /** get_role_by_id: the role with that id, for exactly the ids 1, 2 and 3. */
  function GetRoleById(id: int): (r: Option<Role>)
    ensures r.Some? <==> 1 <= id <= 3
    ensures r.Some? ==> r.value == AllRoles()[id - 1] && r.value.roleId == id
  {
    var roles := AllRoles();
    if 1 <= id <= 3 then
      FirstIndexIs(roles, HasRoleId(id), id - 1);
      FindFirst(roles, HasRoleId(id))
    else
      FindFirst(roles, HasRoleId(id))
  }

  /** get_permissions: the permissions of the role named exactly `name`, else the sentinel. */
  function GetPermissions(name: string): (p: string)
    ensures forall i :: 0 <= i < |AllRoles()| && AllRoles()[i].roleName == name ==> p == AllRoles()[i].permissions
    ensures (forall i :: 0 <= i < |AllRoles()| ==> AllRoles()[i].roleName != name) ==> p == NoPermissions
  {
    var roles := AllRoles();
    match FindFirst(roles, HasRoleName(name))
    case Some(role) =>
      assert forall i :: 0 <= i < |roles| && roles[i].roleName == name ==> role == roles[i];
      role.permissions
    case None => NoPermissions
  }

  /** Two lookups by name: Administrator's permissions, and the sentinel for Guest. */
  lemma PermissionsExamples()
    ensures GetPermissions("Administrator") == "Full access (manage users, edit/delete data)"
    ensures GetPermissions("Guest") == NoPermissions
  {
    assert AllRoles()[0].roleName == "Administrator";
  }

  /** Looking a role up by id and then its permissions by name agrees with the table: the names are unique. */
  lemma PermissionsOfRoleById(id: int)
    requires GetRoleById(id).Some?
    ensures GetPermissions(GetRoleById(id).value.roleName) == GetRoleById(id).value.permissions
  {
  }
}
