/** The role policy of `User.has_permission` and `User.can_manage_tabs`.
    Roles and actions stay strings, compared with Python's `==`, so unknown
    roles and unknown action names are part of the model. */
module Permissions {
  import opened Values

  /** The three roles the user model offers as choices. */
  datatype Role = Director | Scientist | Staff

  /** The four actions the views ask about. */
  datatype Action = View | Add | Edit | Delete

  function RoleOf(role: string): Option<Role> {
    if role == "director" then Some(Director)
    else if role == "scientist" then Some(Scientist)
    else if role == "staff" then Some(Staff)
    else None
  }

  function ActionOf(action: string): Option<Action> {
    if action == "view" then Some(View)
    else if action == "add" then Some(Add)
    else if action == "edit" then Some(Edit)
    else if action == "delete" then Some(Delete)
    else None
  }

  /** The policy as a table, one entry per (role, action) pair. */
  function Table(r: Role, a: Action): bool {
    match (r, a)
    case (Director, View) => true
    case (Director, Add) => true
    case (Director, Edit) => true
    case (Director, Delete) => true
    case (Scientist, View) => true
    case (Scientist, Add) => true
    case (Scientist, Edit) => true
    case (Scientist, Delete) => false
    case (Staff, View) => true
    case (Staff, Add) => true
    case (Staff, Edit) => false
    case (Staff, Delete) => false
  }

  /** How much a role may do, for comparing roles. */
  function Rank(r: Role): nat {
    match r
    case Staff => 0
    case Scientist => 1
    case Director => 2
  }

  /** `User.has_permission(action, department, tab)`. The department and tab
      are received and never consulted. */
  function HasPermission(role: string, action: string, department: Option<nat>, tab: Option<nat>): (granted: bool)
    ensures RoleOf(role).None? ==> !granted
    ensures RoleOf(role).Some? && ActionOf(action).Some? ==>
              granted == Table(RoleOf(role).value, ActionOf(action).value)
    ensures RoleOf(role).Some? && ActionOf(action).None? ==>
              granted == (RoleOf(role).value != Staff)
  {
    if role == "director" then true
    else if role == "scientist" then action != "delete"
    else if role == "staff" then action in ["view", "add"]
    else false
  }

  /** `User.can_manage_tabs()`: gates department and tab creation, rename and
      deletion. */
  function CanManageTabs(role: string): (allowed: bool)
    ensures allowed <==> RoleOf(role) == Some(Director) || RoleOf(role) == Some(Scientist)
  {
    role in ["director", "scientist"]
  }

  /** A director is granted every action, named or not. */
  lemma DirectorMayDoAnything(action: string, d: Option<nat>, t: Option<nat>)
    ensures HasPermission("director", action, d, t)
  {
  }

  /** A scientist is granted everything except `delete`. */
  lemma ScientistAllButDelete(action: string, d: Option<nat>, t: Option<nat>)
    ensures HasPermission("scientist", action, d, t) <==> action != "delete"
  {
  }

  /** Staff are granted exactly `view` and `add`. */
  lemma StaffViewAndAddOnly(action: string, d: Option<nat>, t: Option<nat>)
    ensures HasPermission("staff", action, d, t) <==> action == "view" || action == "add"
  {
  }

  /** Any other role string, including a differently cased known one, is
      denied everything. */
  lemma UnknownRoleDenied(role: string, action: string, d: Option<nat>, t: Option<nat>)
    requires role != "director" && role != "scientist" && role != "staff"
    ensures !HasPermission(role, action, d, t)
  {
  }

  /** The decision depends on (role, action) alone. */
  lemma IgnoresDepartmentAndTab(role: string, action: string, d1: Option<nat>, t1: Option<nat>, d2: Option<nat>, t2: Option<nat>)
    ensures HasPermission(role, action, d1, t1) == HasPermission(role, action, d2, t2)
  {
  }

  /** A higher role may do whatever a lower one may. */
  lemma Monotonic(lo: Role, hi: Role, action: string, d: Option<nat>, t: Option<nat>)
    requires Rank(lo) <= Rank(hi)
    ensures HasPermission(RoleName(lo), action, d, t) ==> HasPermission(RoleName(hi), action, d, t)
  {
    RoleNameRoundTrip(lo);
    RoleNameRoundTrip(hi);
  }

  /** An action outside the four names: director and scientist are granted,
      staff denied. */
  lemma UnnamedAction(action: string, d: Option<nat>, t: Option<nat>)
    requires ActionOf(action).None?
    ensures HasPermission("director", action, d, t)
    ensures HasPermission("scientist", action, d, t)
    ensures !HasPermission("staff", action, d, t)
  {
  }

  function RoleName(r: Role): string {
    match r
    case Director => "director"
    case Scientist => "scientist"
    case Staff => "staff"
  }

  lemma RoleNameRoundTrip(r: Role)
    ensures RoleOf(RoleName(r)) == Some(r)
  {
  }
}
