/** Member roles of an organization: the closed set of role names, the
    option list offered by the UI, and the numeric rank of each role. */
module OrganizationTypes {
  import opened Optional

  datatype MemberRole = Owner | Admin | Member

  function RoleName(r: MemberRole): string {
    match r
    case Owner => "owner"
    case Admin => "admin"
    case Member => "member"
  }

  function ParseRole(s: string): (r: Option<MemberRole>)
    ensures r.Some? ==> RoleName(r.value) == s
    ensures r.None? ==> forall m: MemberRole :: RoleName(m) != s
  {
    if s == "owner" then Some(Owner)
    else if s == "admin" then Some(Admin)
    else if s == "member" then Some(Member)
    else None
  }

  /** An entry of the role picker: the role's name and its label. */
  datatype RoleOption = RoleOption(value: string, displayLabel: string)

  const Roles: seq<RoleOption> := [
    RoleOption("owner", "Owner"),
    RoleOption("admin", "Admin"),
    RoleOption("member", "Member")
  ]

  /** The rank of each role name. */
  const RoleHierarchy: map<string, int> := map["owner" := 3, "admin" := 2, "member" := 1]

  /** The role names the picker offers, in order. */
  function RoleValues(): (vs: seq<string>)
    ensures vs == [RoleName(Owner), RoleName(Admin), RoleName(Member)]
  {
    var vs := seq(|Roles|, i requires 0 <= i < |Roles| => Roles[i].value);
    assert vs == ["owner", "admin", "member"];
    vs
  }

  /** The picker lists every role exactly once, owner first and member last,
      and nothing else. */
  lemma RolesListEveryRoleOnce()
    ensures |RoleValues()| == |Roles| && forall i :: 0 <= i < |Roles| ==> RoleValues()[i] == Roles[i].value
    ensures forall v :: v in RoleValues() <==> ParseRole(v).Some?
    ensures forall i, j :: 0 <= i < j < |Roles| ==> Roles[i].value != Roles[j].value
  {
    assert RoleValues() == ["owner", "admin", "member"];
  }

  /** Exactly the role names are ranked; every role has a positive rank, and
      the ranks are strictly ordered owner > admin > member. */
  lemma HierarchyRanksEveryRole()
    ensures forall s :: s in RoleHierarchy <==> ParseRole(s).Some?
    ensures forall m: MemberRole :: RoleName(m) in RoleHierarchy && RoleHierarchy[RoleName(m)] > 0
    ensures RoleHierarchy[RoleName(Owner)] > RoleHierarchy[RoleName(Admin)] > RoleHierarchy[RoleName(Member)]
  {
  }
}
