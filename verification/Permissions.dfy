/** Roles of an organization and what each may do. */
module Permissions {

  datatype Role = Viewer | Member | Manager | Admin | Owner

  datatype Permission =
    | OrgDelete | OrgEdit | OrgView | MembersInvite | MembersRemove | MembersChangeRole | MembersView
    | ConnectorsManage | ConnectorsShare | ConnectorsView | DocumentsManageVisibility | DocumentsViewTeam
    | BriefingsGenerate | BriefingsView | AuditView | SsoManage

  function Rank(r: Role): nat {
    match r
    case Viewer => 0
    case Member => 1
    case Manager => 2
    case Admin => 3
    case Owner => 4
  }

  function Granted(r: Role): set<Permission>
    decreases Rank(r)
  {
    match r
    case Viewer => {OrgView, MembersView, ConnectorsView, DocumentsViewTeam, BriefingsView}
    case Member => Granted(Viewer) + {BriefingsGenerate, DocumentsManageVisibility}
    case Manager => Granted(Member) + {MembersInvite, MembersRemove, ConnectorsManage, ConnectorsShare, AuditView}
    case Admin => Granted(Manager) + {MembersChangeRole, OrgEdit, SsoManage}
    case Owner => Granted(Admin) + {OrgDelete}
  }

  predicate HasPermission(r: Role, p: Permission) {
    p in Granted(r)
  }

  predicate CanAssign(acting: Role, target: Role) {
    if acting == Owner then target != Owner else Rank(acting) > Rank(target)
  }

  /** Ranks order the permissions exactly: one role has all of another's if and only if it does
      not rank below it. */
  lemma RankIsInclusion(a: Role, b: Role)
    ensures Granted(a) <= Granted(b) <==> Rank(a) <= Rank(b)
  {
    assert OrgDelete in Granted(Owner) && OrgDelete !in Granted(Admin);
    assert SsoManage in Granted(Admin) && SsoManage !in Granted(Manager);
    assert AuditView in Granted(Manager) && AuditView !in Granted(Member);
    assert BriefingsGenerate in Granted(Member) && BriefingsGenerate !in Granted(Viewer);
  }

  /** The owner's special case changes nothing: a role can be assigned exactly by higher ones. */
  lemma AssignableIsBelow(acting: Role, target: Role)
    ensures CanAssign(acting, target) <==> Rank(target) < Rank(acting)
  {
  }

  /** The lowest role that has a permission. */
  function LowestWith(p: Permission): Role {
    match p
    case OrgView => Viewer
    case MembersView => Viewer
    case ConnectorsView => Viewer
    case DocumentsViewTeam => Viewer
    case BriefingsView => Viewer
    case BriefingsGenerate => Member
    case DocumentsManageVisibility => Member
    case MembersInvite => Manager
    case MembersRemove => Manager
    case ConnectorsManage => Manager
    case ConnectorsShare => Manager
    case AuditView => Manager
    case MembersChangeRole => Admin
    case OrgEdit => Admin
    case SsoManage => Admin
    case OrgDelete => Owner
  }

  /** A permission is held from one rank upwards, by no role below. */
  lemma HeldFromRank(r: Role, p: Permission)
    ensures HasPermission(r, p) <==> Rank(LowestWith(p)) <= Rank(r)
  {
    assert HasPermission(LowestWith(p), p);
    RankIsInclusion(LowestWith(p), r);
    match r {
      case Viewer =>
      case Member => assert Granted(Viewer) <= Granted(Member);
      case Manager => assert Granted(Member) <= Granted(Manager);
      case Admin => assert Granted(Manager) <= Granted(Admin);
      case Owner =>
    }
  }
}
