/** Organizations, their members and the documents shared with them, through the routes that
    change them. */
module Organizations {
  import opened Options
  import opened Permissions

  /** `creator` is recorded for the statements below; the code does not store it. */
  datatype Org = Org(slug: string, creator: nat)

  datatype Visibility = Private | Team

  datatype Document = Document(owner: nat, visibility: Visibility, org: Option<nat>)

  /** A row of the memberships table is unique by organization and user. */
  type Seat = (nat, nat)

  datatype Action = Added | Removed | RoleChanged

  datatype Entry = Entry(action: Action, acting: nat, seat: Seat, role: Role)

  datatype Tenancy = Tenancy(
    users: set<nat>,
    orgs: map<nat, Org>,
    members: map<Seat, Role>,
    documents: map<nat, Document>,
    audit: seq<Entry>,
    next: nat)

  datatype Op =
    | CreateOrg(acting: nat, slug: string, fallback: string)
    | AddMember(acting: nat, org: nat, user: nat, role: Role)
    | RemoveMember(acting: nat, org: nat, user: nat)
    | ChangeRole(acting: nat, org: nat, user: nat, role: Role)
    | SetVisibility(acting: nat, document: nat, visibility: Visibility, target: Option<nat>)

  datatype Reply = Ok | Forbidden | NotFound | Raised

  /** `require_permission` of the acting user. */
  predicate Permitted(t: Tenancy, org: nat, user: nat, p: Permission) {
    (org, user) in t.members && HasPermission(t.members[(org, user)], p)
  }

  predicate IsOwner(t: Tenancy, org: nat, user: nat) {
    (org, user) in t.members && t.members[(org, user)] == Owner
  }

  predicate SlugTaken(t: Tenancy, slug: string) {
    exists o :: o in t.orgs && t.orgs[o].slug == slug
  }

  function CreationState(t: Tenancy, slug: string, creator: nat): Tenancy {
    t.(orgs := t.orgs[t.next := Org(slug, creator)], members := t.members[(t.next, creator) := Owner],
       next := t.next + 1)
  }

  /** One request.  The route checks the permission and the rank, the service then insists on an
      owner. */
  function Step(t: Tenancy, op: Op): (Tenancy, Reply) {
    match op
    case CreateOrg(acting, slug, fallback) =>
      var used := if SlugTaken(t, slug) then fallback else slug;
      if SlugTaken(t, used) || acting !in t.users then (t, Raised) else (CreationState(t, used, acting), Ok)
    case AddMember(acting, org, user, role) =>
      if !Permitted(t, org, acting, MembersInvite) then (t, Forbidden)
      else if !CanAssign(t.members[(org, acting)], role) then (t, Forbidden)
      else if !IsOwner(t, org, acting) then (t, Forbidden)
      else
        var logged := t.(audit := t.audit + [Entry(Added, acting, (org, user), role)]);
        if (org, user) in t.members then (logged, Ok)
        else if user !in t.users then (t, Raised)
        else (logged.(members := t.members[(org, user) := role]), Ok)
    case RemoveMember(acting, org, user) =>
      if !Permitted(t, org, acting, MembersRemove) then (t, Forbidden)
      else if !IsOwner(t, org, acting) || (org, user) !in t.members then (t, NotFound)
      else (t.(members := t.members - {(org, user)},
               audit := t.audit + [Entry(Removed, acting, (org, user), Member)]), Ok)
    case ChangeRole(acting, org, user, role) =>
      if !Permitted(t, org, acting, MembersChangeRole) then (t, Forbidden)
      else if !CanAssign(t.members[(org, acting)], role) then (t, Forbidden)
      else if !IsOwner(t, org, acting) || (org, user) !in t.members then (t, NotFound)
      else (t.(members := t.members[(org, user) := role],
               audit := t.audit + [Entry(RoleChanged, acting, (org, user), role)]), Ok)
    case SetVisibility(acting, document, visibility, target) =>
      if document !in t.documents || t.documents[document].owner != acting || (visibility.Team? && target.None?)
        then (t, NotFound)
      else if visibility.Team? && target.value !in t.orgs then (t, Raised)
      else
        var shared := if visibility.Team? then target else None;
        (t.(documents := t.documents[document := t.documents[document].(visibility := visibility, org := shared)]), Ok)
  }

  // ---- Owners ---------------------------------------------------------------------------------------------

  function Initial(users: set<nat>, documents: map<nat, Document>): Tenancy {
    Tenancy(users, map[], map[], documents, [], 0)
  }

  function Run(t: Tenancy, ops: seq<Op>): Tenancy {
    if ops == [] then t else Step(Run(t, ops[..|ops| - 1]), ops[|ops| - 1]).0
  }

  ghost predicate Kept(t: Tenancy) {
    && (forall o :: o in t.orgs ==> o < t.next)
    && (forall s :: s in t.members ==> s.0 in t.orgs && s.1 in t.users)
    && (forall s :: s in t.members && t.members[s] == Owner ==> t.orgs[s.0].creator == s.1)
    && (forall o, p :: o in t.orgs && p in t.orgs && t.orgs[o].slug == t.orgs[p].slug ==> o == p)
  }

  lemma StepKeeps(t: Tenancy, op: Op)
    requires Kept(t)
    ensures Kept(Step(t, op).0)
  {
  }

  /** In every reachable state an organization's owners are its creator or nobody, members exist,
      and slugs are unique. */
  lemma {:induction false} RunKeeps(users: set<nat>, documents: map<nat, Document>, ops: seq<Op>)
    ensures Kept(Run(Initial(users, documents), ops))
    decreases |ops|
  {
    if ops != [] {
      RunKeeps(users, documents, ops[..|ops| - 1]);
      StepKeeps(Run(Initial(users, documents), ops[..|ops| - 1]), ops[|ops| - 1]);
    }
  }

  predicate HasOwner(t: Tenancy, org: nat) {
    exists s :: s in t.members && s.0 == org && t.members[s] == Owner
  }

  function SeatsOf(t: Tenancy, org: nat): map<Seat, Role> {
    map s | s in t.members && s.0 == org :: t.members[s]
  }

  /** A request changes seats of one organization only, and none without an owner there. */
  lemma SeatUnchanged(t: Tenancy, op: Op, s: Seat)
    requires Kept(t) && s.0 in t.orgs && !HasOwner(t, s.0)
    ensures s in Step(t, op).0.members <==> s in t.members
    ensures s in t.members ==> Step(t, op).0.members[s] == t.members[s]
  {
    assert !op.CreateOrg? ==> !op.SetVisibility? && op.org == s.0 ==> !IsOwner(t, op.org, op.acting);
  }

  lemma FrozenStep(t: Tenancy, op: Op, org: nat)
    requires Kept(t) && org in t.orgs && !HasOwner(t, org)
    ensures var after := Step(t, op).0;
      SeatsOf(after, org) == SeatsOf(t, org) && org in after.orgs && !HasOwner(after, org)
  {
    var after := Step(t, op).0;
    assert org in after.orgs;
    forall s: Seat | s.0 == org
      ensures s in after.members <==> s in t.members
      ensures s in t.members ==> after.members[s] == t.members[s]
    {
      SeatUnchanged(t, op, s);
    }
    hide Step, Kept;
  }

  /** Once an organization has no owner, its membership never changes again. */
  lemma {:induction false} OwnerlessIsFrozen(t: Tenancy, ops: seq<Op>, org: nat)
    requires Kept(t) && org in t.orgs && !HasOwner(t, org)
    ensures SeatsOf(Run(t, ops), org) == SeatsOf(t, org)
    ensures Kept(Run(t, ops)) && org in Run(t, ops).orgs && !HasOwner(Run(t, ops), org)
    decreases |ops|
  {
    if ops != [] {
      var front := ops[..|ops| - 1];
      OwnerlessIsFrozen(t, front, org);
      FrozenStep(Run(t, front), ops[|ops| - 1], org);
      StepKeeps(Run(t, front), ops[|ops| - 1]);
    }
  }

  /** An organization loses its owner exactly when the owner removes or demotes themself. */
  lemma OwnerLostExactly(t: Tenancy, op: Op, org: nat)
    requires Kept(t) && HasOwner(t, org)
    ensures !HasOwner(Step(t, op).0, org) <==>
      (op.RemoveMember? || op.ChangeRole?) && Step(t, op).1 == Ok && op.org == org && op.user == op.acting
  {
    var s :| s in t.members && s.0 == org && t.members[s] == Owner;
    var after := Step(t, op).0;
    assert forall o :: o in t.members && o.0 == org && t.members[o] == Owner ==> o == s;
    if op.AddMember? || op.RemoveMember? || op.ChangeRole? {
      MembershipStep(t, op);
      MembershipRequestsExactly(t, op);
      hide Step, Kept;
    }
    if s in after.members && after.members[s] == Owner {
      assert HasOwner(after, org);
    }
  }

  /** Though managers and admins hold the permissions the routes ask for, a membership request
      succeeds for an owner only; exactly when it does: */
  lemma MembershipRequestsExactly(t: Tenancy, op: Op)
    requires op.AddMember? || op.RemoveMember? || op.ChangeRole?
    ensures Step(t, op).1 == Ok <==>
      && IsOwner(t, op.org, op.acting)
      && (op.AddMember? ==> op.role != Owner && ((op.org, op.user) in t.members || op.user in t.users))
      && (op.RemoveMember? ==> (op.org, op.user) in t.members)
      && (op.ChangeRole? ==> op.role != Owner && (op.org, op.user) in t.members)
    ensures Step(t, op).1 != Ok ==> Step(t, op).0 == t
  {
    RankIsInclusion(Manager, Owner);
    RankIsInclusion(Admin, Owner);
  }

  lemma RunAppend(t: Tenancy, ops: seq<Op>, op: Op)
    ensures Run(t, ops + [op]) == Step(Run(t, ops), op).0
  {
    assert (ops + [op])[..|ops|] == ops;
  }

  /** A manager may invite and may assign the role, and is refused all the same. */
  lemma ManagerRefused() returns (ops: seq<Op>)
    ensures var t := Run(Initial({0, 1, 2}, map[]), ops);
      && Permitted(t, 0, 1, MembersInvite) && CanAssign(t.members[(0, 1)], Viewer)
      && Step(t, AddMember(1, 0, 2, Viewer)) == (t, Forbidden)
  {
    var start := Initial({0, 1, 2}, map[]);
    var create, promote := CreateOrg(0, "s", "t"), AddMember(0, 0, 1, Manager);
    RunAppend(start, [], create);
    RunAppend(start, [create], promote);
    assert [] + [create] == [create];
    ops := [create] + [promote];
    var founded := Step(start, create).0;
    assert founded.members == map[(0, 0) := Owner] && founded.users == {0, 1, 2};
    MembershipRequestsExactly(founded, promote);
    var t := Step(founded, promote).0;
    assert t.members[(0, 1)] == Manager;
    MembershipRequestsExactly(t, AddMember(1, 0, 2, Viewer));
  }

  lemma CreationExactly(t: Tenancy, acting: nat, slug: string, fallback: string)
    ensures Step(t, CreateOrg(acting, slug, fallback)) ==
      if acting in t.users && (!SlugTaken(t, slug) || !SlugTaken(t, fallback))
      then (CreationState(t, if SlugTaken(t, slug) then fallback else slug, acting), Ok) else (t, Raised)
  {
  }

  // ---- The routes on the tables --------------------------------------------------------------------------

  /** Which roles the routes let through, and to which roles those may lift somebody. */
  lemma RolesLetThrough(t: Tenancy, org: nat, acting: nat)
    ensures Permitted(t, org, acting, MembersInvite) <==>
      (org, acting) in t.members && t.members[(org, acting)] in {Manager, Admin, Owner}
    ensures Permitted(t, org, acting, MembersRemove) <==>
      (org, acting) in t.members && t.members[(org, acting)] in {Manager, Admin, Owner}
    ensures Permitted(t, org, acting, MembersChangeRole) <==>
      (org, acting) in t.members && t.members[(org, acting)] in {Admin, Owner}
  {
    if (org, acting) in t.members {
      HeldFromRank(t.members[(org, acting)], MembersInvite);
      HeldFromRank(t.members[(org, acting)], MembersRemove);
      HeldFromRank(t.members[(org, acting)], MembersChangeRole);
      hide HasPermission;
    }
  }

  lemma LiftedTo(acting: Role, role: Role)
    requires acting in {Admin, Owner}
    ensures CanAssign(acting, role) <==> role != Owner && (role == Admin ==> acting == Owner)
  {
  }

  class Backend {
    const users: set<nat>
    var orgs: map<nat, Org>
    var members: map<Seat, Role>
    var documents: map<nat, Document>
    var audit: seq<Entry>
    var next: nat

    function State(): Tenancy
      reads this
    {
      Tenancy(users, orgs, members, documents, audit, next)
    }

    ghost predicate Valid()
      reads this
    {
      Kept(State())
    }

    constructor (users: set<nat>, documents: map<nat, Document>)
      ensures State() == Initial(users, documents) && Valid()
    {
      this.users, this.documents := users, documents;
      orgs, members, audit, next := map[], map[], [], 0;
    }

    method CreateOrganization(acting: nat, slug: string, fallback: string) returns (reply: Reply)
      requires Valid()
      modifies this`orgs, this`members, this`next
      ensures Valid() && (State(), reply) == Step(old(State()), CreateOrg(acting, slug, fallback))
      ensures reply == Ok <==>
        acting in users && ((forall o :: o in old(orgs) ==> old(orgs)[o].slug != slug)
                            || forall o :: o in old(orgs) ==> old(orgs)[o].slug != fallback)
      ensures reply == Ok ==>
        && members == old(members)[(old(next), acting) := Owner] && next == old(next) + 1
        && orgs == old(orgs)[old(next) := Org(
             if exists o :: o in old(orgs) && old(orgs)[o].slug == slug then fallback else slug, acting)]
      ensures reply != Ok ==> reply == Raised && State() == old(State())
    {
      hide Step, Kept;
      StepKeeps(State(), CreateOrg(acting, slug, fallback));
      CreationExactly(State(), acting, slug, fallback);
      var used := slug;
      if SlugTaken(State(), used) {
        used := fallback;
      }
      if SlugTaken(State(), used) || acting !in users {
        return Raised;
      }
      orgs := orgs[next := Org(used, acting)];
      members := members[(next, acting) := Owner];
      next := next + 1;
      return Ok;
    }

    /** The service: insert unless there is a row already; `None` unless an owner acts. */
    method InsertMember(acting: nat, org: nat, user: nat, role: Role) returns (member: Option<Role>, raised: bool)
      modifies `members
      ensures !old(IsOwner(State(), org, acting)) ==> member == None && !raised && members == old(members)
      ensures old(IsOwner(State(), org, acting)) && (org, user) in old(members) ==>
        member == Some(old(members)[(org, user)]) && !raised && members == old(members)
      ensures old(IsOwner(State(), org, acting)) && (org, user) !in old(members) ==>
        && (raised <==> user !in users)
        && members == (if raised then old(members) else old(members)[(org, user) := role])
        && (!raised ==> member == Some(role))
    {
      if !IsOwner(State(), org, acting) {
        return None, false;
      }
      if (org, user) in members {
        return Some(members[(org, user)]), false;
      }
      if user !in users {
        return None, true;
      }
      members := members[(org, user) := role];
      return Some(role), false;
    }

    method AddOrgMember(acting: nat, org: nat, user: nat, role: Role) returns (reply: Reply)
      requires Valid()
      modifies this`members, this`audit
      ensures Valid() && (State(), reply) == Step(old(State()), AddMember(acting, org, user, role))
      ensures reply == Ok <==>
        old(IsOwner(State(), org, acting)) && role != Owner && ((org, user) in old(members) || user in users)
      ensures reply == Ok ==>
        && members == (if (org, user) in old(members) then old(members) else old(members)[(org, user) := role])
        && audit == old(audit) + [Entry(Added, acting, (org, user), role)]
      ensures reply != Ok ==>
        && (reply == Raised || reply == Forbidden)
        && (reply == Raised <==> old(IsOwner(State(), org, acting)) && role != Owner)
      ensures reply != Ok ==> State() == old(State())
    {
      StepKeeps(State(), AddMember(acting, org, user, role));
      hide HasPermission, Kept;
      MembershipRequestsExactly(State(), AddMember(acting, org, user, role));
      if !Permitted(State(), org, acting, MembersInvite) {
        return Forbidden;
      }
      if !CanAssign(members[(org, acting)], role) {
        return Forbidden;
      }
      var member, raised := InsertMember(acting, org, user, role);
      if raised {
        return Raised;
      }
      if member.None? {
        return Forbidden;
      }
      audit := audit + [Entry(Added, acting, (org, user), role)];
      return Ok;
    }

    method RemoveOrgMember(acting: nat, org: nat, user: nat) returns (reply: Reply)
      requires Valid()
      modifies this`members, this`audit
      ensures Valid() && (State(), reply) == Step(old(State()), RemoveMember(acting, org, user))
      ensures reply == Ok <==> old(IsOwner(State(), org, acting)) && (org, user) in old(members)
      ensures reply == Ok ==>
        && (org, user) !in members && members == old(members) - {(org, user)}
        && audit == old(audit) + [Entry(Removed, acting, (org, user), Member)]
      ensures reply == Forbidden <==>
        !((org, acting) in old(members) && old(members)[(org, acting)] in {Manager, Admin, Owner})
      ensures reply != Ok ==> State() == old(State())
    {
      StepKeeps(State(), RemoveMember(acting, org, user));
      RolesLetThrough(State(), org, acting);
      hide HasPermission, Kept;
      MembershipRequestsExactly(State(), RemoveMember(acting, org, user));
      if !Permitted(State(), org, acting, MembersRemove) {
        return Forbidden;
      }
      if !IsOwner(State(), org, acting) || (org, user) !in members {
        return NotFound;
      }
      members := members - {(org, user)};
      audit := audit + [Entry(Removed, acting, (org, user), Member)];
      return Ok;
    }

    method ChangeOrgMemberRole(acting: nat, org: nat, user: nat, role: Role) returns (reply: Reply)
      requires Valid()
      modifies this`members, this`audit
      ensures Valid() && (State(), reply) == Step(old(State()), ChangeRole(acting, org, user, role))
      ensures reply == Ok <==> old(IsOwner(State(), org, acting)) && role != Owner && (org, user) in old(members)
      ensures reply == Ok ==>
        && members == old(members)[(org, user) := role]
        && audit == old(audit) + [Entry(RoleChanged, acting, (org, user), role)]
      ensures reply == Forbidden <==>
        || !((org, acting) in old(members) && old(members)[(org, acting)] in {Admin, Owner})
        || role == Owner || (role == Admin && old(members)[(org, acting)] != Owner)
      ensures reply != Ok ==> State() == old(State())
    {
      StepKeeps(State(), ChangeRole(acting, org, user, role));
      RolesLetThrough(State(), org, acting);
      if (org, acting) in members && members[(org, acting)] in {Admin, Owner} {
        LiftedTo(members[(org, acting)], role);
      }
      hide HasPermission, CanAssign, Kept;
      MembershipRequestsExactly(State(), ChangeRole(acting, org, user, role));
      if !Permitted(State(), org, acting, MembersChangeRole) {
        return Forbidden;
      }
      if !CanAssign(members[(org, acting)], role) {
        return Forbidden;
      }
      if !IsOwner(State(), org, acting) || (org, user) !in members {
        return NotFound;
      }
      members := members[(org, user) := role];
      audit := audit + [Entry(RoleChanged, acting, (org, user), role)];
      return Ok;
    }

    method SetDocumentVisibility(acting: nat, document: nat, visibility: Visibility, target: Option<nat>)
      returns (reply: Reply)
      requires Valid()
      modifies this`documents
      ensures Valid() && (State(), reply) == Step(old(State()), SetVisibility(acting, document, visibility, target))
      ensures reply == Ok <==>
        && document in old(documents) && old(documents)[document].owner == acting
        && (visibility == Team ==> target.Some? && target.value in orgs)
      ensures reply == Ok ==>
        documents == old(documents)[document :=
          Document(acting, visibility, if visibility == Team then target else None)]
      ensures reply != Ok ==> State() == old(State())
    {
      StepKeeps(State(), SetVisibility(acting, document, visibility, target));
      if document !in documents || documents[document].owner != acting {
        return NotFound;
      }
      if visibility == Team && target.None? {
        return NotFound;
      }
      if visibility == Team && target.value !in orgs {
        return Raised;
      }
      ghost var before := documents;
      documents := documents[document := documents[document].(visibility := visibility)];
      if visibility == Team {
        documents := documents[document := documents[document].(org := target)];
      } else if visibility == Private {
        documents := documents[document := documents[document].(org := None)];
      }
      assert documents == before[document := documents[document]];
      return Ok;
    }
  }

  // ---- The audit trail ---------------------------------------------------------------------------------------

  function Founders(orgs: map<nat, Org>): map<Seat, Role> {
    map s | s in FounderSeats(orgs) :: Owner
  }

  function FounderSeats(orgs: map<nat, Org>): set<Seat> {
    set o | o in orgs :: (o, orgs[o].creator)
  }

  /** What an entry says of the membership; an added member who already is one keeps the role. */
  function Applied(before: map<Seat, Role>, e: Entry): map<Seat, Role> {
    match e.action
    case Added => if e.seat in before then before else before[e.seat := e.role]
    case Removed => before - {e.seat}
    case RoleChanged => before[e.seat := e.role]
  }

  function Replay(start: map<Seat, Role>, audit: seq<Entry>): map<Seat, Role> {
    if audit == [] then start else Applied(Replay(start, audit[..|audit| - 1]), audit[|audit| - 1])
  }

  lemma {:induction false} ReplayWithFounder(start: map<Seat, Role>, audit: seq<Entry>, s: Seat)
    requires s !in start && forall k :: 0 <= k < |audit| ==> audit[k].seat != s
    ensures Replay(start[s := Owner], audit) == Replay(start, audit)[s := Owner]
    decreases |audit|
  {
    if audit != [] {
      var front, e := audit[..|audit| - 1], audit[|audit| - 1];
      ReplayWithFounder(start, front, s);
      assert audit[|audit| - 1].seat != s;
      var before: map<Seat, Role> := Replay(start, front);
      var founded: map<Seat, Role> := before[s := Owner];
      var changed: map<Seat, Role> := before[e.seat := e.role];
      assert founded - {e.seat} == (before - {e.seat})[s := Owner];
      assert founded[e.seat := e.role] == changed[s := Owner];
    }
  }

  ghost predicate Traced(t: Tenancy) {
    && Kept(t)
    && (forall k :: 0 <= k < |t.audit| ==> t.audit[k].seat.0 in t.orgs)
    && Replay(Founders(t.orgs), t.audit) == t.members
  }

  lemma FoundersGrow(orgs: map<nat, Org>, next: nat, org: Org)
    requires next !in orgs
    ensures (next, org.creator) !in Founders(orgs)
    ensures Founders(orgs[next := org]) == Founders(orgs)[(next, org.creator) := Owner]
  {
    var grown := orgs[next := org];
    forall s ensures s in FounderSeats(grown) <==> s in FounderSeats(orgs) + {(next, org.creator)} {
      if s in FounderSeats(grown) {
        assert s.0 in grown && s.1 == grown[s.0].creator;
      }
      if s in FounderSeats(orgs) {
        assert s.0 in orgs && s.1 == orgs[s.0].creator && grown[s.0] == orgs[s.0];
      }
      if s == (next, org.creator) {
        assert grown[s.0].creator == s.1;
      }
    }
  }

  /** What an accepted membership request writes into the trail. */
  function EntryOf(op: Op): Entry
    requires op.AddMember? || op.RemoveMember? || op.ChangeRole?
  {
    match op
    case AddMember(acting, org, user, role) => Entry(Added, acting, (org, user), role)
    case RemoveMember(acting, org, user) => Entry(Removed, acting, (org, user), Member)
    case ChangeRole(acting, org, user, role) => Entry(RoleChanged, acting, (org, user), role)
  }

  lemma MembershipStep(t: Tenancy, op: Op)
    requires op.AddMember? || op.RemoveMember? || op.ChangeRole?
    ensures var (after, reply) := Step(t, op);
      && after.orgs == t.orgs && (reply != Ok ==> after == t)
      && (reply == Ok ==> IsOwner(t, op.org, op.acting)
                          && after.audit == t.audit + [EntryOf(op)] && after.members == Applied(t.members, EntryOf(op)))
  {
  }

  lemma LoggedStep(t: Tenancy, op: Op)
    requires Kept(t) && !op.CreateOrg?
    ensures var after := Step(t, op).0;
      && after.orgs == t.orgs
      && (after.audit == t.audit ==> after.members == t.members)
      && (after.audit != t.audit ==>
        && |after.audit| == |t.audit| + 1 && after.audit[..|t.audit|] == t.audit
        && after.audit[|t.audit|].seat.0 in t.orgs
        && after.members == Applied(t.members, after.audit[|t.audit|]))
  {
    if !op.SetVisibility? {
      MembershipStep(t, op);
      var (after, reply) := Step(t, op);
      hide Step, Applied;
      if reply == Ok {
        assert EntryOf(op).seat.0 == op.org && (op.org, op.acting) in t.members;
        assert (t.audit + [EntryOf(op)])[..|t.audit|] == t.audit && (t.audit + [EntryOf(op)])[|t.audit|] == EntryOf(op);
      }
    }
  }

  lemma FoundingStep(t: Tenancy, op: Op)
    requires Kept(t) && op.CreateOrg?
    ensures var after := Step(t, op).0;
      && after.audit == t.audit
      && (after != t ==>
        && t.next !in t.orgs && t.next in after.orgs && after.orgs == t.orgs[t.next := after.orgs[t.next]]
        && after.members == t.members[(t.next, after.orgs[t.next].creator) := Owner])
  {
  }

  lemma FoundingTraced(t: Tenancy, after: Tenancy)
    requires Traced(t) && after.audit == t.audit && t.next !in t.orgs && t.next in after.orgs
    requires after.orgs == t.orgs[t.next := after.orgs[t.next]]
    requires after.members == t.members[(t.next, after.orgs[t.next].creator) := Owner]
    ensures Replay(Founders(after.orgs), after.audit) == after.members
  {
    var org := after.orgs[t.next];
    FoundersGrow(t.orgs, t.next, org);
    ReplayWithFounder(Founders(t.orgs), t.audit, (t.next, org.creator));
  }

  lemma TracedStep(t: Tenancy, op: Op)
    requires Traced(t)
    ensures Traced(Step(t, op).0)
  {
    hide Step, Kept, Applied, Founders;
    StepKeeps(t, op);
    var after := Step(t, op).0;
    if op.CreateOrg? {
      FoundingStep(t, op);
      if after != t { FoundingTraced(t, after); }
    } else {
      LoggedStep(t, op);
    }
  }

  /** The audit trail is complete: replayed over the founding owners it gives the membership. */
  lemma {:induction false} AuditReplays(users: set<nat>, documents: map<nat, Document>, ops: seq<Op>)
    ensures Traced(Run(Initial(users, documents), ops))
    decreases |ops|
  {
    if ops != [] {
      AuditReplays(users, documents, ops[..|ops| - 1]);
      TracedStep(Run(Initial(users, documents), ops[..|ops| - 1]), ops[|ops| - 1]);
    }
  }

  // ---- Documents ---------------------------------------------------------------------------------------------

  predicate CanAccess(t: Tenancy, document: nat, user: nat) {
    if document !in t.documents then false
    else
      var d := t.documents[document];
      if d.owner == user then true
      else if d.visibility == Team && d.org.Some? then (d.org.value, user) in t.members
      else false
  }

  /** The rows of the listing's query, before its limit. */
  function TeamDocuments(t: Tenancy, user: nat, org: nat): set<nat> {
    if (org, user) !in t.members then {}
    else
      set d | d in t.documents && t.documents[d].org == Some(org)
              && (t.documents[d].owner == user || t.documents[d].visibility == Team)
  }

  /** For a member the listing holds exactly the organization's documents the access check
      grants; to anyone else it holds nothing. */
  lemma ListedExactly(t: Tenancy, user: nat, org: nat, document: nat)
    ensures document in TeamDocuments(t, user, org) ==> CanAccess(t, document, user)
    ensures document in TeamDocuments(t, user, org) <==>
      (org, user) in t.members && document in t.documents && t.documents[document].org == Some(org)
        && CanAccess(t, document, user)
    ensures CanAccess(t, document, user) <==>
      document in t.documents && var d := t.documents[document];
      (d.owner == user || (d.visibility == Team && exists o :: d.org == Some(o) && (o, user) in t.members))
  {
  }

  /** After sharing, the document can be read exactly by its owner and the organization's members,
      and after making it private by its owner alone; no other document's readers change. */
  lemma SharingExactly(t: Tenancy, op: Op, user: nat, other: nat)
    requires op.SetVisibility? && Step(t, op).1 == Ok
    ensures var after := Step(t, op).0;
      && (CanAccess(after, op.document, user) <==>
           user == op.acting || (op.visibility == Team && (op.target.value, user) in t.members))
      && (other != op.document ==> (CanAccess(after, other, user) <==> CanAccess(t, other, user)))
  {
  }

  /** A removed member loses exactly the team documents of others in that organization. */
  lemma RemovalRevokes(t: Tenancy, op: Op, document: nat)
    requires op.RemoveMember? && Step(t, op).1 == Ok && document in t.documents
    ensures CanAccess(Step(t, op).0, document, op.user) <==>
      CanAccess(t, document, op.user)
        && (t.documents[document].owner == op.user || t.documents[document].org != Some(op.org))
  {
  }
}
