/** The plugin marketplace: publishing, review, installing and uninstalling, and what the
    deletion of an account takes along. */
module Marketplace {
  import opened Options

  const MAX_INSTALLED_PLUGINS_PER_USER := 50

  datatype ReviewStatus = PendingReview | Approved | Rejected | Suspended | Unknown(name: string)

  datatype Plugin = Plugin(slug: string, version: string, author: nat, status: ReviewStatus, verified: bool,
                           published: Option<int>, installs: nat)

  /** A row of the installations table: user and plugin, unique together. */
  type Installation = (nat, nat)

  datatype Market = Market(users: set<nat>, plugins: map<nat, Plugin>, installed: set<Installation>, next: nat)

  datatype Op =
    | AddUser(user: nat)
    | Publish(author: nat, kind: string, slug: string, version: string)
    | Review(plugin: nat, status: ReviewStatus, now: int)
    | Install(user: nat, plugin: nat, configOk: bool)
    | Uninstall(user: nat, plugin: nat)
    | DeleteUser(user: nat)

  datatype Reply =
    | Ok | InvalidType | AlreadyExists | NotFound | InvalidTransition | NotApproved | AlreadyInstalled
    | LimitReached | InvalidConfig | NotInstalled | Raised

  predicate IsKind(kind: string) {
    kind in {"connector", "briefing_template", "processing"}
  }

  predicate Allowed(from: ReviewStatus, to: ReviewStatus) {
    match from
    case PendingReview => to == Approved || to == Rejected
    case Approved => to == Suspended
    case Rejected => to == PendingReview
    case Suspended => to == Approved
    case Unknown(_) => false
  }

  function InstallsOf(installed: set<Installation>, plugin: nat): set<Installation> {
    set r | r in installed && r.1 == plugin
  }

  function HeldBy(installed: set<Installation>, user: nat): set<Installation> {
    set r | r in installed && r.0 == user
  }

  function AuthoredBy(plugins: map<nat, Plugin>, user: nat): set<nat> {
    set p | p in plugins && plugins[p].author == user
  }

  function Reviewed(p: Plugin, status: ReviewStatus, now: int): Plugin {
    p.(status := status,
       published := if status == Approved && p.published.None? then Some(now) else p.published,
       verified := p.verified || status == Approved)
  }

  /** One call, as one transaction.  Deleting a user cascades to the user's installations, to the
      plugins the user wrote and to their installations. */
  function Step(m: Market, op: Op): (Market, Reply) {
    match op
    case AddUser(user) => (m.(users := m.users + {user}), Ok)
    case Publish(author, kind, slug, version) =>
      if !IsKind(kind) then (m, InvalidType)
      else if exists p :: p in m.plugins && m.plugins[p].slug == slug && m.plugins[p].version == version
        then (m, AlreadyExists)
      else if author !in m.users then (m, Raised)
      else
        (m.(plugins := m.plugins[m.next := Plugin(slug, version, author, PendingReview, false, None, 0)],
            next := m.next + 1), Ok)
    case Review(p, status, now) =>
      if p !in m.plugins then (m, NotFound)
      else if !Allowed(m.plugins[p].status, status) then (m, InvalidTransition)
      else (m.(plugins := m.plugins[p := Reviewed(m.plugins[p], status, now)]), Ok)
    case Install(user, p, configOk) =>
      if p !in m.plugins then (m, NotFound)
      else if m.plugins[p].status != Approved then (m, NotApproved)
      else if (user, p) in m.installed then (m, AlreadyInstalled)
      else if |HeldBy(m.installed, user)| >= MAX_INSTALLED_PLUGINS_PER_USER then (m, LimitReached)
      else if !configOk then (m, InvalidConfig)
      else if user !in m.users then (m, Raised)
      else
        var plugin := m.plugins[p];
        (m.(installed := m.installed + {(user, p)},
            plugins := m.plugins[p := plugin.(installs := plugin.installs + 1)]), Ok)
    case Uninstall(user, p) =>
      if (user, p) !in m.installed then (m, NotInstalled)
      else
        var fewer := m.(installed := m.installed - {(user, p)});
        if p in m.plugins && m.plugins[p].installs > 0 then
          (fewer.(plugins := m.plugins[p := m.plugins[p].(installs := m.plugins[p].installs - 1)]), Ok)
        else (fewer, Ok)
    case DeleteUser(user) =>
      var gone := AuthoredBy(m.plugins, user);
      (m.(users := m.users - {user}, plugins := m.plugins - gone,
          installed := set r | r in m.installed && r.0 != user && r.1 !in gone), Ok)
  }

  // ---- Invariants of every run --------------------------------------------------------------------------

  function Empty(): Market {
    Market({}, map[], {}, 0)
  }

  function Run(ops: seq<Op>): Market {
    if ops == [] then Empty() else Step(Run(ops[..|ops| - 1]), ops[|ops| - 1]).0
  }

  /** Verified, published, and being approved or suspended are one and the same. */
  predicate Coherent(p: Plugin) {
    && (p.verified <==> p.published.Some?)
    && (p.verified <==> p.status == Approved || p.status == Suspended)
    && !p.status.Unknown?
  }

  predicate SameRelease(p: Plugin, q: Plugin) {
    p.slug == q.slug && p.version == q.version
  }

  /** Plugins are coherent, written by a user, and of distinct releases. */
  predicate PluginsKept(m: Market) {
    && (forall p :: p in m.plugins ==> p < m.next && Coherent(m.plugins[p]) && m.plugins[p].author in m.users)
    && (forall p, q :: p in m.plugins && q in m.plugins && SameRelease(m.plugins[p], m.plugins[q]) ==> p == q)
  }

  /** Installations are of published plugins by users. */
  predicate RowsKept(m: Market) {
    forall r :: r in m.installed ==> r.0 in m.users && r.1 in m.plugins && m.plugins[r.1].published.Some?
  }

  ghost predicate Kept(m: Market) {
    PluginsKept(m) && RowsKept(m) && forall u :: |HeldBy(m.installed, u)| <= MAX_INSTALLED_PLUGINS_PER_USER
  }

  lemma Fewer(a: set<Installation>, b: set<Installation>)
    requires a <= b
    ensures |a| <= |b|
    decreases b
  {
    if a != b {
      var x :| x in b && x !in a;
      Fewer(a, b - {x});
    }
  }

  lemma HeldByGrows(installed: set<Installation>, user: nat, p: nat, u: nat)
    ensures |HeldBy(installed + {(user, p)}, u)| <= |HeldBy(installed, u)| + if u == user then 1 else 0
  {
    assert HeldBy(installed + {(user, p)}, u) == HeldBy(installed, u) + if u == user then {(user, p)} else {};
  }

  lemma HeldByShrinks(fewer: set<Installation>, installed: set<Installation>, u: nat)
    requires fewer <= installed
    ensures |HeldBy(fewer, u)| <= |HeldBy(installed, u)|
  {
    Fewer(HeldBy(fewer, u), HeldBy(installed, u));
  }

  /** Only an accepted installation adds a row, and only below the limit. */
  lemma RowsAfter(m: Market, op: Op)
    ensures var after := Step(m, op).0.installed;
      || after <= m.installed
      || (op.Install? && after == m.installed + {(op.user, op.plugin)}
          && |HeldBy(m.installed, op.user)| < MAX_INSTALLED_PLUGINS_PER_USER)
  {
  }

  lemma LimitKept(m: Market, op: Op, u: nat)
    requires |HeldBy(m.installed, u)| <= MAX_INSTALLED_PLUGINS_PER_USER
    ensures |HeldBy(Step(m, op).0.installed, u)| <= MAX_INSTALLED_PLUGINS_PER_USER
  {
    hide Step, HeldBy;
    var after := Step(m, op).0.installed;
    RowsAfter(m, op);
    if after <= m.installed {
      HeldByShrinks(after, m.installed, u);
    } else {
      HeldByGrows(m.installed, op.user, op.plugin, u);
    }
  }

  lemma PluginsStep(m: Market, op: Op)
    requires PluginsKept(m)
    ensures PluginsKept(Step(m, op).0)
  {
    hide HeldBy;
  }

  lemma RowsStep(m: Market, op: Op)
    requires PluginsKept(m) && RowsKept(m)
    ensures RowsKept(Step(m, op).0)
  {
    hide HeldBy;
  }

  lemma StepKeeps(m: Market, op: Op)
    requires Kept(m)
    ensures Kept(Step(m, op).0)
  {
    hide Step, PluginsKept, RowsKept, HeldBy;
    PluginsStep(m, op);
    RowsStep(m, op);
    forall u: nat ensures |HeldBy(Step(m, op).0.installed, u)| <= MAX_INSTALLED_PLUGINS_PER_USER {
      LimitKept(m, op, u);
    }
  }

  /** In every reachable state: verification, publication and status agree; no user exceeds the
      limit; what is installed exists and was published; slug and version are unique. */
  lemma {:induction false} RunKeeps(ops: seq<Op>)
    ensures Kept(Run(ops))
    decreases |ops|
  {
    if ops != [] {
      RunKeeps(ops[..|ops| - 1]);
      StepKeeps(Run(ops[..|ops| - 1]), ops[|ops| - 1]);
    }
  }

  lemma DateKept(m: Market, op: Op, p: nat)
    requires Kept(m) && p < m.next
    requires p in m.plugins ==> m.plugins[p].published.Some?
    ensures p < Step(m, op).0.next
    ensures p in Step(m, op).0.plugins
      ==> p in m.plugins && Step(m, op).0.plugins[p].published == m.plugins[p].published
  {
  }

  /** A publication date once set never changes, whatever calls follow, while the plugin exists. */
  lemma {:induction false} PublishedForGood(ops: seq<Op>, more: seq<Op>, p: nat)
    requires p in Run(ops).plugins && Run(ops).plugins[p].published.Some?
    ensures p in Run(ops + more).plugins ==> Run(ops + more).plugins[p].published == Run(ops).plugins[p].published
    ensures p < Run(ops + more).next
    decreases |more|
  {
    RunKeeps(ops);
    if more == [] {
      assert p < Run(ops).next;
      assert ops + more == ops;
    } else {
      var front, op := more[..|more| - 1], more[|more| - 1];
      PublishedForGood(ops, front, p);
      RunKeeps(ops + front);
      DateKept(Run(ops + front), op, p);
      RunAppend(ops + front, op);
      hide Run, Step, Kept;
      assert ops + more == ops + front + [op];
    }
  }

  lemma RunAppend(ops: seq<Op>, op: Op)
    ensures Run(ops + [op]) == Step(Run(ops), op).0
  {
    assert (ops + [op])[..|ops|] == ops;
  }

  // ---- The service ----------------------------------------------------------------------------------

  /** The tables a call works on. */
  class Service {
    var users: set<nat>
    var plugins: map<nat, Plugin>
    var installed: set<Installation>
    var next: nat

    function State(): Market
      reads this
    {
      Market(users, plugins, installed, next)
    }

    ghost predicate Valid()
      reads this
    {
      Kept(State())
    }

    constructor ()
      ensures State() == Empty() && Valid()
    {
      users, plugins, installed, next := {}, map[], {}, 0;
    }

    method PublishPlugin(author: nat, kind: string, slug: string, version: string) returns (reply: Reply)
      requires Valid()
      modifies this
      ensures Valid() && (State(), reply) == Step(old(State()), Publish(author, kind, slug, version))
      ensures reply != Ok ==> State() == old(State())
      ensures reply == Ok <==>
        && kind in {"connector", "briefing_template", "processing"} && author in users
        && forall p :: p in old(plugins) ==> old(plugins)[p].slug != slug || old(plugins)[p].version != version
      ensures reply == Ok ==>
        && plugins == old(plugins)[old(next) := Plugin(slug, version, author, PendingReview, false, None, 0)]
        && old(next) !in old(plugins) && next == old(next) + 1 && installed == old(installed) && users == old(users)
      ensures reply == InvalidType <==> kind !in {"connector", "briefing_template", "processing"}
      ensures reply == AlreadyExists <==>
        && kind in {"connector", "briefing_template", "processing"}
        && exists p :: p in old(plugins) && old(plugins)[p].slug == slug && old(plugins)[p].version == version
    {
      StepKeeps(State(), Publish(author, kind, slug, version));
      if !IsKind(kind) {
        return InvalidType;
      }
      if exists p :: p in plugins && plugins[p].slug == slug && plugins[p].version == version {
        return AlreadyExists;
      }
      if author !in users {
        return Raised;
      }
      plugins := plugins[next := Plugin(slug, version, author, PendingReview, false, None, 0)];
      next := next + 1;
      return Ok;
    }

    method ReviewPlugin(p: nat, status: ReviewStatus, now: int) returns (reply: Reply)
      requires Valid()
      modifies this`plugins
      ensures Valid() && (State(), reply) == Step(old(State()), Review(p, status, now))
      ensures reply != Ok ==> State() == old(State())
      ensures reply == NotFound <==> p !in old(plugins)
      ensures reply == Ok <==>
        p in old(plugins) && (old(plugins)[p].status, status) in {
          (PendingReview, Approved), (PendingReview, Rejected), (Approved, Suspended), (Rejected, PendingReview),
          (Suspended, Approved)}
      ensures reply == Ok ==> var was := old(plugins)[p];
        && p in plugins && plugins == old(plugins)[p := plugins[p]]
        && plugins[p].status == status
        && plugins[p].published == (if status == Approved && was.published == None then Some(now) else was.published)
        && (status == Approved ==> plugins[p].verified) && (status != Approved ==> plugins[p].verified == was.verified)
        && plugins[p].slug == was.slug && plugins[p].version == was.version && plugins[p].author == was.author
        && plugins[p].installs == was.installs
    {
      StepKeeps(State(), Review(p, status, now));
      if p !in plugins {
        return NotFound;
      }
      if !Allowed(plugins[p].status, status) {
        return InvalidTransition;
      }
      ghost var before := plugins;
      plugins := plugins[p := plugins[p].(status := status)];
      if status == Approved && plugins[p].published.None? {
        plugins := plugins[p := plugins[p].(published := Some(now))];
      }
      if status == Approved {
        plugins := plugins[p := plugins[p].(verified := true)];
      }
      assert plugins == before[p := Reviewed(before[p], status, now)];
      return Ok;
    }

    method InstallPlugin(user: nat, p: nat, configOk: bool) returns (reply: Reply)
      requires Valid()
      modifies this`plugins, this`installed
      ensures Valid() && (State(), reply) == Step(old(State()), Install(user, p, configOk))
      ensures reply != Ok ==> State() == old(State())
      ensures reply == Ok <==>
        && p in old(plugins) && old(plugins)[p].status == Approved && (user, p) !in old(installed)
        && |set r | r in old(installed) && r.0 == user| < 50 && configOk && user in users
      ensures reply == NotFound <==> p !in old(plugins)
      ensures reply == NotApproved <==> p in old(plugins) && old(plugins)[p].status != Approved
      ensures reply == AlreadyInstalled <==>
        p in old(plugins) && old(plugins)[p].status == Approved && (user, p) in old(installed)
      ensures reply == LimitReached <==>
        && p in old(plugins) && old(plugins)[p].status == Approved && (user, p) !in old(installed)
        && |set r | r in old(installed) && r.0 == user| >= 50
      ensures reply == Ok ==>
        && installed == old(installed) + {(user, p)}
        && plugins == old(plugins)[p := old(plugins)[p].(installs := old(plugins)[p].installs + 1)]
    {
      StepKeeps(State(), Install(user, p, configOk));
      if p !in plugins {
        return NotFound;
      }
      if plugins[p].status != Approved {
        return NotApproved;
      }
      if (user, p) in installed {
        return AlreadyInstalled;
      }
      if |HeldBy(installed, user)| >= MAX_INSTALLED_PLUGINS_PER_USER {
        return LimitReached;
      }
      if !configOk {
        return InvalidConfig;
      }
      if user !in users {
        return Raised;
      }
      installed := installed + {(user, p)};
      plugins := plugins[p := plugins[p].(installs := plugins[p].installs + 1)];
      return Ok;
    }

    method UninstallPlugin(user: nat, p: nat) returns (reply: Reply)
      requires Valid()
      modifies this`plugins, this`installed
      ensures Valid() && (State(), reply) == Step(old(State()), Uninstall(user, p))
      ensures reply == Ok <==> (user, p) in old(installed)
      ensures reply != Ok ==> reply == NotInstalled && State() == old(State())
      ensures reply == Ok ==>
        && installed == old(installed) - {(user, p)} && p in old(plugins)
        && plugins == old(plugins)[p :=
             old(plugins)[p].(installs := if old(plugins)[p].installs > 0 then old(plugins)[p].installs - 1 else 0)]
    {
      StepKeeps(State(), Uninstall(user, p));
      if (user, p) !in installed {
        return NotInstalled;
      }
      installed := installed - {(user, p)};
      if p in plugins && plugins[p].installs > 0 {
        plugins := plugins[p := plugins[p].(installs := plugins[p].installs - 1)];
      }
      return Ok;
    }
  }

  // ---- The install count -----------------------------------------------------------------------------------

  /** How many of a plugin's installations were taken away by account deletions. */
  function Lost(ops: seq<Op>, p: nat): nat {
    if ops == [] then 0
    else
      var front, op := ops[..|ops| - 1], ops[|ops| - 1];
      var before, after := Run(front).installed, Run(ops).installed;
      Lost(front, p) +
        if op.DeleteUser? && |InstallsOf(after, p)| <= |InstallsOf(before, p)|
        then |InstallsOf(before, p)| - |InstallsOf(after, p)|
        else 0
  }

  lemma InstallsGrow(installed: set<Installation>, user: nat, p: nat, q: nat)
    requires (user, p) !in installed
    ensures |InstallsOf(installed + {(user, p)}, q)| == |InstallsOf(installed, q)| + if q == p then 1 else 0
  {
    assert InstallsOf(installed + {(user, p)}, q) == InstallsOf(installed, q) + if q == p then {(user, p)} else {};
  }

  lemma InstallsShrink(installed: set<Installation>, user: nat, p: nat, q: nat)
    requires (user, p) in installed
    ensures |InstallsOf(installed - {(user, p)}, q)| == |InstallsOf(installed, q)| - if q == p then 1 else 0
  {
    assert InstallsOf(installed, q) == InstallsOf(installed - {(user, p)}, q) + if q == p then {(user, p)} else {};
  }

  /** A plugin's count and its rows move together, except that a deletion takes rows only. */
  lemma CountStep(m: Market, op: Op, p: nat, lost: nat)
    requires p in m.plugins && p < m.next && p in Step(m, op).0.plugins
    requires m.plugins[p].installs == |InstallsOf(m.installed, p)| + lost
    ensures !op.DeleteUser? ==> Step(m, op).0.plugins[p].installs == |InstallsOf(Step(m, op).0.installed, p)| + lost
    ensures op.DeleteUser? ==> Step(m, op).0.plugins[p].installs == |InstallsOf(m.installed, p)| + lost
  {
    hide InstallsOf, HeldBy;
    match op {
      case Install(user, q, _) =>
        if (user, q) !in m.installed { InstallsGrow(m.installed, user, q, p); }
      case Uninstall(user, q) =>
        if (user, q) in m.installed { InstallsShrink(m.installed, user, q, p); }
      case _ =>
    }
  }

  /** A deleted account takes along its rows, the plugins it wrote and their rows, and nothing else. */
  lemma DeletionExactly(m: Market, user: nat, p: nat, r: Installation)
    ensures var after := Step(m, DeleteUser(user)).0;
      && (p in after.plugins <==> p in m.plugins && m.plugins[p].author != user)
      && (p in after.plugins ==> after.plugins[p] == m.plugins[p])
      && (r in after.installed <==>
            r in m.installed && r.0 != user && !(r.1 in m.plugins && m.plugins[r.1].author == user))
      && after.users == m.users - {user}
  {
  }

  lemma DeletionTakesRows(m: Market, user: nat, p: nat)
    ensures |InstallsOf(Step(m, DeleteUser(user)).0.installed, p)| <= |InstallsOf(m.installed, p)|
  {
    Fewer(InstallsOf(Step(m, DeleteUser(user)).0.installed, p), InstallsOf(m.installed, p));
  }

  lemma {:induction false} NothingLostBefore(ops: seq<Op>, p: nat)
    requires p >= Run(ops).next
    ensures Lost(ops, p) == 0
    decreases |ops|
  {
    if ops != [] {
      var front := ops[..|ops| - 1];
      NothingLostBefore(front, p);
      RunKeeps(front);
      assert InstallsOf(Run(front).installed, p) == {};
    }
  }

  /** A plugin's install count is its number of installations plus those that account deletions
      took away. */
  lemma {:induction false} CountIsRowsPlusLost(ops: seq<Op>, p: nat)
    requires p in Run(ops).plugins
    ensures Run(ops).plugins[p].installs == |InstallsOf(Run(ops).installed, p)| + Lost(ops, p)
    decreases |ops|
  {
    var front, op := ops[..|ops| - 1], ops[|ops| - 1];
    var m := Run(front);
    RunKeeps(front);
    if p in m.plugins {
      CountIsRowsPlusLost(front, p);
      CountStep(m, op, p, Lost(front, p));
      if op.DeleteUser? { DeletionTakesRows(m, op.user, p); }
    } else {
      assert op.Publish? && p == m.next;
      NothingLostBefore(front, p);
      assert InstallsOf(Run(ops).installed, p) == {};
    }
  }

  lemma {:induction false} NextGrows(ops: seq<Op>, k: nat)
    requires k <= |ops|
    ensures Run(ops[..k]).next <= Run(ops).next
    decreases |ops|
  {
    if k < |ops| {
      assert ops[..|ops| - 1][..k] == ops[..k];
      NextGrows(ops[..|ops| - 1], k);
    } else {
      assert ops[..k] == ops;
    }
  }

  /** No account was deleted while it had the plugin installed. */
  predicate NoHolderDeleted(ops: seq<Op>, p: nat) {
    forall k :: 0 <= k < |ops| && ops[k].DeleteUser? ==> (ops[k].user, p) !in Run(ops[..k]).installed
  }

  lemma NoHolderStep(ops: seq<Op>, op: Op, p: nat)
    ensures NoHolderDeleted(ops + [op], p) <==>
      NoHolderDeleted(ops, p) && (op.DeleteUser? ==> (op.user, p) !in Run(ops).installed)
  {
    var all := ops + [op];
    assert all[..|ops|] == ops && all[|ops|] == op;
    forall k | 0 <= k < |ops| ensures all[k] == ops[k] && all[..k] == ops[..k] {
    }
  }

  lemma DeletionTakesOne(m: Market, user: nat, p: nat)
    requires Kept(m) && p in Step(m, DeleteUser(user)).0.plugins
    ensures |InstallsOf(Step(m, DeleteUser(user)).0.installed, p)|
         == |InstallsOf(m.installed, p)| - if (user, p) in m.installed then 1 else 0
  {
    var after := Step(m, DeleteUser(user)).0.installed;
    assert InstallsOf(m.installed, p) == InstallsOf(after, p) + if (user, p) in m.installed then {(user, p)} else {};
  }

  lemma NoHolderBefore(ops: seq<Op>, p: nat)
    requires p >= Run(ops).next
    ensures NoHolderDeleted(ops, p)
  {
    forall k | 0 <= k < |ops| && ops[k].DeleteUser? ensures (ops[k].user, p) !in Run(ops[..k]).installed {
      NextGrows(ops, k);
      RunKeeps(ops[..k]);
    }
  }

  /** One call loses an installation exactly if it deletes an account that has one. */
  lemma LostStep(ops: seq<Op>, op: Op, p: nat)
    requires Kept(Run(ops)) && p in Run(ops + [op]).plugins
    ensures Lost(ops + [op], p) == Lost(ops, p) + if op.DeleteUser? && (op.user, p) in Run(ops).installed then 1 else 0
  {
    assert (ops + [op])[..|ops|] == ops;
    if op.DeleteUser? {
      RunAppend(ops, op);
      DeletionTakesOne(Run(ops), op.user, p);
    }
  }

  lemma NewPlugin(m: Market, op: Op, p: nat)
    requires p in Step(m, op).0.plugins && p !in m.plugins
    ensures op.Publish? && p == m.next
  {
  }

  /** Nothing is lost exactly if no account was deleted while it had the plugin installed. */
  lemma {:induction false} NothingLostExactly(ops: seq<Op>, p: nat)
    requires p in Run(ops).plugins
    ensures Lost(ops, p) == 0 <==> NoHolderDeleted(ops, p)
    decreases |ops|
  {
    assert ops != [];
    hide Run, Step, Lost, NoHolderDeleted, Kept;
    var front, op := ops[..|ops| - 1], ops[|ops| - 1];
    assert ops == front + [op];
    RunKeeps(front);
    RunAppend(front, op);
    NoHolderStep(front, op, p);
    LostStep(front, op, p);
    if p in Run(front).plugins {
      NothingLostExactly(front, p);
    } else {
      NewPlugin(Run(front), op, p);
      NothingLostBefore(front, p);
      NoHolderBefore(front, p);
    }
  }

  /** So it is exactly the number of installations if and only if no account was deleted while it
      had the plugin installed. */
  lemma CountExactly(ops: seq<Op>, p: nat)
    requires p in Run(ops).plugins
    ensures Run(ops).plugins[p].installs == |InstallsOf(Run(ops).installed, p)| <==> NoHolderDeleted(ops, p)
  {
    CountIsRowsPlusLost(ops, p);
    NothingLostExactly(ops, p);
  }

  /** A run after which a plugin has a count of one and no installation. */
  lemma CountDrifts() returns (ops: seq<Op>)
    ensures 0 in Run(ops).plugins && Run(ops).plugins[0].installs == 1 && InstallsOf(Run(ops).installed, 0) == {}
  {
    var setUp := [AddUser(0), AddUser(1), Publish(0, "connector", "s", "1"), Review(0, Approved, 7)];
    OnePluginApproved(setUp);
    RunAppend(setUp, Install(1, 0, true));
    assert HeldBy(Run(setUp).installed, 1) == {};
    RunAppend(setUp + [Install(1, 0, true)], DeleteUser(1));
    ops := setUp + [Install(1, 0, true)] + [DeleteUser(1)];
  }

  lemma OnePluginApproved(ops: seq<Op>)
    requires ops == [AddUser(0), AddUser(1), Publish(0, "connector", "s", "1"), Review(0, Approved, 7)]
    ensures Run(ops) == Market({0, 1}, map[0 := Plugin("s", "1", 0, Approved, true, Some(7), 0)], {}, 1)
  {
    assert ops == [] + [AddUser(0)] + [AddUser(1)] + [Publish(0, "connector", "s", "1")] + [Review(0, Approved, 7)];
    RunAppend([], AddUser(0));
    RunAppend([AddUser(0)], AddUser(1));
    var users := [AddUser(0), AddUser(1)];
    assert [] + [AddUser(0)] == [AddUser(0)] && [AddUser(0)] + [AddUser(1)] == users;
    RunAppend(users, Publish(0, "connector", "s", "1"));
    RunAppend(users + [Publish(0, "connector", "s", "1")], Review(0, Approved, 7));
  }

  lemma {:induction false} NoDeletionsNoLoss(ops: seq<Op>, p: nat)
    requires forall k :: 0 <= k < |ops| ==> !ops[k].DeleteUser?
    ensures Lost(ops, p) == 0
    decreases |ops|
  {
    if ops != [] { NoDeletionsNoLoss(ops[..|ops| - 1], p); }
  }

  /** In runs of marketplace calls alone the count is the number of installations. */
  lemma CountIsRows(ops: seq<Op>, p: nat)
    requires p in Run(ops).plugins && forall k :: 0 <= k < |ops| ==> !ops[k].DeleteUser?
    ensures Run(ops).plugins[p].installs == |InstallsOf(Run(ops).installed, p)|
  {
    NoDeletionsNoLoss(ops, p);
    CountIsRowsPlusLost(ops, p);
  }

  /** The decrement's floor never applies: whatever is uninstalled was counted. */
  lemma FloorNeverApplies(ops: seq<Op>, user: nat, p: nat)
    requires (user, p) in Run(ops).installed
    ensures p in Run(ops).plugins && Run(ops).plugins[p].installs > 0
  {
    RunKeeps(ops);
    CountIsRowsPlusLost(ops, p);
    assert (user, p) in InstallsOf(Run(ops).installed, p);
  }

  /** Installing and then uninstalling gives the state before. */
  lemma InstallThenUninstall(m: Market, user: nat, p: nat, configOk: bool)
    requires Step(m, Install(user, p, configOk)).1 == Ok
    ensures Step(Step(m, Install(user, p, configOk)).0, Uninstall(user, p)) == (m, Ok)
  {
    var after := Step(m, Install(user, p, configOk)).0;
    assert m.installed + {(user, p)} - {(user, p)} == m.installed;
    assert after.plugins[p := m.plugins[p]] == m.plugins;
  }
}
