/** Subscriptions kept in step with Stripe by webhook events. */
module Billing {
  import opened Options

  datatype Plan = FREE | PRO

  datatype SubStatus = ACTIVE | CANCELLED | PAST_DUE | TRIALING | INCOMPLETE

  /** A row of the table; its index is its primary key. */
  datatype Row = Row(user: nat, customer: string, subscription: Option<string>, price: Option<string>, plan: Plan,
                     status: SubStatus, periodStart: Option<int>, periodEnd: Option<int>, cancelAtEnd: bool,
                     cohort: Option<string>)

  /** The user id in a checkout's metadata: missing, not a UUID, or an id. */
  datatype UserRef = NoUser | BadUser | User(id: nat)

  /** Absent strings are empty, absent times 0. */
  datatype Event =
    | Checkout(customer: string, subscription: Option<string>, user: UserRef, cohort: string)
    | Updated(id: string, customer: string, state: string, cancelAtEnd: bool, start: int, end: int,
      price: Option<Option<string>>)
    | Deleted(id: string)
    | PaymentSucceeded(id: string)
    | PaymentFailed(id: string)
    | Other

  datatype Reply =
    | Activated | NoCustomerError | NoUserError | UpdatedTo(status: SubStatus) | Cancelled
    | PaymentOk | PaymentNotOk | Ignored | Raised

  // ---- Queries -------------------------------------------------------------------------------------

  datatype Key = Customer(c: string) | Subscription(s: string) | UserId(u: nat)

  predicate Matches(r: Row, key: Key) {
    match key
    case Customer(c) => r.customer == c
    case Subscription(s) => r.subscription == Some(s)
    case UserId(u) => r.user == u
  }

  /** `scalar_one_or_none`: several rows make it raise. */
  datatype Lookup = Absent | At(i: nat) | Several

  function Find(rows: seq<Row>, key: Key): (found: Lookup)
    ensures found.At? ==> found.i < |rows|
  {
    if rows == [] then Absent
    else
      var front, last := Find(rows[..|rows| - 1], key), rows[|rows| - 1];
      if !Matches(last, key) then front else if front.Absent? then At(|rows| - 1) else Several
  }

  lemma {:induction false} FindMeans(rows: seq<Row>, key: Key)
    ensures Find(rows, key).Absent? <==> forall i :: 0 <= i < |rows| ==> !Matches(rows[i], key)
    ensures Find(rows, key).At? ==> forall i :: 0 <= i < |rows| ==> (Matches(rows[i], key) <==> i == Find(rows, key).i)
    ensures Find(rows, key).Several?
      ==> exists i, j :: 0 <= i < j < |rows| && Matches(rows[i], key) && Matches(rows[j], key)
  {
    if rows != [] {
      var last := |rows| - 1;
      FindMeans(rows[..last], key);
      assert forall i :: 0 <= i < last ==> rows[..last][i] == rows[i];
      if Find(rows, key).Several? {
        if Find(rows[..last], key).At? {
          assert Matches(rows[Find(rows[..last], key).i], key) && Matches(rows[last], key);
        } else {
          var i, j :| 0 <= i < j < last && Matches(rows[..last][i], key) && Matches(rows[..last][j], key);
          assert Matches(rows[i], key) && Matches(rows[j], key);
        }
      }
    }
  }

  lemma {:induction false} FindOnly(rows: seq<Row>, key: Key, i: nat)
    requires i < |rows| && forall j :: 0 <= j < |rows| ==> (Matches(rows[j], key) <==> j == i)
    ensures Find(rows, key) == At(i)
  {
    FindMeans(rows, key);
    assert Matches(rows[i], key);
  }

  /** `get_user_plan`. */
  function UserPlan(rows: seq<Row>, user: nat): Plan {
    match Find(rows, UserId(user))
    case At(i) => if rows[i].status == ACTIVE || rows[i].status == TRIALING then rows[i].plan else FREE
    case _ => FREE
  }

  /** The paid plan is a row's with that plan and an active or trialing status. */
  lemma PlanExactly(rows: seq<Row>, users: set<nat>, user: nat)
    requires Consistent(rows, users)
    ensures UserPlan(rows, user) == PRO <==>
      exists r <- rows :: r.user == user && r.plan == PRO && (r.status == ACTIVE || r.status == TRIALING)
  {
    UserRow(rows, users, user);
  }

  // ---- Constraints -----------------------------------------------------------------------------------

  /** What the database enforces: one row a user, one row a subscription id, users that exist. */
  predicate Consistent(rows: seq<Row>, users: set<nat>) {
    && (forall i :: 0 <= i < |rows| ==> rows[i].user in users)
    && (forall i, j :: 0 <= i < j < |rows| ==> rows[i].user != rows[j].user)
    && (forall i, j :: 0 <= i < j < |rows| ==>
          rows[i].subscription.None? || rows[i].subscription != rows[j].subscription)
  }

  /** What it does not enforce. */
  ghost predicate DistinctCustomers(rows: seq<Row>) {
    forall i, j :: 0 <= i < j < |rows| ==> rows[i].customer != rows[j].customer
  }

  /** A violated constraint raises, and the caller rolls back. */
  function Flushed(before: seq<Row>, after: seq<Row>, users: set<nat>, reply: Reply): (seq<Row>, Reply) {
    if Consistent(after, users) then (after, reply) else (before, Raised)
  }

  // ---- What an event does to a row --------------------------------------------------------------------

  /** Statuses without a counterpart count as active. */
  function StatusOf(state: string): SubStatus {
    if state == "active" then ACTIVE
    else if state == "canceled" then CANCELLED
    else if state == "past_due" then PAST_DUE
    else if state == "trialing" then TRIALING
    else if state == "incomplete" then INCOMPLETE
    else ACTIVE
  }

  function NonEmpty(s: string): Option<string> {
    if s == "" then None else Some(s)
  }

  function NewRow(e: Event): Row
    requires e.Checkout? && e.user.User?
  {
    Row(e.user.id, e.customer, e.subscription, None, PRO, ACTIVE, None, None, false, NonEmpty(e.cohort))
  }

  function Changed(r: Row, e: Event): Row {
    match e
    case Checkout(_, subscription, _, cohort) =>
      r.(subscription := subscription, plan := PRO, status := ACTIVE,
         cohort := if cohort == "" then r.cohort else Some(cohort))
    case Updated(_, _, state, cancelAtEnd, start, end, price) =>
      r.(status := StatusOf(state), cancelAtEnd := cancelAtEnd,
         periodStart := if start != 0 then Some(start) else r.periodStart,
         periodEnd := if end != 0 then Some(end) else r.periodEnd,
         price := if price.Some? then price.value else r.price)
    case Deleted(_) =>
      r.(plan := FREE, status := CANCELLED, subscription := None, price := None, periodStart := None, periodEnd := None,
         cancelAtEnd := false)
    case PaymentSucceeded(_) => r.(status := ACTIVE)
    case PaymentFailed(_) => r.(status := PAST_DUE)
    case Other => r
  }

  /** Events answered without a look into the table. */
  predicate Skipped(e: Event) {
    match e
    case Checkout(customer, _, _, _) => customer == ""
    case PaymentSucceeded(id) => id == ""
    case PaymentFailed(id) => id == ""
    case Other => true
    case _ => false
  }

  /** The row an event addresses; an update not known by subscription id goes by customer. */
  function Target(rows: seq<Row>, e: Event): (found: Lookup)
    ensures found.At? ==> found.i < |rows|
  {
    match e
    case Checkout(customer, _, _, _) => Find(rows, Customer(customer))
    case Updated(id, customer, _, _, _, _, _) =>
      var found := Find(rows, Subscription(id));
      if found.Absent? then Find(rows, Customer(customer)) else found
    case Deleted(id) => Find(rows, Subscription(id))
    case PaymentSucceeded(id) => Find(rows, Subscription(id))
    case PaymentFailed(id) => Find(rows, Subscription(id))
    case Other => Absent
  }

  function Done(e: Event): Reply {
    match e
    case Checkout(_, _, _, _) => Activated
    case Updated(_, _, state, _, _, _, _) => UpdatedTo(StatusOf(state))
    case Deleted(_) => Cancelled
    case PaymentSucceeded(_) => PaymentOk
    case PaymentFailed(_) => PaymentNotOk
    case Other => Ignored
  }

  /** One delivery of an event, as one transaction. */
  function Apply(rows: seq<Row>, users: set<nat>, e: Event): (seq<Row>, Reply) {
    if Skipped(e) then (rows, if e.Checkout? then NoCustomerError else Ignored)
    else
      match Target(rows, e)
      case Several => (rows, Raised)
      case At(i) => Flushed(rows, rows[i := Changed(rows[i], e)], users, Done(e))
      case Absent =>
        if e.Checkout? then
          match e.user
          case NoUser => (rows, NoUserError)
          case BadUser => (rows, Raised)
          case User(_) => Flushed(rows, rows + [NewRow(e)], users, Activated)
        else (rows, if e.Updated? || e.Deleted? then Ignored else Done(e))
  }

  // ---- The calls that are no webhooks -----------------------------------------------------------------

  /** A customer id that stands for no Stripe customer. */
  predicate IsPlaceholder(customer: string) {
    "cus_free_" <= customer
  }

  function FreeRow(user: nat, customer: string, cohort: Option<string>): Row {
    Row(user, customer, None, None, FREE, ACTIVE, None, None, false, cohort)
  }

  /** A checkout goes to the Stripe customer in the row, if there is one; otherwise a new customer
      is written into it. */
  predicate HasCustomer(r: Row) {
    r.customer != "" && !IsPlaceholder(r.customer)
  }

  function WithCustomer(r: Row, customer: string, cohort: Option<string>): Row {
    r.(customer := customer, cohort := if cohort.Some? && cohort.value != "" then cohort else r.cohort)
  }

  /** A webhook; a request for the user's row; or the start of a checkout, with the id Stripe gives a
      new customer. */
  datatype Call =
    | Deliver(e: Event)
    | EnsureFree(user: nat, customer: string)
    | StartCheckout(user: nat, created: string, cohort: Option<string>)

  function Serve(rows: seq<Row>, users: set<nat>, call: Call): seq<Row> {
    match call
    case Deliver(e) => Apply(rows, users, e).0
    case EnsureFree(user, customer) =>
      if Find(rows, UserId(user)).Absent? then Flushed(rows, rows + [FreeRow(user, customer, None)], users, Activated).0
      else rows
    case StartCheckout(user, created, cohort) =>
      match Find(rows, UserId(user))
      case Several => rows
      case Absent => Flushed(rows, rows + [FreeRow(user, created, cohort)], users, Activated).0
      case At(i) =>
        if (rows[i].plan == PRO && rows[i].status == ACTIVE) || HasCustomer(rows[i]) then rows
        else Flushed(rows, rows[i := WithCustomer(rows[i], created, cohort)], users, Activated).0
  }

  /** A lookup by user finds the user's only row, or none. */
  lemma UserRow(rows: seq<Row>, users: set<nat>, user: nat)
    requires Consistent(rows, users)
    ensures Find(rows, UserId(user)).Absent? <==> forall r <- rows :: r.user != user
    ensures match Find(rows, UserId(user))
      case At(i) =>
        && rows[i].user == user && user in users
        && forall j :: 0 <= j < |rows| && j != i ==> rows[j].user != user
      case Absent => true
      case Several => false
  {
    FindMeans(rows, UserId(user));
    forall j | 0 <= j < |rows| ensures Matches(rows[j], UserId(user)) <==> rows[j].user == user {
    }
  }

  /** A user's row, with a new customer, keeps the constraints. */
  lemma CustomerConsistent(rows: seq<Row>, users: set<nat>, i: nat, created: string, cohort: Option<string>)
    requires Consistent(rows, users) && i < |rows|
    ensures Consistent(rows[i := WithCustomer(rows[i], created, cohort)], users)
  {
    var after := rows[i := WithCustomer(rows[i], created, cohort)];
    forall j | 0 <= j < |rows|
      ensures after[j].user == rows[j].user && after[j].subscription == rows[j].subscription
    {
    }
  }

  // ---- What each event comes to, column by column ---------------------------------------------------------

  /** The row `i`, and no other, has the customer. */
  ghost predicate OnlyCustomer(rows: seq<Row>, customer: string, i: nat) {
    i < |rows| && forall j :: 0 <= j < |rows| ==> (rows[j].customer == customer <==> j == i)
  }

  ghost predicate NoCustomer(rows: seq<Row>, customer: string) {
    forall r <- rows :: r.customer != customer
  }

  ghost predicate NoSubscription(rows: seq<Row>, id: string) {
    forall r <- rows :: r.subscription != Some(id)
  }

  /** A completed checkout puts the customer's row, or a new one of the user, on the paid plan; it is
      refused if that would use a subscription or a user twice. */
  ghost predicate CheckedOut(before: seq<Row>, users: set<nat>, e: Event, after: seq<Row>, reply: Reply)
    requires e.Checkout?
  {
    && (reply != Activated ==> after == before)
    && (e.customer == "" ==> reply == NoCustomerError)
    && (e.customer != "" ==>
      && (forall i: nat :: OnlyCustomer(before, e.customer, i) ==>
        && (reply == Activated || reply == Raised)
        && (reply == Raised <==>
              && e.subscription.Some?
              && exists j :: 0 <= j < |before| && j != i && before[j].subscription == e.subscription)
        && (reply == Activated ==> var r := before[i];
              after == before[i := Row(r.user, r.customer, e.subscription, r.price, PRO, ACTIVE,
                                       r.periodStart, r.periodEnd, r.cancelAtEnd,
                                       if e.cohort != "" then Some(e.cohort) else r.cohort)]))
      && (NoCustomer(before, e.customer) ==>
        match e.user
        case NoUser => reply == NoUserError
        case BadUser => reply == Raised
        case User(id) =>
          && (reply == Activated || reply == Raised)
          && (reply == Activated <==>
                && id in users && (forall r <- before :: r.user != id)
                && (e.subscription.Some? ==> forall r <- before :: r.subscription != e.subscription))
          && (reply == Activated ==>
                after == before + [Row(id, e.customer, e.subscription, None, PRO, ACTIVE, None, None, false,
                                       if e.cohort != "" then Some(e.cohort) else None)])))
  }

  /** An update sets status, cancellation, and those of period and price that it brings. */
  ghost predicate Synced(r: Row, e: Event, after: Row)
    requires e.Updated?
  {
    && after.user == r.user && after.customer == r.customer && after.subscription == r.subscription
    && after.plan == r.plan && after.cohort == r.cohort
    && after.cancelAtEnd == e.cancelAtEnd
    && after.periodStart == (if e.start == 0 then r.periodStart else Some(e.start))
    && after.periodEnd == (if e.end == 0 then r.periodEnd else Some(e.end))
    && (e.price.None? ==> after.price == r.price) && (e.price.Some? ==> after.price == e.price.value)
    && (after.status == CANCELLED <==> e.state == "canceled")
    && (after.status == PAST_DUE <==> e.state == "past_due")
    && (after.status == TRIALING <==> e.state == "trialing")
    && (after.status == INCOMPLETE <==> e.state == "incomplete")
  }

  /** The row with the subscription, or if there is none the only one with the customer. */
  ghost predicate Addressed(rows: seq<Row>, e: Event, i: nat)
    requires e.Updated?
  {
    i < |rows| &&
    (rows[i].subscription == Some(e.id) || (NoSubscription(rows, e.id) && OnlyCustomer(rows, e.customer, i)))
  }

  ghost predicate UpdatedRow(before: seq<Row>, e: Event, after: seq<Row>, reply: Reply)
    requires e.Updated?
  {
    && (forall i: nat :: Addressed(before, e, i) ==>
          && |after| == |before| && after == before[i := after[i]]
          && Synced(before[i], e, after[i]) && reply == UpdatedTo(after[i].status))
    && (NoSubscription(before, e.id) && NoCustomer(before, e.customer) ==> after == before && reply == Ignored)
  }

  /** A deletion leaves user, customer and cohort. */
  ghost predicate DeletedRow(before: seq<Row>, id: string, after: seq<Row>, reply: Reply) {
    && (forall i :: 0 <= i < |before| && before[i].subscription == Some(id) ==>
          && reply == Cancelled && UserPlan(after, before[i].user) == FREE
          && after == before[i := Row(before[i].user, before[i].customer, None, None, FREE, CANCELLED,
                                      None, None, false, before[i].cohort)])
    && (NoSubscription(before, id) ==> after == before && reply == Ignored)
  }

  /** A payment sets the status and nothing else: with it the row's plan counts, without it none. */
  ghost predicate PaymentRow(before: seq<Row>, id: string, paid: bool, after: seq<Row>, reply: Reply) {
    && (id == "" ==> after == before && reply == Ignored)
    && (id != "" ==>
      && reply == (if paid then PaymentOk else PaymentNotOk)
      && (forall i :: 0 <= i < |before| && before[i].subscription == Some(id) ==>
            && after == before[i := before[i].(status := if paid then ACTIVE else PAST_DUE)]
            && UserPlan(after, before[i].user) == if paid then before[i].plan else FREE)
      && (NoSubscription(before, id) ==> after == before))
  }

  ghost predicate Handled(before: seq<Row>, users: set<nat>, e: Event, after: seq<Row>, reply: Reply) {
    match e
    case Checkout(_, _, _, _) => CheckedOut(before, users, e, after, reply)
    case Updated(_, _, _, _, _, _, _) => UpdatedRow(before, e, after, reply)
    case Deleted(id) => DeletedRow(before, id, after, reply)
    case PaymentSucceeded(id) => PaymentRow(before, id, true, after, reply)
    case PaymentFailed(id) => PaymentRow(before, id, false, after, reply)
    case Other => after == before && reply == Ignored
  }

  lemma SubscriptionAt(rows: seq<Row>, users: set<nat>, id: string, i: nat)
    requires Consistent(rows, users) && i < |rows| && rows[i].subscription == Some(id)
    ensures Find(rows, Subscription(id)) == At(i)
  {
    FindOnly(rows, Subscription(id), i);
  }

  lemma SubscriptionAbsent(rows: seq<Row>, id: string)
    requires NoSubscription(rows, id)
    ensures Find(rows, Subscription(id)) == Absent
  {
    FindMeans(rows, Subscription(id));
  }

  lemma CustomerAt(rows: seq<Row>, customer: string, i: nat)
    requires OnlyCustomer(rows, customer, i)
    ensures Find(rows, Customer(customer)) == At(i)
  {
    FindOnly(rows, Customer(customer), i);
  }

  lemma CustomerAbsent(rows: seq<Row>, customer: string)
    requires NoCustomer(rows, customer)
    ensures Find(rows, Customer(customer)) == Absent
  {
    FindMeans(rows, Customer(customer));
  }

  /** A row that keeps its user and keeps or gives up its subscription violates nothing. */
  lemma PutConsistent(rows: seq<Row>, users: set<nat>, i: nat, r: Row)
    requires Consistent(rows, users) && i < |rows|
    requires r.user == rows[i].user && (r.subscription == rows[i].subscription || r.subscription.None?)
    ensures Consistent(rows[i := r], users)
    ensures UserPlan(rows[i := r], r.user) == if r.status == ACTIVE || r.status == TRIALING then r.plan else FREE
  {
    var after := rows[i := r];
    assert forall j :: 0 <= j < |rows| && j != i ==> after[j] == rows[j];
    FindOnly(after, UserId(r.user), i);
  }

  lemma PaymentExactly(rows: seq<Row>, users: set<nat>, e: Event)
    requires Consistent(rows, users) && (e.PaymentSucceeded? || e.PaymentFailed?)
    ensures var (after, reply) := Apply(rows, users, e); PaymentRow(rows, e.id, e.PaymentSucceeded?, after, reply)
  {
    hide Find, UserPlan, Consistent;
    forall i | 0 <= i < |rows| && rows[i].subscription == Some(e.id)
      ensures e.id != "" ==>
        && Apply(rows, users, e) ==
             (rows[i := rows[i].(status := if e.PaymentSucceeded? then ACTIVE else PAST_DUE)],
              if e.PaymentSucceeded? then PaymentOk else PaymentNotOk)
        && UserPlan(Apply(rows, users, e).0, rows[i].user) == if e.PaymentSucceeded? then rows[i].plan else FREE
    {
      SubscriptionAt(rows, users, e.id, i);
      PutConsistent(rows, users, i, rows[i].(status := if e.PaymentSucceeded? then ACTIVE else PAST_DUE));
    }
    if NoSubscription(rows, e.id) { SubscriptionAbsent(rows, e.id); }
    if e.id != "" { PaymentReplies(rows, users, e); }
    hide Apply;
  }

  lemma PaymentReplies(rows: seq<Row>, users: set<nat>, e: Event)
    requires Consistent(rows, users) && (e.PaymentSucceeded? || e.PaymentFailed?) && e.id != ""
    ensures Apply(rows, users, e).1 == if e.PaymentSucceeded? then PaymentOk else PaymentNotOk
  {
    FindMeans(rows, Subscription(e.id));
    if i :| 0 <= i < |rows| && rows[i].subscription == Some(e.id) {
      SubscriptionAt(rows, users, e.id, i);
      PutConsistent(rows, users, i, Changed(rows[i], e));
    }
    hide Consistent;
  }

  lemma DeletionExactly(rows: seq<Row>, users: set<nat>, e: Event)
    requires Consistent(rows, users) && e.Deleted?
    ensures var (after, reply) := Apply(rows, users, e); DeletedRow(rows, e.id, after, reply)
  {
    hide Find, UserPlan, Consistent;
    forall i | 0 <= i < |rows| && rows[i].subscription == Some(e.id)
      ensures Find(rows, Subscription(e.id)) == At(i)
      ensures Consistent(rows[i := Changed(rows[i], e)], users)
      ensures UserPlan(rows[i := Changed(rows[i], e)], rows[i].user) == FREE
    {
      SubscriptionAt(rows, users, e.id, i);
      PutConsistent(rows, users, i, Changed(rows[i], e));
    }
    if NoSubscription(rows, e.id) { SubscriptionAbsent(rows, e.id); }
  }

  lemma UpdateExactly(rows: seq<Row>, users: set<nat>, e: Event)
    requires Consistent(rows, users) && e.Updated?
    ensures var (after, reply) := Apply(rows, users, e); UpdatedRow(rows, e, after, reply)
  {
    hide Find, Consistent;
    forall i: nat | Addressed(rows, e, i)
      ensures Target(rows, e) == At(i) && Consistent(rows[i := Changed(rows[i], e)], users)
    {
      if rows[i].subscription == Some(e.id) {
        SubscriptionAt(rows, users, e.id, i);
      } else {
        SubscriptionAbsent(rows, e.id);
        CustomerAt(rows, e.customer, i);
      }
      PutConsistent(rows, users, i, Changed(rows[i], e));
    }
    if NoSubscription(rows, e.id) && NoCustomer(rows, e.customer) {
      SubscriptionAbsent(rows, e.id);
      CustomerAbsent(rows, e.customer);
    }
  }

  /** A subscription set on a row is refused exactly if another row has it. */
  lemma SubscribedConsistent(rows: seq<Row>, users: set<nat>, i: nat, r: Row)
    requires Consistent(rows, users) && i < |rows| && r.user == rows[i].user
    ensures Consistent(rows[i := r], users) <==>
      !(r.subscription.Some? && exists j :: 0 <= j < |rows| && j != i && rows[j].subscription == r.subscription)
  {
    var after := rows[i := r];
    assert after[i] == r && forall j :: 0 <= j < |rows| && j != i ==> after[j] == rows[j];
  }

  lemma InsertedConsistent(rows: seq<Row>, users: set<nat>, r: Row)
    requires Consistent(rows, users)
    ensures Consistent(rows + [r], users) <==>
      && r.user in users && (forall x <- rows :: x.user != r.user)
      && (r.subscription.Some? ==> forall x <- rows :: x.subscription != r.subscription)
  {
    var after := rows + [r];
    assert after[|rows|] == r && forall j :: 0 <= j < |rows| ==> after[j] == rows[j];
  }

  lemma CheckoutExactly(rows: seq<Row>, users: set<nat>, e: Event)
    requires Consistent(rows, users) && e.Checkout?
    ensures var (after, reply) := Apply(rows, users, e); CheckedOut(rows, users, e, after, reply)
  {
    hide Find, Consistent;
    forall i: nat | OnlyCustomer(rows, e.customer, i)
      ensures Find(rows, Customer(e.customer)) == At(i)
      ensures Consistent(rows[i := Changed(rows[i], e)], users) <==>
        !(e.subscription.Some? && exists j :: 0 <= j < |rows| && j != i && rows[j].subscription == e.subscription)
    {
      CustomerAt(rows, e.customer, i);
      SubscribedConsistent(rows, users, i, Changed(rows[i], e));
    }
    if NoCustomer(rows, e.customer) {
      CustomerAbsent(rows, e.customer);
      if e.user.User? { InsertedConsistent(rows, users, NewRow(e)); }
    }
  }

  /** The one transaction that an event is, column by column. */
  lemma HandledExactly(rows: seq<Row>, users: set<nat>, e: Event)
    requires Consistent(rows, users)
    ensures var (after, reply) := Apply(rows, users, e); Handled(rows, users, e, after, reply)
  {
    hide Consistent, CheckedOut, UpdatedRow, DeletedRow, PaymentRow;
    match e {
      case Checkout(_, _, _, _) => CheckoutExactly(rows, users, e);
      case Updated(_, _, _, _, _, _, _) => UpdateExactly(rows, users, e);
      case Deleted(_) => DeletionExactly(rows, users, e);
      case PaymentSucceeded(_) => PaymentExactly(rows, users, e);
      case PaymentFailed(_) => PaymentExactly(rows, users, e);
      case Other =>
    }
  }

  // ---- The session ----------------------------------------------------------------------------------------

  /** The subscriptions table as a webhook call sees it. */
  class Session {
    const users: set<nat>
    var rows: seq<Row>

    ghost predicate Valid()
      reads this
    {
      Consistent(rows, users)
    }

    constructor (users: set<nat>)
      ensures this.users == users && rows == [] && Valid()
    {
      this.users := users;
      rows := [];
    }

    /** `flush`, and the rollback to `before` if it raises. */
    method Flush(before: seq<Row>, reply: Reply) returns (out: Reply)
      requires Consistent(before, users)
      modifies this
      ensures (rows, out) == Flushed(before, old(rows), users, reply)
    {
      if Consistent(rows, users) {
        return reply;
      }
      rows := before;
      return Raised;
    }

    method CheckoutCompleted(e: Event) returns (reply: Reply)
      requires Valid() && e.Checkout?
      modifies this
      ensures Valid() && (rows, reply) == Apply(old(rows), users, e)
      ensures CheckedOut(old(rows), users, e, rows, reply)
    {
      CheckoutExactly(rows, users, e);
      hide CheckedOut;
      if e.customer == "" {
        return NoCustomerError;
      }
      var before := rows;
      match Find(rows, Customer(e.customer)) {
        case Several => return Raised;
        case Absent =>
          match e.user {
            case NoUser => return NoUserError;
            case BadUser => return Raised;
            case User(id) =>
              rows := rows + [Row(id, e.customer, e.subscription, None, PRO, ACTIVE, None, None, false,
                NonEmpty(e.cohort))];
          }
        case At(i) =>
          rows := rows[i := rows[i].(subscription := e.subscription)];
          rows := rows[i := rows[i].(plan := PRO)];
          rows := rows[i := rows[i].(status := ACTIVE)];
          if e.cohort != "" {
            rows := rows[i := rows[i].(cohort := Some(e.cohort))];
          }
          assert rows == before[i := Changed(before[i], e)];
      }
      reply := Flush(before, Activated);
    }

    method SubscriptionUpdated(e: Event) returns (reply: Reply)
      requires Valid() && e.Updated?
      modifies this
      ensures Valid() && (rows, reply) == Apply(old(rows), users, e)
      ensures UpdatedRow(old(rows), e, rows, reply)
    {
      UpdateExactly(rows, users, e);
      hide UpdatedRow;
      var found := Find(rows, Subscription(e.id));
      if found.Absent? {
        found := Find(rows, Customer(e.customer));
      }
      match found {
        case Several => return Raised;
        case Absent => return Ignored;
        case At(i) =>
          var before := rows;
          var sub := rows[i].(status := StatusOf(e.state), cancelAtEnd := e.cancelAtEnd);
          if e.start != 0 { sub := sub.(periodStart := Some(e.start)); }
          if e.end != 0 { sub := sub.(periodEnd := Some(e.end)); }
          if e.price.Some? { sub := sub.(price := e.price.value); }
          rows := rows[i := sub];
          reply := Flush(before, UpdatedTo(sub.status));
      }
    }

    method SubscriptionDeleted(e: Event) returns (reply: Reply)
      requires Valid() && e.Deleted?
      modifies this
      ensures Valid() && (rows, reply) == Apply(old(rows), users, e)
      ensures DeletedRow(old(rows), e.id, rows, reply)
    {
      DeletionExactly(rows, users, e);
      hide DeletedRow;
      match Find(rows, Subscription(e.id)) {
        case Several => return Raised;
        case Absent => return Ignored;
        case At(i) =>
          var before := rows;
          rows := rows[i := rows[i].(plan := FREE, status := CANCELLED)];
          rows := rows[i := rows[i].(subscription := None, price := None)];
          rows := rows[i := rows[i].(periodStart := None, periodEnd := None, cancelAtEnd := false)];
          assert rows == before[i := Changed(before[i], e)];
          reply := Flush(before, Cancelled);
      }
    }

    method ConfirmPayment(e: Event) returns (reply: Reply)
      requires Valid() && e.PaymentSucceeded?
      modifies this
      ensures Valid() && (rows, reply) == Apply(old(rows), users, e)
      ensures PaymentRow(old(rows), e.id, true, rows, reply)
    {
      PaymentExactly(rows, users, e);
      hide PaymentRow;
      if e.id == "" {
        return Ignored;
      }
      match Find(rows, Subscription(e.id)) {
        case Several => return Raised;
        case Absent => return Done(e);
        case At(i) =>
          var before := rows;
          if rows[i].status != ACTIVE {
            rows := rows[i := rows[i].(status := ACTIVE)];
          }
          assert rows == before[i := Changed(before[i], e)];
          reply := Flush(before, Done(e));
      }
    }

    method RejectPayment(e: Event) returns (reply: Reply)
      requires Valid() && e.PaymentFailed?
      modifies this
      ensures Valid() && (rows, reply) == Apply(old(rows), users, e)
      ensures PaymentRow(old(rows), e.id, false, rows, reply)
    {
      PaymentExactly(rows, users, e);
      hide PaymentRow;
      if e.id == "" {
        return Ignored;
      }
      match Find(rows, Subscription(e.id)) {
        case Several => return Raised;
        case Absent => return Done(e);
        case At(i) =>
          var before := rows;
          rows := rows[i := rows[i].(status := PAST_DUE)];
          assert rows == before[i := Changed(before[i], e)];
          reply := Flush(before, Done(e));
      }
    }

    /** `handle_webhook_event` inside its transaction. */
    method HandleWebhookEvent(e: Event) returns (reply: Reply)
      requires Valid()
      modifies this
      ensures Valid() && (rows, reply) == Apply(old(rows), users, e)
      ensures Handled(old(rows), users, e, rows, reply)
    {
      HandledExactly(rows, users, e);
      hide Handled;
      match e {
        case Checkout(_, _, _, _) => reply := CheckoutCompleted(e);
        case Updated(_, _, _, _, _, _, _) => reply := SubscriptionUpdated(e);
        case Deleted(_) => reply := SubscriptionDeleted(e);
        case PaymentSucceeded(_) => reply := ConfirmPayment(e);
        case PaymentFailed(_) => reply := RejectPayment(e);
        case Other => reply := Ignored;
      }
    }

    /** The user's row, created as a free one if there is none; `None` if the insert is refused. */
    method GetOrCreateFree(user: nat, customer: string, freeCustomer: nat -> string) returns (sub: Option<Row>)
      requires Valid()
      modifies this
      ensures Valid()
      ensures rows == Serve(old(rows), users, EnsureFree(user, if customer == "" then freeCustomer(user) else customer))
      ensures sub.Some? <==> Find(old(rows), UserId(user)).At? || user in users
      ensures sub.Some? ==> sub.value in rows && sub.value.user == user
      ensures Find(old(rows), UserId(user)).At? || sub.None? ==> rows == old(rows)
      ensures !Find(old(rows), UserId(user)).At? && sub.Some? ==>
        && rows == old(rows) + [sub.value]
        && sub.value == Row(user, if customer == "" then freeCustomer(user) else customer, None, None, FREE, ACTIVE,
                            None, None, false, None)
    {
      FindMeans(rows, UserId(user));
      var found := Find(rows, UserId(user));
      if found.At? {
        assert rows[found.i] in rows;
        return Some(rows[found.i]);
      }
      var before := rows;
      var key := if customer == "" then freeCustomer(user) else customer;
      var row := Row(user, key, None, None, FREE, ACTIVE, None, None, false, None);
      rows := rows + [row];
      assert rows[|before|] == row;
      assert forall i :: 0 <= i < |before| ==> !Matches(before[i], UserId(user));
      var reply := Flush(before, Activated);
      return if reply == Raised then None else Some(row);
    }

    /** `create_checkout_session`, whose result is the customer the checkout is for; `created` is the
        id Stripe gives a customer created here. */
    method CreateCheckout(user: nat, created: string, cohort: Option<string>) returns (customer: Option<string>)
      requires Valid()
      modifies this
      ensures Valid() && rows == Serve(old(rows), users, StartCheckout(user, created, cohort))
      ensures match Find(old(rows), UserId(user))
        case At(i) =>
          var r := old(rows)[i];
          && (customer.None? <==> r.plan == PRO && r.status == ACTIVE)
          && (customer.None? ==> rows == old(rows))
          && (customer.Some? && r.customer != "" && !("cus_free_" <= r.customer) ==>
                customer.value == r.customer && rows == old(rows))
          && (customer.Some? && (r.customer == "" || "cus_free_" <= r.customer) ==>
                && customer.value == created
                && rows == old(rows)[i := r.(customer := created,
                     cohort := if cohort == None || cohort == Some("") then r.cohort else cohort)])
        case Absent =>
          && customer == (if user in users then Some(created) else None)
          && rows == old(rows) +
               (if user in users then [Row(user, created, None, None, FREE, ACTIVE, None, None, false, cohort)] else [])
        case Several => false
      ensures customer.Some? ==> exists r :: r in rows && r.user == user && r.customer == customer.value
    {
      UserRow(rows, users, user);
      hide Find, Consistent;
      var before := rows;
      match Find(rows, UserId(user)) {
        case Several => return None;
        case At(i) =>
          CustomerConsistent(rows, users, i, created, cohort);
          if rows[i].plan == PRO && rows[i].status == ACTIVE {
            return None;
          }
          if rows[i].customer != "" && !IsPlaceholder(rows[i].customer) {
            assert rows[i] in rows;
            return Some(rows[i].customer);
          }
          rows := rows[i := rows[i].(customer := created)];
          if cohort.Some? && cohort.value != "" {
            rows := rows[i := rows[i].(cohort := cohort)];
          }
          assert rows == before[i := WithCustomer(before[i], created, cohort)];
          assert rows[i] in rows;
        case Absent =>
          InsertedConsistent(rows, users, Row(user, created, None, None, FREE, ACTIVE, None, None, false, cohort));
          rows := rows + [Row(user, created, None, None, FREE, ACTIVE, None, None, false, cohort)];
          assert rows[|before|] in rows;
      }
      var reply := Flush(before, Activated);
      return if reply == Raised then None else Some(created);
    }
  }

  // ---- Delivering an event twice -------------------------------------------------------------------------

  /** A change that keeps whether a row matches keeps what is found. */
  lemma {:induction false} FindKept(rows: seq<Row>, key: Key, i: nat, r: Row)
    requires i < |rows| && (Matches(r, key) <==> Matches(rows[i], key))
    ensures Find(rows[i := r], key) == Find(rows, key)
    decreases |rows|
  {
    var last := |rows| - 1;
    if i < last {
      FindKept(rows[..last], key, i, r);
      assert rows[i := r][..last] == rows[..last][i := r];
    } else {
      assert rows[i := r][..last] == rows[..last];
    }
  }

  /** A change that ends the only match leaves none. */
  lemma FindLost(rows: seq<Row>, key: Key, i: nat, r: Row)
    requires Find(rows, key) == At(i) && !Matches(r, key)
    ensures Find(rows[i := r], key) == Absent
  {
    FindMeans(rows, key);
    FindMeans(rows[i := r], key);
  }

  /** The second delivery finds the row the first one wrote, or, after a deletion, none. */
  lemma TargetAfter(rows: seq<Row>, e: Event, i: nat)
    requires Target(rows, e) == At(i)
    ensures Target(rows[i := Changed(rows[i], e)], e) == if e.Deleted? then Absent else At(i)
  {
    var r := Changed(rows[i], e);
    match e {
      case Checkout(customer, _, _, _) => FindKept(rows, Customer(customer), i, r);
      case Updated(id, customer, _, _, _, _, _) =>
        FindKept(rows, Subscription(id), i, r);
        FindKept(rows, Customer(customer), i, r);
      case Deleted(id) => FindLost(rows, Subscription(id), i, r);
      case PaymentSucceeded(id) => FindKept(rows, Subscription(id), i, r);
      case PaymentFailed(id) => FindKept(rows, Subscription(id), i, r);
      case Other =>
    }
  }

  /** Any event delivered twice leaves the table as delivered once. */
  lemma DeliveredTwice(rows: seq<Row>, users: set<nat>, e: Event)
    requires Consistent(rows, users)
    ensures Apply(Apply(rows, users, e).0, users, e).0 == Apply(rows, users, e).0
  {
    var after := Apply(rows, users, e).0;
    if !Skipped(e) && after != rows {
      match Target(rows, e) {
        case At(i) =>
          TargetAfter(rows, e, i);
          assert after == rows[i := Changed(rows[i], e)];
          assert after[i := Changed(after[i], e)] == after;
        case Absent =>
          assert after == rows + [NewRow(e)];
          FindMeans(rows, Customer(e.customer));
          FindOnly(after, Customer(e.customer), |rows|);
          assert Changed(NewRow(e), e) == NewRow(e);
          assert after[|rows| := NewRow(e)] == after;
        case Several =>
      }
    }
  }

  // ---- Runs -----------------------------------------------------------------------------------------------

  function Run(rows: seq<Row>, users: set<nat>, calls: seq<Call>): seq<Row> {
    if calls == [] then rows
    else Serve(Run(rows, users, calls[..|calls| - 1]), users, calls[|calls| - 1])
  }

  /** Rows keep their user, and none is removed. */
  lemma ServeExtends(rows: seq<Row>, users: set<nat>, call: Call)
    ensures |rows| <= |Serve(rows, users, call)|
    ensures forall i :: 0 <= i < |rows| ==> Serve(rows, users, call)[i].user == rows[i].user
  {
  }

  lemma ServeConsistent(rows: seq<Row>, users: set<nat>, call: Call)
    requires Consistent(rows, users)
    ensures Consistent(Serve(rows, users, call), users)
  {
  }

  /** In every run users and subscription ids stay unique, and users exist. */
  lemma {:induction false} RunConsistent(rows: seq<Row>, users: set<nat>, calls: seq<Call>)
    requires Consistent(rows, users)
    ensures Consistent(Run(rows, users, calls), users)
    decreases |calls|
  {
    if calls != [] {
      RunConsistent(rows, users, calls[..|calls| - 1]);
      ServeConsistent(Run(rows, users, calls[..|calls| - 1]), users, calls[|calls| - 1]);
    }
  }

  // Customers are not unique by any constraint.

  /** The call gives a row a customer id that another row has already: it creates a row, or starts a
      checkout for a user without a paid plan or Stripe customer. */
  predicate Collides(rows: seq<Row>, users: set<nat>, call: Call) {
    match call
    case Deliver(_) => false
    case EnsureFree(user, customer) =>
      && user in users && (forall r <- rows :: r.user != user)
      && exists r <- rows :: r.customer == customer
    case StartCheckout(user, created, _) =>
      && user in users
      && (forall r <- rows :: r.user == user ==> !(r.plan == PRO && r.status == ACTIVE) && !HasCustomer(r))
      && exists r <- rows :: r.user != user && r.customer == created
  }

  lemma AppendDistinct(rows: seq<Row>, r: Row)
    requires DistinctCustomers(rows)
    ensures DistinctCustomers(rows + [r]) <==> forall j :: 0 <= j < |rows| ==> rows[j].customer != r.customer
  {
    var after := rows + [r];
    forall j | 0 <= j < |rows| ensures after[j] == rows[j] {
    }
    assert after[|rows|] == r;
  }

  lemma PutDistinct(rows: seq<Row>, i: nat, r: Row)
    requires DistinctCustomers(rows) && i < |rows|
    ensures DistinctCustomers(rows[i := r])
      <==> forall j :: 0 <= j < |rows| && j != i ==> rows[j].customer != r.customer
  {
    var after := rows[i := r];
    forall j | 0 <= j < |rows| && j != i ensures after[j] == rows[j] {
    }
    assert after[i] == r;
  }

  lemma EnsureDistinct(rows: seq<Row>, users: set<nat>, user: nat, customer: string)
    requires Consistent(rows, users) && DistinctCustomers(rows)
    ensures var call := EnsureFree(user, customer);
      DistinctCustomers(Serve(rows, users, call)) <==> !Collides(rows, users, call)
  {
    UserRow(rows, users, user);
    AppendDistinct(rows, FreeRow(user, customer, None));
    hide Find, DistinctCustomers;
  }

  lemma CheckoutDistinctRow(rows: seq<Row>, users: set<nat>, user: nat, created: string, cohort: Option<string>,
                            i: nat)
    requires Consistent(rows, users) && DistinctCustomers(rows) && Find(rows, UserId(user)) == At(i)
    ensures var call := StartCheckout(user, created, cohort);
      DistinctCustomers(Serve(rows, users, call)) <==> !Collides(rows, users, call)
  {
    UserRow(rows, users, user);
    PutDistinct(rows, i, WithCustomer(rows[i], created, cohort));
    CustomerConsistent(rows, users, i, created, cohort);
    hide Find, DistinctCustomers, Consistent, WithCustomer, HasCustomer;
  }

  lemma CheckoutDistinct(rows: seq<Row>, users: set<nat>, user: nat, created: string, cohort: Option<string>)
    requires Consistent(rows, users) && DistinctCustomers(rows)
    ensures var call := StartCheckout(user, created, cohort);
      DistinctCustomers(Serve(rows, users, call)) <==> !Collides(rows, users, call)
  {
    UserRow(rows, users, user);
    hide Find, DistinctCustomers;
    match Find(rows, UserId(user)) {
      case At(i) => CheckoutDistinctRow(rows, users, user, created, cohort, i);
      case Absent => AppendDistinct(rows, FreeRow(user, created, cohort));
      case Several =>
    }
  }

  /** Customers stay distinct across a call exactly if it does not write an id in use: a webhook
      never does. */
  lemma DistinctExactly(rows: seq<Row>, users: set<nat>, call: Call)
    requires Consistent(rows, users) && DistinctCustomers(rows)
    ensures DistinctCustomers(Serve(rows, users, call)) <==> !Collides(rows, users, call)
  {
    match call {
      case Deliver(e) => if e.Checkout? { FindMeans(rows, Customer(e.customer)); }
      case EnsureFree(user, customer) => EnsureDistinct(rows, users, user, customer);
      case StartCheckout(user, created, cohort) => CheckoutDistinct(rows, users, user, created, cohort);
    }
  }

  /** No call of the run collides. */
  ghost predicate NoCollision(rows: seq<Row>, users: set<nat>, calls: seq<Call>) {
    forall k :: 0 <= k < |calls| ==> !Collides(Run(rows, users, calls[..k]), users, calls[k])
  }

  /** Without a collision customers stay distinct in every run. */
  lemma {:induction false} RunDistinct(rows: seq<Row>, users: set<nat>, calls: seq<Call>)
    requires Consistent(rows, users) && DistinctCustomers(rows) && NoCollision(rows, users, calls)
    ensures DistinctCustomers(Run(rows, users, calls))
    decreases |calls|
  {
    if calls != [] {
      var front := calls[..|calls| - 1];
      assert forall k :: 0 <= k < |front| ==> front[..k] == calls[..k];
      RunDistinct(rows, users, front);
      RunConsistent(rows, users, front);
      DistinctExactly(Run(rows, users, front), users, calls[|calls| - 1]);
    }
  }

  /** And while customers are distinct no event's lookup is ambiguous. */
  lemma NeverAmbiguous(rows: seq<Row>, users: set<nat>, e: Event)
    requires Consistent(rows, users) && DistinctCustomers(rows)
    ensures !Target(rows, e).Several?
  {
    forall key: Key ensures !Find(rows, key).Several? {
      FindMeans(rows, key);
    }
  }

  lemma RunAppend(rows: seq<Row>, users: set<nat>, calls: seq<Call>, call: Call)
    ensures Run(rows, users, calls + [call]) == Serve(Run(rows, users, calls), users, call)
  {
    assert (calls + [call])[..|calls|] == calls;
  }

  lemma FreeRowAdded(rows: seq<Row>, users: set<nat>, user: nat, customer: string)
    requires Consistent(rows, users) && user in users && forall i :: 0 <= i < |rows| ==> rows[i].user != user
    ensures Serve(rows, users, EnsureFree(user, customer)) == rows + [FreeRow(user, customer, None)]
    ensures Consistent(rows + [FreeRow(user, customer, None)], users)
  {
    FindMeans(rows, UserId(user));
  }

  lemma TwoFreeRows(customer: string)
    ensures Serve([], {0, 1}, EnsureFree(0, customer)) == [FreeRow(0, customer, None)]
    ensures Serve([FreeRow(0, customer, None)], {0, 1}, EnsureFree(1, customer))
         == [FreeRow(0, customer, None), FreeRow(1, customer, None)]
    ensures Find([FreeRow(0, customer, None), FreeRow(1, customer, None)], Customer(customer)) == Several
  {
    var one, two := [FreeRow(0, customer, None)], [FreeRow(0, customer, None), FreeRow(1, customer, None)];
    FindMeans(two, Customer(customer));
    assert Matches(two[0], Customer(customer)) && Matches(two[1], Customer(customer));
    hide Serve, Find;
    FreeRowAdded([], {0, 1}, 0, customer);
    FreeRowAdded(one, {0, 1}, 1, customer);
    assert [] + one == one && one + [two[1]] == two;
  }

  /** Two users' rows created for the same customer: every checkout of that customer raises. */
  lemma SharedCustomer(customer: string, subscription: Option<string>, user: UserRef) returns (calls: seq<Call>)
    requires customer != ""
    ensures calls == [EnsureFree(0, customer), EnsureFree(1, customer)]
    ensures Apply(Run([], {0, 1}, calls), {0, 1}, Checkout(customer, subscription, user, "")).1 == Raised
  {
    TwoFreeRows(customer);
    RunAppend([], {0, 1}, [], EnsureFree(0, customer));
    RunAppend([], {0, 1}, [EnsureFree(0, customer)], EnsureFree(1, customer));
    assert [] + [EnsureFree(0, customer)] == [EnsureFree(0, customer)];
    calls := [EnsureFree(0, customer)] + [EnsureFree(1, customer)];
    hide Serve, Run, Find;
  }

  // ---- Who is on the paid plan -----------------------------------------------------------------------------

  /** The last event that was applied to a row and changes plans. */
  datatype Grant = Never | ByCheckout | ByDeletion

  ghost predicate Activates(before: seq<Row>, users: set<nat>, call: Call, i: nat) {
    && call.Deliver? && call.e.Checkout?
    && var (after, reply) := Apply(before, users, call.e);
    && reply == Activated && i < |after| && after[i].customer == call.e.customer
  }

  ghost predicate Cancels(before: seq<Row>, users: set<nat>, call: Call, i: nat) {
    && call.Deliver? && call.e.Deleted?
    && Apply(before, users, call.e).1 == Cancelled && i < |before| && before[i].subscription == Some(call.e.id)
  }

  ghost function LastGrant(rows: seq<Row>, users: set<nat>, calls: seq<Call>, i: nat): Grant {
    if calls == [] then Never
    else
      var front, call := calls[..|calls| - 1], calls[|calls| - 1];
      var before := Run(rows, users, front);
      if Activates(before, users, call, i) then ByCheckout
      else if Cancels(before, users, call, i) then ByDeletion
      else LastGrant(rows, users, front, i)
  }

  /** What one call does to one row's plan. */
  lemma PlanAfter(before: seq<Row>, users: set<nat>, call: Call, i: nat)
    requires i < |Serve(before, users, call)|
    ensures Serve(before, users, call)[i].plan ==
      if Activates(before, users, call, i) then PRO
      else if Cancels(before, users, call, i) then FREE
      else if i < |before| then before[i].plan else FREE
  {
    if call.Deliver? && call.e.Checkout? { FindMeans(before, Customer(call.e.customer)); }
    if call.Deliver? && call.e.Deleted? { FindMeans(before, Subscription(call.e.id)); }
  }

  /** A row is on the paid plan exactly if the last plan-changing event applied to it was a
      completed checkout. */
  lemma {:induction false} PlanIsLastGrant(rows: seq<Row>, users: set<nat>, calls: seq<Call>, i: nat)
    requires i < |rows| ==> rows[i].plan == FREE
    requires i < |Run(rows, users, calls)|
    ensures Run(rows, users, calls)[i].plan == PRO <==> LastGrant(rows, users, calls, i) == ByCheckout
    decreases |calls|
  {
    if calls != [] {
      var front, call := calls[..|calls| - 1], calls[|calls| - 1];
      var before := Run(rows, users, front);
      PlanAfter(before, users, call, i);
      if i < |before| {
        PlanIsLastGrant(rows, users, front, i);
      } else {
        NoRowNoGrant(rows, users, front, i);
      }
    }
  }

  lemma {:induction false} NoRowNoGrant(rows: seq<Row>, users: set<nat>, calls: seq<Call>, i: nat)
    requires i >= |Run(rows, users, calls)|
    ensures LastGrant(rows, users, calls, i) == Never
    decreases |calls|
  {
    if calls != [] {
      var front, call := calls[..|calls| - 1], calls[|calls| - 1];
      ServeExtends(Run(rows, users, front), users, call);
      NoRowNoGrant(rows, users, front, i);
    }
  }

  /** From any table of free rows, after any calls: a user is on the paid plan exactly if their row's
      last plan-changing event was a completed checkout and its status is active or trialing. */
  lemma ProOnlyByCheckout(start: seq<Row>, users: set<nat>, calls: seq<Call>, user: nat)
    requires Consistent(start, users) && forall i :: 0 <= i < |start| ==> start[i].plan == FREE
    ensures UserPlan(Run(start, users, calls), user) == PRO <==>
      exists i :: 0 <= i < |Run(start, users, calls)| && PaidRow(Run(start, users, calls)[i], user)
        && LastGrant(start, users, calls, i) == ByCheckout
  {
    var rows := Run(start, users, calls);
    RunConsistent(start, users, calls);
    FindMeans(rows, UserId(user));
    forall i | 0 <= i < |rows| ensures rows[i].plan == PRO <==> LastGrant(start, users, calls, i) == ByCheckout {
      PlanIsLastGrant(start, users, calls, i);
    }
    forall i | 0 <= i < |rows| && rows[i].user == user ensures Find(rows, UserId(user)) == At(i) {
      assert Matches(rows[i], UserId(user));
    }
  }

  predicate PaidRow(r: Row, user: nat) {
    r.user == user && (r.status == ACTIVE || r.status == TRIALING)
  }

  ghost predicate NoCheckout(calls: seq<Call>) {
    forall k :: 0 <= k < |calls| ==> !(calls[k].Deliver? && calls[k].e.Checkout?)
  }

  lemma {:induction false} FreeStaysFree(rows: seq<Row>, users: set<nat>, calls: seq<Call>, i: nat)
    requires i < |rows| && rows[i].plan == FREE && NoCheckout(calls)
    ensures |Run(rows, users, calls)| >= |rows|
    ensures Run(rows, users, calls)[i].plan == FREE && Run(rows, users, calls)[i].user == rows[i].user
    decreases |calls|
  {
    if calls != [] {
      var front, call := calls[..|calls| - 1], calls[|calls| - 1];
      FreeStaysFree(rows, users, front, i);
      ServeExtends(Run(rows, users, front), users, call);
      PlanAfter(Run(rows, users, front), users, call, i);
    }
  }

  /** After an applied deletion no calls other than the delivery of a checkout bring the paid plan
      back. */
  lemma DeletionIsFinal(rows: seq<Row>, users: set<nat>, id: string, calls: seq<Call>, i: nat)
    requires Consistent(rows, users) && i < |rows|
    requires Cancels(rows, users, Deliver(Deleted(id)), i) && NoCheckout(calls)
    ensures UserPlan(Run(Apply(rows, users, Deleted(id)).0, users, calls), rows[i].user) == FREE
  {
    var after := Apply(rows, users, Deleted(id)).0;
    FindMeans(rows, Subscription(id));
    assert Matches(rows[i], Subscription(id));
    FreeStaysFree(after, users, calls, i);
    var final := Run(after, users, calls);
    RunConsistent(after, users, calls);
    FindMeans(final, UserId(rows[i].user));
    assert Matches(final[i], UserId(rows[i].user));
  }

  /** An update leaves a user on the paid plan exactly if their row has it and Stripe's status is
      none of canceled, past_due and incomplete: any status without a counterpart counts as paid
      up. */
  lemma AccessAfterUpdate(rows: seq<Row>, users: set<nat>, e: Event, i: nat)
    requires Consistent(rows, users) && e.Updated? && Target(rows, e) == At(i)
    ensures UserPlan(Apply(rows, users, e).0, rows[i].user) == PRO <==>
      rows[i].plan == PRO && e.state !in {"canceled", "past_due", "incomplete"}
  {
    var after := rows[i := Changed(rows[i], e)];
    assert Consistent(after, users);
    FindMeans(after, UserId(rows[i].user));
    assert Matches(after[i], UserId(rows[i].user));
  }

  lemma PaidRowFound(e: Event)
    requires e.Checkout? && e.customer == "c" && e.subscription == Some("s") && e.user == User(0)
    ensures Serve([], {0}, Deliver(e)) == [NewRow(e)] && Consistent([NewRow(e)], {0})
    ensures Find([NewRow(e)], Subscription("s")) == At(0)
  {
    FindOnly([NewRow(e)], Subscription("s"), 0);
  }

  /** A subscription that Stripe reports as unpaid keeps its user on the paid plan. */
  lemma UnpaidKeepsPaidPlan() returns (calls: seq<Call>)
    ensures calls == [Deliver(Checkout("c", Some("s"), User(0), "")),
                      Deliver(Updated("s", "c", "unpaid", false, 0, 0, None))]
    ensures UserPlan(Run([], {0}, calls), 0) == PRO
  {
    var checkout, update := Checkout("c", Some("s"), User(0), ""), Updated("s", "c", "unpaid", false, 0, 0, None);
    PaidRowFound(checkout);
    AccessAfterUpdate([NewRow(checkout)], {0}, update, 0);
    RunAppend([], {0}, [], Deliver(checkout));
    RunAppend([], {0}, [Deliver(checkout)], Deliver(update));
    assert [] + [Deliver(checkout)] == [Deliver(checkout)];
    calls := [Deliver(checkout)] + [Deliver(update)];
  }
}
