/** Suspension, resumption and deletion of local actors, and the gate every queued delivery passes:
    tasks are taken from the queue in any order, retried and interleaved with state changes. */
module Lifecycle {
  import opened Text
  import opened Paging
  import FanOut

  const PAGE_SIZE := 100

  datatype Kind = DeleteKind | UndoKind | OtherKind

  /** An activity as far as the gate reads it; `inner` is the object of an Undo. */
  datatype Activity = Activity(kind: Kind, id: Option<string>, actor: Option<string>, target: Option<string>,
                               inner: Option<Inner>)
  datatype Inner = Inner(isDelete: bool, id: Option<string>, target: Option<string>)

  /** A local actor. Times are in milliseconds, as ids and the store keep them. */
  datatype Actor = Actor(uri: string, owner: nat, suspended: bool, suspendedAt: Option<nat>, deletedAt: Option<nat>)

  datatype Verdict = Deliver | RetryLater | Drop

  // ---------------------------------------------------------------- ids and activities

  function Digit(n: nat): char
    requires n < 10
  {
    '0' + n as char
  }

  function Decimal(n: nat): (r: string)
    ensures |r| > 0
  {
    if n < 10 then [Digit(n)] else Decimal(n / 10) + [Digit(n % 10)]
  }

  function SuspensionsPrefix(uri: string): string { uri + "#suspensions/" }

  function SuspensionDeleteId(uri: string, t: nat): string { SuspensionsPrefix(uri) + Decimal(t) + "/delete" }

  function DeleteId(uri: string): string { uri + "#delete" }

  function RenderDelete(uri: string): Activity {
    Activity(DeleteKind, Some(DeleteId(uri)), Some(uri), Some(uri), None)
  }

  function RenderSuspension(uri: string, t: nat): Activity {
    Activity(DeleteKind, Some(SuspensionDeleteId(uri, t)), Some(uri), Some(uri), None)
  }

  function RenderUnsuspension(uri: string, t: nat): Activity {
    var id := SuspensionDeleteId(uri, t);
    Activity(UndoKind, Some(id + "/undo"), Some(uri), Some(id), Some(Inner(true, Some(id), Some(uri))))
  }

  /** Anything but a Delete of the actor itself, a Delete under its suspensions, or an Undo of one. */
  predicate Ordinary(uri: string, a: Activity) {
    match a.kind
    case DeleteKind => a.target != Some(uri) && !(a.id.Some? && SuspensionsPrefix(uri) <= a.id.value)
    case UndoKind => a.inner.Some? ==> !a.inner.value.isDelete || a.inner.value.target != Some(uri)
    case OtherKind => true
  }

  // ---------------------------------------------------------------- the gate

  predicate IsMatchingUnsuspension(a: Activity, uri: string, deleteId: string) {
    a.kind == UndoKind && a.actor == Some(uri) && a.inner.Some? && a.inner.value.isDelete &&
    a.inner.value.id == Some(deleteId) && a.inner.value.target == Some(uri)
  }

  function ExpectedDeleteId(actor: Actor): string {
    if actor.deletedAt == None && actor.suspendedAt.Some? then SuspensionDeleteId(actor.uri, actor.suspendedAt.value)
    else DeleteId(actor.uri)
  }

  function Gate(actor: Actor, a: Activity): Verdict {
    if actor.suspended then
      var expected := ExpectedDeleteId(actor);
      if a.kind == DeleteKind && a.id == Some(expected) && a.target == Some(actor.uri) then Deliver
      else if actor.deletedAt == None && actor.suspendedAt.Some? &&
          IsMatchingUnsuspension(a, actor.uri, expected) then RetryLater
      else Drop
    else if a.kind == DeleteKind && a.id.Some? && SuspensionsPrefix(actor.uri) <= a.id.value then RetryLater
    else Deliver
  }

  lemma {:induction false} DecimalIsInjective(m: nat, n: nat)
    requires Decimal(m) == Decimal(n)
    ensures m == n
  {
    var a, b := Decimal(m), Decimal(n);
    assert a[|a| - 1] == Digit(m % 10) && b[|b| - 1] == Digit(n % 10);
    if m >= 10 && n >= 10 {
      assert a[..|a| - 1] == Decimal(m / 10) && b[..|b| - 1] == Decimal(n / 10);
      DecimalIsInjective(m / 10, n / 10);
    }
  }

  lemma SuspensionIdIsInjective(uri: string, m: nat, n: nat)
    requires SuspensionDeleteId(uri, m) == SuspensionDeleteId(uri, n)
    ensures m == n
  {
    var p := |SuspensionsPrefix(uri)|;
    var a, b := SuspensionDeleteId(uri, m), SuspensionDeleteId(uri, n);
    assert a[p..|a| - 7] == Decimal(m) && b[p..|b| - 7] == Decimal(n);
    DecimalIsInjective(m, n);
  }

  lemma DeleteIdIsNoSuspension(uri: string, t: nat)
    ensures DeleteId(uri) != SuspensionDeleteId(uri, t) && !(SuspensionsPrefix(uri) <= DeleteId(uri))
    ensures SuspensionsPrefix(uri) <= SuspensionDeleteId(uri, t)
  {
    assert |DeleteId(uri)| < |SuspensionsPrefix(uri)|;
  }

  /** The Delete of a suspension passes exactly while the actor is suspended since that very time. */
  lemma SuspensionAtGate(actor: Actor, t: nat)
    requires WellFormed(actor)
    ensures var v := Gate(actor, RenderSuspension(actor.uri, t));
            && (v == Deliver <==> actor.deletedAt == None && actor.suspendedAt == Some(t))
            && (v == RetryLater <==> !actor.suspended)
  {
    DeleteIdIsNoSuspension(actor.uri, t);
    if actor.suspended && SuspensionDeleteId(actor.uri, t) == SuspensionDeleteId(actor.uri, actor.suspendedAt.value) {
      SuspensionIdIsInjective(actor.uri, t, actor.suspendedAt.value);
    }
  }

  /** Its Undo passes exactly while the actor is not suspended, waits while that suspension is in force,
      and is dropped in another suspension or after deletion. */
  lemma UnsuspensionAtGate(actor: Actor, t: nat)
    requires WellFormed(actor)
    ensures var v := Gate(actor, RenderUnsuspension(actor.uri, t));
            && (v == Deliver <==> !actor.suspended)
            && (v == RetryLater <==> actor.deletedAt == None && actor.suspendedAt == Some(t))
  {
    if actor.suspended && SuspensionDeleteId(actor.uri, t) == SuspensionDeleteId(actor.uri, actor.suspendedAt.value) {
      SuspensionIdIsInjective(actor.uri, t, actor.suspendedAt.value);
    }
  }

  /** The final Delete is held back only by a suspension; while the actor is active the gate lets it pass. */
  lemma DeletionAtGate(actor: Actor)
    requires WellFormed(actor)
    ensures Gate(actor, RenderDelete(actor.uri)) == Deliver <==> !actor.suspended || actor.deletedAt.Some?
  {
    DeleteIdIsNoSuspension(actor.uri, if actor.suspendedAt.Some? then actor.suspendedAt.value else 0);
  }

  lemma OrdinaryAtGate(actor: Actor, a: Activity)
    requires WellFormed(actor) && Ordinary(actor.uri, a)
    ensures Gate(actor, a) == if actor.suspended then Drop else Deliver
  {
  }

  // ---------------------------------------------------------------- state

  /** Suspended exactly since a known time; deleted actors are suspended. */
  predicate WellFormed(actor: Actor) {
    (actor.suspended <==> actor.suspendedAt.Some?) && (actor.deletedAt.Some? ==> actor.suspended)
  }

  datatype Task = Task(actor: nat, activity: Activity, inbox: string)

  /** A delivery that was made, with the actor as it was then. */
  datatype Delivery = Delivery(id: nat, actor: Actor, activity: Activity)

  /** Tasks other than ordinary ones are those the lifecycle handlers render. */
  ghost predicate Rendered(uri: string, a: Activity) {
    a == RenderDelete(uri) || (exists t: nat :: a == RenderSuspension(uri, t)) ||
        (exists t: nat :: a == RenderUnsuspension(uri, t))
  }

  /** What each delivery promises by itself. */
  ghost predicate Proper(d: Delivery) {
    && WellFormed(d.actor)
    && (Ordinary(d.actor.uri, d.activity) ==> !d.actor.suspended)
    && (forall t: nat :: d.activity == RenderSuspension(d.actor.uri, t) ==>
          d.actor.suspendedAt == Some(t) && d.actor.deletedAt == None)
    && (forall t: nat :: d.activity == RenderUnsuspension(d.actor.uri, t) ==> !d.actor.suspended)
    && (d.activity == RenderDelete(d.actor.uri) ==> d.actor.deletedAt.Some?)
  }

  /** What two deliveries for one actor promise in their order: deletion is final, and the Delete of a
      suspension never follows its Undo. */
  ghost predicate Ordered(d: Delivery, e: Delivery) {
    d.id == e.id ==>
      && d.actor.uri == e.actor.uri
      && (d.actor.deletedAt.Some? ==> e.actor.deletedAt == d.actor.deletedAt && e.activity == RenderDelete(e.actor.uri))
      && (forall t: nat :: d.activity == RenderUnsuspension(d.actor.uri, t) ==>
          e.activity != RenderSuspension(d.actor.uri, t))
  }

  // ---------------------------------------------------------------- account lifecycle, on values

  datatype Goal = Activate | Suspend | Delete

  /** The actors of the account the paging sees: those not deleted. */
  function Owned(actors: map<nat, Actor>, account: nat): set<Row<nat>> {
    set id | id in actors && actors[id].owner == account && actors[id].deletedAt == None :: Row(id, id)
  }

  predicate NeedsChange(actor: Actor, goal: Goal) {
    match goal
    case Activate => actor.suspended
    case Suspend => !actor.suspended
    case Delete => true
  }

  predicate Achieved(actor: Actor, goal: Goal) {
    match goal
    case Activate => !actor.suspended && actor.deletedAt == None
    case Suspend => actor.suspended && actor.deletedAt == None
    case Delete => actor.deletedAt.Some?
  }

  /** What the change announces, given the actor before and after it. */
  function Announcement(before: Actor, after: Actor, goal: Goal): Activity
    requires match goal
             case Activate => before.suspendedAt.Some?
             case Suspend => after.suspendedAt.Some?
             case Delete => true
  {
    match goal
    case Activate => RenderUnsuspension(before.uri, before.suspendedAt.value)
    case Suspend => RenderSuspension(before.uri, after.suspendedAt.value)
    case Delete => RenderDelete(before.uri)
  }

  /** One actor was brought to the goal: unchanged if it was there, else changed and announced once to each
      of the inboxes in `reach`. */
  ghost predicate Settled(before: Actor, after: Actor, goal: Goal, id: nat, reach: set<string>, start: multiset<Task>,
                          queue: multiset<Task>) {
    if NeedsChange(before, goal) then
      Achieved(after, goal) && after.uri == before.uri && after.owner == before.owner &&
      WellFormed(before) && WellFormed(after) &&
      forall inbox: string ::
        var task := Task(id, Announcement(before, after, goal), inbox);
        queue[task] == start[task] + if inbox in reach then 1 else 0
    else after == before
  }

  predicate SameQueueBut(q: multiset<Task>, r: multiset<Task>, id: nat) {
    (forall t <- q :: t.actor != id ==> r[t] == q[t]) && forall t <- r :: t.actor != id ==> r[t] == q[t]
  }

  /** The actors in `done` are settled, the others are as they were. */
  ghost predicate Progress(start: map<nat, Actor>, startQueue: multiset<Task>, actors: map<nat, Actor>,
                           queue: multiset<Task>,
                           goal: Goal, reach: nat -> set<string>, done: set<Row<nat>>) {
    && start.Keys == actors.Keys
    && (forall id <- start :: if Row(id, id) in done
          then Settled(start[id], actors[id], goal, id, reach(id), startQueue, queue)
          else actors[id] == start[id] && forall t: Task :: t.actor == id ==> queue[t] == startQueue[t])
  }

  function Changing(start: map<nat, Actor>, goal: Goal, done: set<Row<nat>>): set<Row<nat>> {
    set r | r in done && r.id in start && NeedsChange(start[r.id], goal)
  }

  lemma NoProgress(start: map<nat, Actor>, queue: multiset<Task>, goal: Goal, reach: nat -> set<string>)
    ensures Progress(start, queue, start, queue, goal, reach, {}) && Changing(start, goal, {}) == {}
  {
  }

  lemma SameCount(q: multiset<Task>, r: multiset<Task>, id: nat, t: Task)
    requires SameQueueBut(q, r, id) && t.actor != id
    ensures q[t] == r[t]
  {
  }

  lemma SettledKept(before: Actor, after: Actor, goal: Goal, id: nat, reach: set<string>, start: multiset<Task>,
                    q: multiset<Task>, r: multiset<Task>, other: nat)
    requires Settled(before, after, goal, id, reach, start, q) && SameQueueBut(q, r, other) && id != other
    ensures Settled(before, after, goal, id, reach, start, r)
  {
    hide SameQueueBut, RenderSuspension, RenderUnsuspension, RenderDelete;
    if NeedsChange(before, goal) {
      forall inbox: string {
        SameCount(q, r, other, Task(id, Announcement(before, after, goal), inbox));
      }
    }
  }

  lemma SettledFrom(before: Actor, after: Actor, goal: Goal, id: nat, reach: set<string>, start: multiset<Task>,
                    q: multiset<Task>, r: multiset<Task>)
    requires Settled(before, after, goal, id, reach, q, r) && forall t: Task :: t.actor == id ==> q[t] == start[t]
    ensures Settled(before, after, goal, id, reach, start, r)
  {
    hide RenderSuspension, RenderUnsuspension, RenderDelete;
  }

  lemma OneMoreDone(start: map<nat, Actor>, startQueue: multiset<Task>, actors: map<nat, Actor>, queue: multiset<Task>,
                    actors': map<nat, Actor>, queue': multiset<Task>, goal: Goal, reach: nat -> set<string>,
                    done: set<Row<nat>>, id: nat)
    requires Progress(start, startQueue, actors, queue, goal, reach, done) && Row(id, id) !in done && id in start
    requires id in actors' && actors' == actors[id := actors'[id]] && SameQueueBut(queue, queue', id)
    requires Settled(actors[id], actors'[id], goal, id, reach(id), queue, queue')
    ensures Progress(start, startQueue, actors', queue', goal, reach, done + {Row(id, id)})
  {
    hide Settled, SameQueueBut;
    forall other <- start
      ensures if Row(other, other) in done + {Row(id, id)}
              then Settled(start[other], actors'[other], goal, other, reach(other), startQueue, queue')
              else actors'[other] == start[other] && forall t: Task :: t.actor == other ==> queue'[t] == startQueue[t]
    {
      if other == id {
        SettledFrom(start[id], actors'[id], goal, id, reach(id), startQueue, queue, queue');
      } else if Row(other, other) in done {
        SettledKept(start[other], actors[other], goal, other, reach(other), startQueue, queue, queue', id);
      } else {
        forall t: Task | t.actor == other ensures queue'[t] == startQueue[t] {
          SameCount(queue, queue', id, t);
        }
      }
    }
  }

  lemma OneMoreChanging(start: map<nat, Actor>, goal: Goal, done: set<Row<nat>>, r: Row<nat>)
    requires r !in done && r.id in start
    ensures |Changing(start, goal, done + {r})| == |Changing(start, goal, done)|
            + if NeedsChange(start[r.id], goal) then 1 else 0
  {
    assert Changing(start, goal, done + {r}) == Changing(start, goal, done)
           + if NeedsChange(start[r.id], goal) then {r} else {};
  }

  /** Settled actors fall out of the listing or stay in it, but always behind the cursor. */
  lemma SamePage(start: map<nat, Actor>, startQueue: multiset<Task>, actors: map<nat, Actor>, queue: multiset<Task>,
                 goal: Goal,
                 reach: nat -> set<string>, account: nat, afterId: nat, limit: nat, page: seq<Row<nat>>)
    requires Progress(start, startQueue, actors, queue, goal, reach, Seen(Owned(start, account), afterId))
    requires IsPage(Owned(actors, account), afterId, limit, page)
    ensures IsPage(Owned(start, account), afterId, limit, page)
  {
    forall r: Row<nat> | r.id > afterId ensures r in Owned(actors, account) <==> r in Owned(start, account) {
      if r.id in start {
        assert actors[r.id] == start[r.id];
      }
    }
  }

  /** What the gate's verdict on a queued task promises of the delivery. */
  lemma DeliveryIsProper(id: nat, actor: Actor, a: Activity)
    requires WellFormed(actor) && Gate(actor, a) == Deliver
    requires a == RenderDelete(actor.uri) ==> actor.deletedAt.Some?
    ensures Proper(Delivery(id, actor, a))
  {
    hide Gate, SuspensionDeleteId, DeleteId;
    if Ordinary(actor.uri, a) {
      OrdinaryAtGate(actor, a);
    }
    forall t: nat | a == RenderSuspension(actor.uri, t)
      ensures actor.suspendedAt == Some(t) && actor.deletedAt == None
    {
      SuspensionAtGate(actor, t);
    }
    forall t: nat | a == RenderUnsuspension(actor.uri, t) ensures !actor.suspended {
      UnsuspensionAtGate(actor, t);
    }
  }

  lemma DeletedSendsDelete(actor: Actor, a: Activity)
    requires WellFormed(actor) && actor.deletedAt.Some? && Gate(actor, a) == Deliver
    requires Ordinary(actor.uri, a) || Rendered(actor.uri, a)
    ensures a == RenderDelete(actor.uri)
  {
    hide Gate, SuspensionDeleteId, DeleteId;
    if Ordinary(actor.uri, a) {
      OrdinaryAtGate(actor, a);
    } else if a != RenderDelete(actor.uri) {
      if t: nat :| a == RenderSuspension(actor.uri, t) {
        SuspensionAtGate(actor, t);
      } else {
        var t: nat :| a == RenderUnsuspension(actor.uri, t);
        UnsuspensionAtGate(actor, t);
      }
    }
  }

  lemma NoInboxes(tasks: seq<FanOut.Task>)
    requires tasks == []
    ensures FanOut.Inboxes(tasks) == {}
  {
  }

  lemma OneMoreInbox(tasks: seq<FanOut.Task>, k: nat)
    requires FanOut.EachOnce(tasks) && k < |tasks|
    ensures tasks[k].inbox !in FanOut.Inboxes(tasks[..k])
    ensures FanOut.Inboxes(tasks[..k + 1]) == FanOut.Inboxes(tasks[..k]) + {tasks[k].inbox}
  {
    assert tasks[..k + 1] == tasks[..k] + [tasks[k]];
  }

  class Server {
    var actors: map<nat, Actor>
    var queue: multiset<Task>
    var clock: nat
    const policy: FanOut.Policy
    /** The accepted follows of an actor and by an actor. */
    const followers: nat -> set<Row<FanOut.Contact>>
    const following: nat -> set<Row<FanOut.Contact>>
    ghost var delivered: seq<Delivery>
    /** The times at which an actor was suspended. */
    var suspensions: set<(nat, nat)>

    ghost predicate Valid()
      reads this
    {
      && (forall id <- actors :: id > 0 && WellFormed(actors[id]) &&
            (actors[id].suspendedAt.Some? && actors[id].deletedAt == None ==>
                (id, actors[id].suspendedAt.value) in suspensions))
      && (forall s <- suspensions :: s.1 <= clock)
      && (forall task <- queue :: task.actor in actors && Queued(task.actor, task.activity))
      && (forall id: nat :: Keyed(followers(id)) && Keyed(following(id)))
      && (forall k :: 0 <= k < |delivered| ==> Proper(delivered[k]) && Past(delivered[k]))
      && (forall j, k :: 0 <= j < k < |delivered| ==> Ordered(delivered[j], delivered[k]))
    }

    /** The final Delete is enqueued after the actor was marked deleted, the Undo of a suspension after
        that suspension. */
    ghost predicate Queued(id: nat, activity: Activity)
      requires id in actors
      reads this
    {
      var actor := actors[id];
      && (Ordinary(actor.uri, activity) || Rendered(actor.uri, activity))
      && (activity == RenderDelete(actor.uri) ==> actor.deletedAt.Some?)
      && (forall t: nat :: activity == RenderUnsuspension(actor.uri, t) ==> (id, t) in suspensions)
    }

    /** The inboxes that hear of what becomes of an actor. */
    function Reach(id: nat): set<string> {
      FanOut.LifecycleInboxes(policy, followers(id), following(id))
    }

    /** What a past delivery means for the present. */
    ghost predicate Past(d: Delivery)
      reads this
    {
      && d.id in actors && actors[d.id].uri == d.actor.uri
      && (d.actor.deletedAt.Some? ==> actors[d.id].deletedAt == d.actor.deletedAt)
      && (forall t: nat :: d.activity == RenderUnsuspension(d.actor.uri, t) ==>
            (d.id, t) in suspensions && (actors[d.id].deletedAt == None ==> actors[d.id].suspendedAt != Some(t)))
    }

    /** Whatever was delivered before, this delivery comes in order. */
    lemma InOrder(d: Delivery, e: Delivery, actor: Actor)
      requires Past(d) && Proper(e) && e.actor == actor && e.id in actors && actors[e.id] == actor
      requires actor.deletedAt.Some? ==> e.activity == RenderDelete(actor.uri)
      ensures Ordered(d, e)
    {
      hide RenderSuspension, RenderUnsuspension, RenderDelete, Ordinary, WellFormed;
    }

    lemma NowPast(d: Delivery)
      requires Proper(d) && d.id in actors && actors[d.id] == d.actor
      requires forall t: nat :: d.activity == RenderUnsuspension(d.actor.uri, t) ==> (d.id, t) in suspensions
      ensures Past(d)
    {
      hide RenderSuspension, RenderUnsuspension, RenderDelete, Ordinary;
    }

    constructor (policy: FanOut.Policy, followers: nat -> set<Row<FanOut.Contact>>,
                 following: nat -> set<Row<FanOut.Contact>>)
      requires forall id: nat :: Keyed(followers(id)) && Keyed(following(id))
      ensures Valid() && actors == map[] && delivered == []
    {
      this.policy, this.followers, this.following := policy, followers, following;
      actors, queue, clock, delivered, suspensions := map[], multiset{}, 0, [], {};
    }

    /** The gate, then one attempt, which may fail and be tried again; the queue picks any task. */
    method HandleDeliverTask(task: Task) returns (verdict: Verdict)
      requires Valid() && task in queue
      modifies `queue, `delivered
      ensures Valid()
      ensures verdict == Gate(actors[task.actor], task.activity)
      ensures if verdict == Deliver && |delivered| > |old(delivered)|
              then delivered == old(delivered) + [Delivery(task.actor, actors[task.actor], task.activity)]
              else delivered == old(delivered)
      ensures queue == old(queue) || queue == old(queue) - multiset{task}
      ensures (verdict == RetryLater ==> queue == old(queue)) &&
              (verdict == Drop ==> queue == old(queue) - multiset{task})
    {
      hide Gate, Rendered, RenderSuspension, RenderUnsuspension, RenderDelete, Ordinary, Proper;
      var actor := actors[task.actor];
      verdict := Gate(actor, task.activity);
      if verdict == RetryLater {
        return;
      }
      var hostSuspended: bool, failed: bool, retryable: bool := *, *, *;
      if verdict == Deliver && !hostSuspended {
        Attempt(task);
        if failed && retryable {
          return;
        }
      }
      queue := queue - multiset{task};
    }

    ghost method Attempt(task: Task)
      requires Valid() && task in queue && Gate(actors[task.actor], task.activity) == Deliver
      modifies `delivered
      ensures Valid() && delivered == old(delivered) + [Delivery(task.actor, actors[task.actor], task.activity)]
    {
      hide Gate, Rendered, RenderSuspension, RenderUnsuspension, RenderDelete, Ordinary, Proper, WellFormed;
      var actor := actors[task.actor];
      var d := Delivery(task.actor, actor, task.activity);
      assert Queued(task.actor, task.activity);
      DeliveryIsProper(task.actor, actor, task.activity);
      if actor.deletedAt.Some? {
        DeletedSendsDelete(actor, task.activity);
      }
      forall k | 0 <= k < |delivered| ensures Ordered(delivered[k], d) {
        assert Past(delivered[k]);
        InOrder(delivered[k], d, actor);
      }
      NowPast(d);
      delivered := delivered + [d];
    }

    // -------------------------------------------------------------- changes of state

    method Now() returns (t: nat)
      requires Valid()
      modifies `clock
      ensures Valid() && clock == t > old(clock) && forall s <- suspensions :: s.1 < t
    {
      assert clock + 1 > clock;
      t :| t > clock;
      clock := t;
    }

    method SetSuspended(id: nat, suspended: bool, changedAt: nat) returns (updated: bool)
      requires Valid()
      requires suspended ==> changedAt <= clock && (id, changedAt) !in suspensions
      modifies `actors, `suspensions
      ensures Valid() && old(suspensions) <= suspensions
      ensures updated <==>
                id in old(actors) && old(actors)[id].suspended != suspended && old(actors)[id].deletedAt == None
      ensures actors == if updated then old(actors)[id := old(actors)[id].(suspended := suspended,
                                          suspendedAt := if suspended then Some(changedAt) else None)] else old(actors)
    {
      hide Rendered, RenderSuspension, RenderUnsuspension, RenderDelete, Ordinary, Proper, Ordered;
      updated := id in actors && actors[id].suspended != suspended && actors[id].deletedAt == None;
      if updated {
        var since := if suspended then Some(changedAt) else None;
        actors := actors[id := actors[id].(suspended := suspended, suspendedAt := since)];
        if suspended {
          suspensions := suspensions + {(id, changedAt)};
        }
      }
    }

    /** Deletion is final: a deleted actor is not marked again. */
    method MarkDeleted(id: nat, at: nat)
      requires Valid()
      modifies `actors
      ensures Valid()
      ensures actors == if id in old(actors) && old(actors)[id].deletedAt == None
                        then old(actors)[id := old(actors)[id].(suspended := true, suspendedAt := Some(at),
                            deletedAt := Some(at))]
                        else old(actors)
    {
      hide Rendered, RenderSuspension, RenderUnsuspension, RenderDelete, Ordinary, Proper, Ordered;
      if id in actors && actors[id].deletedAt == None {
        actors := actors[id := actors[id].(suspended := true, suspendedAt := Some(at), deletedAt := Some(at))];
      }
    }

    /** A delivery of `activity` to each of the inboxes the actor reaches. */
    method Enqueue(id: nat, activity: Activity)
      requires Valid() && id in actors && Queued(id, activity)
      modifies `queue
      ensures Valid() && SameQueueBut(old(queue), queue, id)
      ensures forall task: Task :: queue[task] == old(queue)[task] +
                if task.actor == id && task.activity == activity && task.inbox in Reach(id) then 1 else 0
    {
      hide Valid, Queued, FanOut.LifecycleInboxes, FanOut.EachOnce, FanOut.Inboxes;
      AllKeyed(id);
      var deliveries := new FanOut.Deliveries();
      deliveries.DeliverLifecycle(policy, followers(id), following(id));
      var tasks := deliveries.tasks;
      NoInboxes(tasks[..0]);
      for k := 0 to |tasks|
        invariant Valid() && Queued(id, activity)
        invariant forall task: Task :: queue[task] == old(queue)[task] +
                    if task.actor == id && task.activity == activity && task.inbox in FanOut.Inboxes(tasks[..k])
                    then 1 else 0
      {
        OneMoreInbox(tasks, k);
        EnqueueOne(Task(id, activity, tasks[k].inbox));
      }
      assert tasks[..|tasks|] == tasks;
    }

    method EnqueueOne(task: Task)
      requires Valid() && task.actor in actors && Queued(task.actor, task.activity)
      modifies `queue
      ensures Valid() && Queued(task.actor, task.activity) && queue == old(queue) + multiset{task}
    {
      hide Rendered, RenderSuspension, RenderUnsuspension, RenderDelete, Ordinary, Proper, Ordered;
      queue := queue + multiset{task};
    }

    lemma AllWellFormed(id: nat)
      requires Valid() && id in actors
      ensures WellFormed(actors[id])
    {
    }

    lemma IsRecorded(id: nat)
      requires Valid() && id in actors && actors[id].suspendedAt.Some? && actors[id].deletedAt == None
      ensures (id, actors[id].suspendedAt.value) in suspensions
    {
    }

    lemma AllKeyed(id: nat)
      requires Valid()
      ensures Keyed(followers(id)) && Keyed(following(id))
    {
    }

    method CreateActor(id: nat, uri: string, owner: nat)
      requires Valid() && id > 0
      modifies `actors
      ensures Valid()
      ensures actors == if id in old(actors) then old(actors)
              else old(actors)[id := Actor(uri, owner, false, None, None)]
    {
      hide Rendered, RenderSuspension, RenderUnsuspension, RenderDelete, Ordinary, Proper, Ordered;
      if id !in actors {
        actors := actors[id := Actor(uri, owner, false, None, None)];
      }
    }

    // -------------------------------------------------------------- the handlers

    /** An actor already deleted stays as it is, and its Delete is enqueued once more. */
    method DeleteActor(account: nat, id: nat) returns (ok: bool)
      requires Valid()
      modifies `actors, `queue, `clock
      ensures Valid() && (ok <==> id in old(actors) && old(actors)[id].owner == account)
      ensures !ok ==> unchanged(this)
      ensures ok ==>
                && id in actors && actors == old(actors)[id := actors[id]]
                && SameQueueBut(old(queue), queue, id)
                && Settled(old(actors)[id], actors[id], Delete, id, Reach(id), old(queue), queue)
                && (old(actors)[id].deletedAt.Some? ==> actors == old(actors))
    {
      hide Valid, Queued, RenderDelete, FanOut.LifecycleInboxes;
      if id !in actors || actors[id].owner != account {
        return false;
      }
      ok := true;
      AllWellFormed(id);
      if actors[id].deletedAt == None {
        var t := Now();
        MarkDeleted(id, t);
      }
      RenderedIsQueued(id, Delete, 0);
      Enqueue(id, RenderDelete(actors[id].uri));
    }

    lemma RenderedIsQueued(id: nat, goal: Goal, t: nat)
      requires id in actors
      requires goal == Delete ==> actors[id].deletedAt.Some?
      requires goal == Activate ==> (id, t) in suspensions
      ensures var uri := actors[id].uri;
              Queued(id, match goal
                              case Activate => RenderUnsuspension(uri, t)
                              case Suspend => RenderSuspension(uri, t)
                              case Delete => RenderDelete(uri))
    {
      var uri := actors[id].uri;
      DeleteIdIsNoSuspension(uri, t);
      assert Rendered(uri, RenderUnsuspension(uri, t)) && Rendered(uri, RenderSuspension(uri, t));
      forall u: nat | RenderUnsuspension(uri, u) == RenderUnsuspension(uri, t) ensures u == t {
        assert RenderUnsuspension(uri, u).target == RenderUnsuspension(uri, t).target;
        SuspensionIdIsInjective(uri, u, t);
      }
    }

    /** The Delete is enqueued before the suspension; until then the gate makes it wait. */
    method SuspendActor(id: nat)
      requires Valid() && id in actors && actors[id].deletedAt == None && !actors[id].suspended
      modifies `actors, `queue, `clock, `suspensions
      ensures Valid() && id in actors && actors == old(actors)[id := actors[id]]
      ensures SameQueueBut(old(queue), queue, id)
      ensures Settled(old(actors)[id], actors[id], Suspend, id, Reach(id), old(queue), queue)
    {
      hide Valid, Queued, RenderSuspension, FanOut.LifecycleInboxes;
      AllWellFormed(id);
      var t := Now();
      RenderedIsQueued(id, Suspend, t);
      Enqueue(id, RenderSuspension(actors[id].uri, t));
      var updated := SetSuspended(id, true, t);
    }

    method ResumeActor(id: nat)
      requires Valid() && id in actors && actors[id].deletedAt == None && actors[id].suspended
      modifies `actors, `queue, `clock, `suspensions
      ensures Valid() && id in actors && actors == old(actors)[id := actors[id]]
      ensures SameQueueBut(old(queue), queue, id)
      ensures Settled(old(actors)[id], actors[id], Activate, id, Reach(id), old(queue), queue)
    {
      hide Valid, Queued, RenderUnsuspension, FanOut.LifecycleInboxes;
      AllWellFormed(id);
      IsRecorded(id);
      var since := actors[id].suspendedAt.value;
      var t := Now();
      RenderedIsQueued(id, Activate, since);
      Enqueue(id, RenderUnsuspension(actors[id].uri, since));
      var updated := SetSuspended(id, false, t);
    }

    /** Bring one actor to the goal. */
    method ApplyToActor(id: nat, goal: Goal) returns (changed: nat)
      requires Valid() && id in actors && actors[id].deletedAt == None
      modifies `actors, `queue, `clock, `suspensions
      ensures Valid() && id in actors && actors == old(actors)[id := actors[id]]
      ensures SameQueueBut(old(queue), queue, id)
      ensures Settled(old(actors)[id], actors[id], goal, id, Reach(id), old(queue), queue)
      ensures changed == if NeedsChange(old(actors)[id], goal) then 1 else 0
    {
      hide Rendered, RenderSuspension, RenderUnsuspension, RenderDelete, Ordinary, Proper, Ordered, Achieved,
          Announcement;
      if goal == Delete {
        var deleted := DeleteActor(actors[id].owner, id);
        return 1;
      }
      if !NeedsChange(actors[id], goal) {
        assert actors == actors[id := actors[id]];
        return 0;
      }
      if goal == Activate {
        ResumeActor(id);
      } else {
        SuspendActor(id);
      }
      changed := 1;
    }

    /** Every actor of the account that is not deleted is visited once, although deletion takes actors
        out of the very listing that is being paged through. */
    method ApplyAccountLifecycle(account: nat, goal: Goal) returns (modified: nat)
      requires Valid()
      modifies `actors, `queue, `clock, `suspensions
      ensures Valid()
      ensures Progress(old(actors), old(queue), actors, queue, goal, Reach, Owned(old(actors), account))
      ensures modified == |Changing(old(actors), goal, Owned(old(actors), account))|
    {
      hide Progress, Settled, Changing, SameQueueBut, IsPage, Keyed, Valid, Seen, Owned;
      ghost var start, startQueue := actors, queue;
      ghost var rows := Owned(start, account);
      modified := 0;
      var afterId := 0;
      OwnedKeyed(account);
      NothingSeen(rows);
      NoProgress(start, queue, goal, Reach);
      while true
        invariant Valid() && Progress(start, startQueue, actors, queue, goal, Reach, Seen(rows, afterId))
        invariant modified == |Changing(start, goal, Seen(rows, afterId))|
        decreases rows - Seen(rows, afterId)
      {
        OwnedKeyed(account);
        var page := Fetch(Owned(actors, account), afterId, PAGE_SIZE);
        SamePage(start, startQueue, actors, queue, goal, Reach, account, afterId, PAGE_SIZE, page);
        PageWithin(rows, afterId, PAGE_SIZE, page);
        var n := ApplyToPage(page, goal, account, start, startQueue, Seen(rows, afterId));
        modified := modified + n;
        if |page| < PAGE_SIZE {
          ShortPage(rows, afterId, PAGE_SIZE, page);
          return;
        }
        FullPage(rows, afterId, PAGE_SIZE, page);
        afterId := page[PAGE_SIZE - 1].id;
      }
    }

    lemma OwnedKeyed(account: nat)
      requires Valid()
      ensures Keyed(Owned(actors, account))
    {
    }

    method ApplyToPage(page: seq<Row<nat>>, goal: Goal, account: nat, ghost start: map<nat, Actor>,
                       ghost startQueue: multiset<Task>,
                       ghost done: set<Row<nat>>) returns (modified: nat)
      requires Valid() && Progress(start, startQueue, actors, queue, goal, Reach, done)
      requires Elements(page) <= Owned(start, account) && done * Elements(page) == {}
      requires forall i, j :: 0 <= i < j < |page| ==> page[i].id < page[j].id
      modifies `actors, `queue, `clock, `suspensions
      ensures Valid() && Progress(start, startQueue, actors, queue, goal, Reach, done + Elements(page))
      ensures modified == |Changing(start, goal, done + Elements(page))| - |Changing(start, goal, done)|
    {
      hide Progress, Settled, Changing, SameQueueBut, Valid;
      modified := 0;
      ghost var visited := done;
      for k := 0 to |page|
        invariant Valid() && Progress(start, startQueue, actors, queue, goal, Reach, visited)
        invariant visited == done + Elements(page[..k])
        invariant modified == |Changing(start, goal, visited)| - |Changing(start, goal, done)|
      {
        assert page[k] in Elements(page) && page[k] !in Elements(page[..k]);
        assert page[k] !in done * Elements(page);
        var id := page[k].id;
        NotYetDone(start, startQueue, actors, queue, goal, Reach, visited, id);
        ghost var actors0, queue0 := actors, queue;
        var n := ApplyToActor(id, goal);
        OneMoreDone(start, startQueue, actors0, queue0, actors, queue, goal, Reach, visited, id);
        OneMoreChanging(start, goal, visited, page[k]);
        modified := modified + n;
        assert Elements(page[..k + 1]) == Elements(page[..k]) + {page[k]};
        visited := visited + {page[k]};
      }
      assert page[..|page|] == page;
    }

    /** Any run: commands, single steps of interrupted or concurrent commands, and deliveries in any order. */
    method Serve(steps: nat)
      requires Valid()
      modifies this
      ensures Valid()
    {
      for k := 0 to steps
        invariant Valid()
      {
        hide Ordered, Proper, Rendered, RenderSuspension, RenderUnsuspension, RenderDelete;
        var choice: nat, id: nat, t: nat, account: nat, activity: Activity, uri: string, goal: Goal := *, *, *, *, *,
            *, *;
        match choice % 7 {
          case 0 =>
            if queue != multiset{} {
              var task :| task in queue;
              var verdict := HandleDeliverTask(task);
            }
          case 1 =>
            var modified := ApplyAccountLifecycle(account, goal);
          case 2 =>
            var now := Now();
            var updated := SetSuspended(id, goal == Suspend, now);
          case 3 =>
            MarkDeleted(id, t);
          case 4 =>
            if id > 0 {
              CreateActor(id, uri, account);
            }
          case 5 =>
            var deleted := DeleteActor(account, id);
          case _ =>
            if id in actors {
              EnqueueAny(id, t, activity);
            }
        }
      }
    }

    /** A step by which an interrupted or concurrent command may enqueue: the Delete of a suspension at
        any time, an Undo of one there was, the final Delete after deletion, or an ordinary activity. */
    method EnqueueAny(id: nat, t: nat, activity: Activity)
      requires Valid() && id in actors
      modifies `queue
      ensures Valid()
    {
      hide Ordered, Proper, Rendered, RenderSuspension, RenderUnsuspension, RenderDelete;
      var uri := actors[id].uri;
      RenderedIsQueued(id, Suspend, t);
      Enqueue(id, RenderSuspension(uri, t));
      if (id, t) in suspensions {
        RenderedIsQueued(id, Activate, t);
        Enqueue(id, RenderUnsuspension(uri, t));
      }
      if actors[id].deletedAt.Some? {
        RenderedIsQueued(id, Delete, t);
        Enqueue(id, RenderDelete(uri));
      }
      if Ordinary(uri, activity) {
        OrdinaryIsQueued(id, activity);
        Enqueue(id, activity);
      }
    }

    lemma OrdinaryIsQueued(id: nat, activity: Activity)
      requires id in actors && Ordinary(actors[id].uri, activity)
      ensures Queued(id, activity)
    {
    }
  }

  lemma NotYetDone(start: map<nat, Actor>, startQueue: multiset<Task>, actors: map<nat, Actor>,
                   queue: multiset<Task>, goal: Goal,
                   reach: nat -> set<string>, done: set<Row<nat>>, id: nat)
    requires Progress(start, startQueue, actors, queue, goal, reach, done) && id in start && Row(id, id) !in done
    ensures id in actors && actors[id] == start[id]
  {
  }
}
