/** Follows and blocks. Every handler is one step on the two shared tables; local actors issue
    commands, remote actors sign activities. */
module Relationships {
  import opened Text
  import opened Paging

  type Id = n: nat | n > 0 witness 1

  /** Follower and followee, or blocker and blockee. */
  datatype Pair = Pair(first: Id, second: Id)
  {
    function Swapped(): Pair { Pair(second, first) }
  }

  datatype Status = Pending | Accepted

  /** A follow document; deleting one only marks it. */
  datatype Follow = Follow(id: nat, status: Status, acceptedAt: Option<nat>, activity: string, deleted: bool)

  type Table = map<Pair, Follow>

  datatype Result = Ok(count: nat) | Skipped | Error

  /** What a server says of an actor now, as far as moves go. */
  datatype Profile = Profile(movedTo: Option<Id>, alsoKnownAs: set<Id>)

  /** What asking for an actor's document comes to. */
  datatype Answer = Unavailable | Missing | Known(profile: Profile)

  /** A move with what its two servers say of it. */
  datatype Move = Move(source: Id, destination: Id, movedTo: Option<Id>, profile: Profile)
  {
    /** The source names the destination; the destination names the source as another of its names and
        does not itself move back. */
    predicate Validated() {
      source != destination && movedTo == Some(destination) && profile.movedTo != Some(source) &&
      source in profile.alsoKnownAs
    }
  }

  datatype Kind = FollowKind | UndoFollow | AcceptKind | RejectKind | BlockKind | UndoBlock
  datatype Task = Task(kind: Kind, sender: Id, recipient: Id)

  const PAGE_SIZE := 100

  // ---------------------------------------------------------------- the follow table

  predicate Live(t: Table, p: Pair) { p in t && !t[p].deleted }

  predicate IsPending(t: Table, p: Pair) { Live(t, p) && t[p].status.Pending? }

  predicate IsAccepted(t: Table, p: Pair) { Live(t, p) && t[p].status.Accepted? }

  function Upserted(t: Table, p: Pair, status: Status, activity: string, now: nat, newId: nat): Table {
    if status.Pending? && IsAccepted(t, p) then t
    else
      var id := if p in t then t[p].id else newId;
      var known := if activity == "" && p in t then t[p].activity else activity;
      t[p := Follow(id, status, if status.Accepted? then Some(now) else None, known, false)]
  }

  function Approved(t: Table, p: Pair, now: nat): Table {
    if IsPending(t, p) then t[p := t[p].(status := Accepted, acceptedAt := Some(now))] else t
  }

  function Removed(t: Table, p: Pair): Table {
    if Live(t, p) then t[p := t[p].(deleted := true)] else t
  }

  predicate UniqueIds(t: Table) {
    (forall p <- t :: t[p].id > 0) && forall p, q | p in t && q in t :: t[p].id == t[q].id ==> p == q
  }

  /** Re-following never demotes: an accepted follow stays accepted with its time of acceptance. */
  lemma RefollowKeepsAcceptance(t: Table, p: Pair, q: Pair, activity: string, now: nat, newId: nat)
    requires IsAccepted(t, q)
    ensures IsAccepted(Upserted(t, p, Pending, activity, now, newId), q)
    ensures Upserted(t, p, Pending, activity, now, newId)[q] == t[q]
  {
  }

  /** Acceptance does not survive deletion: a follow that was deleted comes back pending. */
  lemma DeletionForgetsAcceptance(t: Table, p: Pair, activity: string, now: nat, newId: nat)
    requires Live(t, p)
    ensures var again := Upserted(Removed(t, p), p, Pending, activity, now, newId);
            IsPending(again, p) && again[p].acceptedAt == None && again[p].id == t[p].id
  {
  }

  // ---------------------------------------------------------------- the invariants

  /** What happened, in order: who approved, who accepted, whom a move carried over, and which follows
      ended. */
  datatype Event =
    | Approval(approver: Id, of: Id)
    | SignedAccept(signer: Id, of: Id)
    | Carried(move: Move, of: Id)
    | Ended(pair: Pair)

  /** `e`, coming after `before`, is consent to the follow `p`. A move passes consent on: its follower had
      an accepted follow of the source. */
  ghost predicate Grants(local: Id -> bool, before: seq<Event>, e: Event, p: Pair)
    decreases |before|, 2
  {
    match e
    case Approval(approver, of) => p == Pair(of, approver) && local(approver)
    case SignedAccept(signer, of) => p == Pair(of, signer) && !local(signer) && local(of)
    case Carried(move, of) =>
      && p == Pair(of, move.destination) && local(move.destination) && local(of)
      && move.Validated() && !local(move.source) && Justified(local, before, Pair(of, move.source))
    case Ended(_) => false
  }

  /** Consent was given and the follow has not ended since. */
  ghost predicate Justified(local: Id -> bool, history: seq<Event>, p: Pair)
    decreases |history|, 1
  {
    history != [] &&
    var last, before := history[|history| - 1], history[..|history| - 1];
    last != Ended(p) && (Grants(local, before, last, p) || Justified(local, before, p))
  }

  /** The accepted follows are exactly those with consent. */
  ghost predicate Consented(local: Id -> bool, t: Table, history: seq<Event>) {
    forall p: Pair :: IsAccepted(t, p) <==> Justified(local, history, p)
  }

  /** A block in force excludes a follow in either direction. */
  ghost predicate Excluded(t: Table, blocked: set<Pair>) {
    forall p <- blocked :: !Live(t, p) && !Live(t, p.Swapped())
  }

  /** Every block joins a local and a remote actor. */
  ghost predicate Mixed(local: Id -> bool, blocked: set<Pair>) {
    forall p <- blocked :: local(p.first) != local(p.second)
  }

  ghost predicate Stamped(t: Table) {
    forall p <- t :: t[p].acceptedAt.Some? <==> t[p].status.Accepted?
  }

  lemma OneMoreEvent(local: Id -> bool, history: seq<Event>, e: Event, p: Pair)
    ensures Justified(local, history + [e], p) <==>
            e != Ended(p) && (Grants(local, history, e, p) || Justified(local, history, p))
  {
    assert (history + [e])[..|history|] == history;
  }

  lemma ConsentOf(local: Id -> bool, t: Table, history: seq<Event>, p: Pair)
    requires Consented(local, t, history)
    ensures IsAccepted(t, p) <==> Justified(local, history, p)
  {
  }

  /** A step that makes one follow accepted and logs why. */
  lemma ConsentGiven(local: Id -> bool, t: Table, u: Table, history: seq<Event>, e: Event, p: Pair)
    requires Consented(local, t, history) && Grants(local, history, e, p)
    requires IsAccepted(u, p) && SameExcept(t, u, p)
    ensures Consented(local, u, history + [e])
  {
    forall q: Pair ensures IsAccepted(u, q) <==> Justified(local, history + [e], q) {
      OneMoreEvent(local, history, e, q);
      assert q != p ==> (IsAccepted(u, q) <==> IsAccepted(t, q));
    }
  }

  /** Approving a pending follow is consent exactly if the followee is local: approval does not test it,
      but asks for it only when it answers. */
  lemma ApprovalIsConsent(local: Id -> bool, t: Table, history: seq<Event>, p: Pair, now: nat)
    requires Consented(local, t, history) && IsPending(t, p)
    ensures IsAccepted(Approved(t, p, now), p)
    ensures var after := history + [Approval(p.second, p.first)];
            (Justified(local, after, p) <==> local(p.second)) &&
            (Consented(local, Approved(t, p, now), after) <==> local(p.second))
  {
    var e := Approval(p.second, p.first);
    if local(p.second) {
      ConsentGiven(local, t, Approved(t, p, now), history, e, p);
    } else {
      OneMoreEvent(local, history, e, p);
      assert !IsAccepted(t, p);
    }
  }

  // ---------------------------------------------------------------- steps on the table keep the invariants

  /** A pending offer for a pair that no block joins. */
  lemma OfferKeeps(local: Id -> bool, t: Table, blocked: set<Pair>, history: seq<Event>, p: Pair,
                   activity: string, now: nat, newId: nat)
    requires Excluded(t, blocked) && Stamped(t) && Consented(local, t, history)
    requires p !in blocked && p.Swapped() !in blocked
    ensures var u := Upserted(t, p, Pending, activity, now, newId);
            Excluded(u, blocked) && Stamped(u) && Consented(local, u, history)
  {
    var u := Upserted(t, p, Pending, activity, now, newId);
    forall q: Pair ensures IsAccepted(u, q) <==> IsAccepted(t, q) {
    }
    forall q <- blocked ensures !Live(u, q) && !Live(u, q.Swapped()) {
      assert q != p && q.Swapped() != p;
    }
  }

  lemma ApprovalKeeps(t: Table, blocked: set<Pair>, p: Pair, now: nat)
    requires Excluded(t, blocked) && Stamped(t) && UniqueIds(t)
    ensures var u := Approved(t, p, now); Excluded(u, blocked) && Stamped(u) && UniqueIds(u)
  {
    var u := Approved(t, p, now);
    forall q <- blocked ensures !Live(u, q) && !Live(u, q.Swapped()) {
      assert !Live(t, q) && !Live(t, q.Swapped());
    }
  }

  /** An accepted follow between local actors needs no test for blocks: no block joins them. */
  lemma CarriedKeeps(local: Id -> bool, t: Table, u: Table, blocked: set<Pair>, history: seq<Event>, p: Pair, e: Event)
    requires Excluded(t, blocked) && Mixed(local, blocked) && Stamped(t) && Consented(local, t, history)
    requires local(p.first) && local(p.second) && Grants(local, history, e, p)
    requires exists now, newId :: u == Upserted(t, p, Accepted, "", now, newId)
    ensures Excluded(u, blocked) && Stamped(u) && Consented(local, u, history + [e])
    ensures IsAccepted(u, p) && SameExcept(t, u, p)
  {
    ConsentGiven(local, t, u, history, e, p);
    forall q <- blocked ensures !Live(u, q) && !Live(u, q.Swapped()) {
      assert local(q.first) != local(q.second);
    }
  }

  /** What is logged when a follow is removed. */
  function Ending(t: Table, p: Pair): seq<Event> {
    if Live(t, p) then [Ended(p)] else []
  }

  lemma RemovalKeeps(local: Id -> bool, t: Table, blocked: set<Pair>, history: seq<Event>, p: Pair)
    requires Excluded(t, blocked) && Stamped(t) && Consented(local, t, history) && UniqueIds(t)
    ensures var u := Removed(t, p);
            Excluded(u, blocked) && Stamped(u) && Consented(local, u, history + Ending(t, p)) && UniqueIds(u)
  {
    var u := Removed(t, p);
    if Live(t, p) {
      forall q: Pair ensures IsAccepted(u, q) <==> Justified(local, history + [Ended(p)], q) {
        OneMoreEvent(local, history, Ended(p), q);
        assert q != p ==> (IsAccepted(u, q) <==> IsAccepted(t, q));
      }
    } else {
      assert history + [] == history;
    }
    forall q <- blocked ensures !Live(u, q) && !Live(u, q.Swapped()) {
      assert !Live(t, q) && !Live(t, q.Swapped());
    }
  }

  lemma BlockKeeps(local: Id -> bool, t: Table, blocked: set<Pair>, p: Pair)
    requires Excluded(t, blocked) && Mixed(local, blocked) && local(p.first) != local(p.second)
    ensures Excluded(Removed(Removed(t, p), p.Swapped()), blocked + {p}) && Mixed(local, blocked + {p})
  {
    var u := Removed(Removed(t, p), p.Swapped());
    forall q <- blocked + {p} ensures !Live(u, q) && !Live(u, q.Swapped()) {
      assert q == p || (!Live(t, q) && !Live(t, q.Swapped()));
    }
  }

  lemma UnblockKeeps(local: Id -> bool, t: Table, blocked: set<Pair>, p: Pair)
    requires Excluded(t, blocked) && Mixed(local, blocked)
    ensures Excluded(t, blocked - {p}) && Mixed(local, blocked - {p})
  {
  }

  predicate Unused(t: Table, id: nat) { id > 0 && forall p <- t :: t[p].id != id }

  lemma {:induction false} HasUnusedId(t: Table) returns (n: nat)
    ensures n > 0 && forall p <- t :: t[p].id < n
    ensures Unused(t, n)
  {
    n := 1;
    if t != map[] {
      var p :| p in t;
      var rest := t - {p};
      var m := HasUnusedId(rest);
      n := if t[p].id < m then m else t[p].id + 1;
      assert forall q <- t :: q == p || (q in rest && rest[q] == t[q]);
    }
  }

  // ---------------------------------------------------------------- blocks and moves, on values

  /** The pairs an account blocks when one of its actors blocks `blockee`. */
  function BlocksOf(account: set<Id>, blockee: Id): set<Pair> {
    set a | a in account :: Pair(a, blockee)
  }

  /** Those of the actors that block `blockee`. */
  function Blocking(actors: seq<Id>, blocked: set<Pair>, blockee: Id): (r: seq<Id>)
    ensures forall a :: a in r <==> a in actors && Pair(a, blockee) in blocked
  {
    if actors == [] then []
    else
      var last := |actors| - 1;
      Blocking(actors[..last], blocked, blockee) + if Pair(actors[last], blockee) in blocked then [actors[last]] else []
  }

  lemma OneMoreBlocking(actors: seq<Id>, actor: Id, blocked: set<Pair>, blockee: Id)
    ensures Blocking(actors + [actor], blocked, blockee) ==
            Blocking(actors, blocked, blockee) + if Pair(actor, blockee) in blocked then [actor] else []
  {
    assert (actors + [actor])[..|actors|] == actors;
  }

  lemma LiftedSome(actors: seq<Id>, blocked: set<Pair>, blockee: Id, account: set<Id>)
    requires forall a :: a in actors <==> a in account
    ensures Blocking(actors, blocked, blockee) != [] <==> BlocksOf(account, blockee) * blocked != {}
    ensures Blocking(actors, blocked, blockee) == [] ==> blocked - BlocksOf(account, blockee) == blocked
  {
    var r := Blocking(actors, blocked, blockee);
    if r != [] {
      assert r[0] in r;
      assert Pair(r[0], blockee) in BlocksOf(account, blockee) * blocked;
    } else {
      forall p | p in BlocksOf(account, blockee) ensures p !in blocked {
        assert p.first !in r;
      }
    }
  }

  lemma BlocksAreOfAccount(account: set<Id>, actor: Id, blockee: Id)
    ensures Pair(actor, blockee) in BlocksOf(account, blockee) <==> actor in account
  {
  }

  lemma NoBlocks(blockee: Id, blocked: set<Pair>)
    ensures BlocksOf({}, blockee) == {} && Blocking([], blocked, blockee) == []
  {
  }

  lemma OneMoreBlocks(account: set<Id>, actor: Id, blockee: Id)
    ensures BlocksOf(account + {actor}, blockee) == BlocksOf(account, blockee) + {Pair(actor, blockee)}
  {
  }

  /** One notice from each actor that may still send. */
  function Notices(kind: Kind, senders: seq<Id>, active: set<Id>, recipient: Id): (r: seq<Task>)
    ensures senders == [] ==> r == []
  {
    if senders == [] then []
    else
      var last := |senders| - 1;
      Notices(kind, senders[..last], active, recipient) +
      if senders[last] in active then [Task(kind, senders[last], recipient)] else []
  }

  lemma OneMoreNotice(kind: Kind, senders: seq<Id>, sender: Id, active: set<Id>, recipient: Id)
    ensures Notices(kind, senders + [sender], active, recipient) ==
            Notices(kind, senders, active, recipient) + if sender in active then [Task(kind, sender, recipient)] else []
  {
    assert (senders + [sender])[..|senders|] == senders;
  }

  /** No document was added or dropped, and only follows that one of the pairs excludes have changed. */
  ghost predicate SameOutside(t: Table, u: Table, pairs: set<Pair>) {
    t.Keys == u.Keys && forall p <- t :: p !in pairs ==> p.Swapped() !in pairs ==> u[p] == t[p]
  }

  lemma SameOutsideItself(t: Table, pairs: set<Pair>)
    ensures SameOutside(t, t, pairs)
  {
  }

  lemma RemovedOutside(t: Table, u: Table, pairs: set<Pair>, p: Pair)
    requires SameOutside(t, u, pairs) && p in pairs
    ensures SameOutside(t, Removed(Removed(u, p), p.Swapped()), pairs)
  {
  }

  predicate SameExcept(t: Table, u: Table, p: Pair) {
    (forall q <- t :: q != p ==> q in u && u[q] == t[q]) && forall q <- u :: q != p ==> q in t
  }

  function Followers(t: Table, followee: Id): set<Row<Pair>> {
    set p | p in t && IsAccepted(t, p) && p.second == followee :: Row(t[p].id, p)
  }

  /** The accepted followers of `source` a move carries over. */
  function Movable(t: Table, source: Id, activeLocal: set<Id>): set<Id> {
    set p | p in t && IsAccepted(t, p) && p.second == source && p.first in activeLocal :: p.first
  }

  /** Outside `destination` nothing changed; there, exactly the movable followers were added, at once
      accepted if the destination is local. */
  ghost predicate Moved(t: Table, u: Table, local: Id -> bool, source: Id, destination: Id, activeLocal: set<Id>) {
    && (forall p: Pair :: p.second != destination ==> (p in t <==> p in u) && (p in t ==> u[p] == t[p]))
    && (forall p: Pair :: p.second == destination ==>
          (Live(u, p) <==> Live(t, p) || p.first in Movable(t, source, activeLocal)))
    && (local(destination) ==> forall f <- Movable(t, source, activeLocal) :: IsAccepted(u, Pair(f, destination)))
  }

  /** Part of a move: the followers in `done` were taken up. */
  ghost predicate PartMoved(t: Table, u: Table, local: Id -> bool, source: Id, destination: Id, activeLocal: set<Id>,
                            done: set<Row<Pair>>) {
    && (forall p: Pair :: p.second != destination ==> (p in t <==> p in u) && (p in t ==> u[p] == t[p]))
    && (forall p: Pair :: p.second == destination ==>
          (Live(u, p) <==> Live(t, p) || Taken(done, source, activeLocal, p.first)))
    && (forall p: Pair :: p.second == destination && !Taken(done, source, activeLocal, p.first) ==>
          (p in t <==> p in u) && (p in t ==> u[p] == t[p]))
    && (local(destination) ==> forall f :: Taken(done, source, activeLocal, f) ==> IsAccepted(u, Pair(f, destination)))
  }

  predicate Taken(done: set<Row<Pair>>, source: Id, activeLocal: set<Id>, f: Id) {
    f in activeLocal && exists r <- done :: r.value == Pair(f, source)
  }

  /** A move to a remote actor only makes requests. */
  ghost predicate SameAcceptance(t: Table, u: Table, local: Id -> bool, destination: Id) {
    !local(destination) ==> forall f: Id :: IsAccepted(u, Pair(f, destination)) <==> IsAccepted(t, Pair(f, destination))
  }

  lemma SameAcceptanceStep(t: Table, u: Table, v: Table, local: Id -> bool, destination: Id, f: Id)
    requires SameAcceptance(t, u, local, destination) && SameExcept(u, v, Pair(f, destination))
    requires !local(destination) ==> (IsAccepted(v, Pair(f, destination)) <==> IsAccepted(u, Pair(f, destination)))
    ensures SameAcceptance(t, v, local, destination)
  {
  }

  function CarriedIds(rows: set<Row<Pair>>, activeLocal: set<Id>): set<Id> {
    set r | r in rows && r.value.first in activeLocal :: r.value.first
  }

  lemma OneMoreCarried(t: Table, source: Id, activeLocal: set<Id>, done: set<Row<Pair>>, r: Row<Pair>)
    requires done <= Followers(t, source) && r in Followers(t, source) && r !in done
    ensures |CarriedIds(done + {r}, activeLocal)| ==
            |CarriedIds(done, activeLocal)| + if r.value.first in activeLocal then 1 else 0
  {
    var f := r.value.first;
    if f in activeLocal {
      assert CarriedIds(done + {r}, activeLocal) == CarriedIds(done, activeLocal) + {f};
      assert f !in CarriedIds(done, activeLocal);
    } else {
      assert CarriedIds(done + {r}, activeLocal) == CarriedIds(done, activeLocal);
    }
  }

  lemma MovableRows(t: Table, source: Id, activeLocal: set<Id>)
    ensures CarriedIds(Followers(t, source), activeLocal) == Movable(t, source, activeLocal)
    ensures forall row <- Followers(t, source) :: row.value.first in activeLocal ==>
            row.value.first in Movable(t, source, activeLocal)
    ensures forall f <- Movable(t, source, activeLocal) :: exists row <- Followers(t, source) :: row.value.first == f
  {
    forall f | f in Movable(t, source, activeLocal)
      ensures f in CarriedIds(Followers(t, source), activeLocal)
    {
      assert Row(t[Pair(f, source)].id, Pair(f, source)) in Followers(t, source);
    }
  }

  lemma NothingMoved(t: Table, source: Id, destination: Id, activeLocal: set<Id>, local: Id -> bool)
    ensures PartMoved(t, t, local, source, destination, activeLocal, {}) && SameAcceptance(t, t, local, destination)
    ensures CarriedIds({}, activeLocal) == {}
  {
  }

  lemma OneMoreMoved(t: Table, u: Table, v: Table, local: Id -> bool, source: Id, destination: Id, activeLocal: set<Id>,
                     done: set<Row<Pair>>, r: Row<Pair>)
    requires PartMoved(t, u, local, source, destination, activeLocal, done) && r.value.second == source
    requires if r.value.first in activeLocal then
               SameExcept(u, v, Pair(r.value.first, destination)) && Live(v, Pair(r.value.first, destination)) &&
               (local(destination) ==> IsAccepted(v, Pair(r.value.first, destination)))
             else v == u
    ensures PartMoved(t, v, local, source, destination, activeLocal, done + {r})
  {
    forall f ensures Taken(done + {r}, source, activeLocal, f) <==>
                     Taken(done, source, activeLocal, f) || (f in activeLocal && r.value == Pair(f, source))
    {
      if f in activeLocal && r.value == Pair(f, source) {
        assert r in done + {r};
      }
    }
  }

  lemma AllMoved(t: Table, u: Table, local: Id -> bool, source: Id, destination: Id, activeLocal: set<Id>)
    requires PartMoved(t, u, local, source, destination, activeLocal, Followers(t, source))
    ensures Moved(t, u, local, source, destination, activeLocal)
  {
    forall f ensures Taken(Followers(t, source), source, activeLocal, f) <==> f in Movable(t, source, activeLocal) {
      var p := Pair(f, source);
      if IsAccepted(t, p) {
        assert Row(t[p].id, p) in Followers(t, source);
      }
    }
  }

  lemma FollowersKept(t: Table, u: Table, local: Id -> bool, source: Id, destination: Id, activeLocal: set<Id>,
                      done: set<Row<Pair>>)
    requires PartMoved(t, u, local, source, destination, activeLocal, done) && source != destination
    ensures Followers(u, source) == Followers(t, source)
  {
    forall r ensures r in Followers(u, source) <==> r in Followers(t, source) {
      if r.value.second == source {
        assert r.value in t <==> r.value in u;
      }
    }
  }

  lemma StillFollowing(t: Table, u: Table, local: Id -> bool, source: Id, destination: Id, activeLocal: set<Id>,
                       done: set<Row<Pair>>, row: Row<Pair>)
    requires PartMoved(t, u, local, source, destination, activeLocal, done) && source != destination
    requires row in Followers(t, source)
    ensures row.value.second == source && IsAccepted(u, row.value)
  {
    assert row.value.second != destination;
  }

  lemma FollowersKeyed(t: Table, followee: Id)
    requires UniqueIds(t)
    ensures Keyed(Followers(t, followee))
  {
  }

  /** Receiving the same move again follows nobody new. */
  lemma MoveAgain(t: Table, u: Table, v: Table, local: Id -> bool, source: Id, destination: Id, activeLocal: set<Id>,
                  p: Pair)
    requires source != destination
    requires Moved(t, u, local, source, destination, activeLocal)
    requires Moved(u, v, local, source, destination, activeLocal)
    ensures Live(v, p) <==> Live(u, p)
  {
    forall f | f in Movable(u, source, activeLocal) ensures f in Movable(t, source, activeLocal) {
      assert Pair(f, source).second != destination;
      assert IsAccepted(u, Pair(f, source)) ==> IsAccepted(t, Pair(f, source));
    }
  }

  /** The destination of a move ends up following itself exactly if it did before, or was itself a
      local follower of the account that moved to it. */
  lemma MoveToOwnFollower(t: Table, u: Table, local: Id -> bool, source: Id, destination: Id, activeLocal: set<Id>)
    requires source != destination && Moved(t, u, local, source, destination, activeLocal)
    ensures Live(u, Pair(destination, destination)) <==>
            Live(t, Pair(destination, destination)) ||
            (IsAccepted(t, Pair(destination, source)) && destination in activeLocal)
    ensures local(destination) && IsAccepted(t, Pair(destination, source)) && destination in activeLocal ==>
              IsAccepted(u, Pair(destination, destination))
  {
    var self := Pair(destination, destination);
    assert self.second == destination;
    assert destination in Movable(t, source, activeLocal) <==>
           IsAccepted(t, Pair(destination, source)) && destination in activeLocal;
  }

  // ---------------------------------------------------------------- the handlers

  class Handler {
    const local: Id -> bool
    /** The remote actor has an inbox or a shared inbox. */
    const hasInbox: Id -> bool
    /** An inbox of the follower is stored with the follow. */
    const storedInbox: Pair -> bool
    /** Actors that are neither suspended nor deleted. */
    var active: set<Id>
    /** The accounts of local actors that are not deleted; system actors have none. */
    var owner: map<Id, nat>
    var follows: Table
    /** The block documents in force, as (blocker, blockee). */
    var blocked: set<Pair>
    var queue: seq<Task>
    var clock: nat
    ghost var history: seq<Event>

    ghost predicate Valid()
      reads this
    {
      Sound() && Consented(local, follows, history)
    }

    ghost predicate Sound()
      reads this
    {
      Excluded(follows, blocked) && Mixed(local, blocked) && Stamped(follows) && UniqueIds(follows) &&
      forall a <- owner :: local(a)
    }

    constructor (local: Id -> bool, hasInbox: Id -> bool, storedInbox: Pair -> bool, active: set<Id>)
      ensures Valid() && this.local == local && this.hasInbox == hasInbox && this.storedInbox == storedInbox
      ensures this.active == active && follows == map[] && blocked == {} && history == []
    {
      this.local, this.hasInbox, this.storedInbox, this.active := local, hasInbox, storedInbox, active;
      owner, follows, blocked, queue, clock, history := map[], map[], {}, [], 0, [];
    }

    predicate IsBlockedPair(a: Id, b: Id)
      reads `blocked
    {
      a != b && (Pair(a, b) in blocked || Pair(b, a) in blocked)
    }

    predicate IsActiveLocal(a: Id)
      reads `active
    {
      local(a) && a in active
    }

    // -------------------------------------------------------------- the repository

    method Upsert(p: Pair, status: Status, activity: string) returns (ghost newId: nat)
      requires UniqueIds(follows)
      modifies `follows
      ensures Unused(old(follows), newId)
      ensures follows == Upserted(old(follows), p, status, activity, clock, newId)
      ensures UniqueIds(follows)
    {
      ghost var witnessed := HasUnusedId(follows);
      var id :| Unused(follows, id);
      newId := id;
      follows := Upserted(follows, p, status, activity, clock, id);
    }

    method Remove(p: Pair)
      requires Valid()
      modifies `follows, `history
      ensures Valid() && follows == Removed(old(follows), p) && history == old(history + Ending(follows, p))
    {
      RemovalKeeps(local, follows, blocked, history, p);
      history := history + Ending(follows, p);
      follows := Removed(follows, p);
    }

    // -------------------------------------------------------------- following

    /** What requesting a follow comes to: refused for a blocked pair, nothing to do when it is accepted,
        impossible without an inbox, else pending with the request enqueued. */
    twostate predicate Requested(follower: Id, followee: Id, r: Result)
      reads this
    {
      var p := Pair(follower, followee);
      if !local(follower) || local(followee) || old(IsBlockedPair(follower, followee)) then
        r == Error && unchanged(this)
      else if IsAccepted(old(follows), p) then r == Ok(0) && unchanged(this)
      else if !hasInbox(followee) then r == Error && unchanged(this)
      else r == Ok(0) && IsPending(follows, p) && follows.Keys == old(follows.Keys) + {p} &&
           (forall q <- old(follows) :: q != p ==> follows[q] == old(follows)[q]) &&
           queue == old(queue) + [Task(FollowKind, follower, followee)]
    }

    method EnqueueOutgoingFollow(follower: Id, followee: Id) returns (r: Result)
      requires Valid()
      modifies `follows, `queue
      ensures Valid()
      ensures Requested(follower, followee, r)
    {
      hide Excluded, Mixed, Stamped, Consented, UniqueIds;
      if !local(follower) || local(followee) || IsBlockedPair(follower, followee) {
        return Error;
      }
      var p := Pair(follower, followee);
      if IsAccepted(follows, p) {
        return Ok(0);
      }
      if !hasInbox(followee) {
        return Error;
      }
      ghost var before := follows;
      ghost var newId := Upsert(p, Pending, "follow");
      OfferKeeps(local, before, blocked, history, p, "follow", clock, newId);
      queue := queue + [Task(FollowKind, follower, followee)];
      r := Ok(0);
    }

    method CreateFollow(follower: Id, target: Id) returns (r: Result)
      requires Valid()
      modifies `follows, `queue
      ensures Valid()
      ensures if !IsActiveLocal(follower) || local(target) then r == Error && unchanged(this)
              else Requested(follower, target, r)
    {
      if !IsActiveLocal(follower) || local(target) {
        return Error;
      }
      r := EnqueueOutgoingFollow(follower, target);
    }

    method PerformFollow(signer: Id, followee: Id, activity: string) returns (r: Result)
      requires Valid() && !local(signer)
      modifies `follows
      ensures Valid()
      ensures var p := Pair(signer, followee);
              if !IsActiveLocal(followee) || IsBlockedPair(signer, followee) then r == Skipped && unchanged(this)
              else r == Ok(0) && follows.Keys == old(follows.Keys) + {p} &&
                   (forall q <- old(follows) :: q != p || IsAccepted(old(follows), p) ==>
                       follows[q] == old(follows)[q]) &&
                   (IsAccepted(old(follows), p) || IsPending(follows, p))
    {
      hide Excluded, Mixed, Stamped, Consented, UniqueIds;
      if !IsActiveLocal(followee) || IsBlockedPair(signer, followee) {
        return Skipped;
      }
      var p := Pair(signer, followee);
      ghost var before := follows;
      ghost var newId := Upsert(p, Pending, activity);
      OfferKeeps(local, before, blocked, history, p, activity, clock, newId);
      r := Ok(0);
    }

    /** The remote followee's signed answer to a follow that is still pending. */
    method FinishOutgoingFollow(signer: Id, follower: Id, followee: Id, objectId: string, accepted: bool)
      returns (r: Result)
      requires Valid() && !local(signer)
      modifies `follows, `history
      ensures Valid()
      ensures var p := Pair(follower, signer);
              if followee != signer || !IsActiveLocal(follower) || !IsPending(old(follows), p) ||
                 (objectId != "" && old(follows)[p].activity != "" && objectId != old(follows)[p].activity)
              then r == Skipped && unchanged(this)
              else r == Ok(0) && follows == (if accepted then Approved(old(follows), p, clock)
                  else Removed(old(follows), p))
    {
      hide Excluded, Mixed, Stamped, Consented, UniqueIds;
      var p := Pair(follower, signer);
      if followee != signer || !IsActiveLocal(follower) || !IsPending(follows, p) {
        return Skipped;
      }
      if objectId != "" && follows[p].activity != "" && objectId != follows[p].activity {
        return Skipped;
      }
      if accepted {
        ApprovalKeeps(follows, blocked, p, clock);
        ConsentGiven(local, follows, Approved(follows, p, clock), history, SignedAccept(signer, follower), p);
        history := history + [SignedAccept(signer, follower)];
        follows := Approved(follows, p, clock);
      } else {
        Remove(p);
      }
      r := Ok(0);
    }

    /** Whether the followee is local is tested after the approval. A command names a local actor its
        account owns as followee; for a remote one the follow would be accepted without consent. */
    method ApproveFollow(follower: Id, followee: Id) returns (r: Result)
      requires Valid()
      modifies `follows, `queue, `history
      ensures Sound()
      ensures var p := Pair(follower, followee);
              Valid() <==> local(followee) || IsBlockedPair(follower, followee) || !IsPending(old(follows), p)
      ensures !Valid() ==> !Justified(local, history, Pair(follower, followee))
      ensures var p := Pair(follower, followee);
              if IsBlockedPair(follower, followee) || !Live(old(follows), p) then r == Skipped && unchanged(this)
              else follows == Approved(old(follows), p, clock) && IsAccepted(follows, p) &&
                   (r == Ok(0) <==> IsActiveLocal(followee) && storedInbox(p)) && (r == Ok(0) || r == Skipped) &&
                   queue == old(queue) + if r == Ok(0) then [Task(AcceptKind, followee, follower)] else []
    {
      hide Excluded, Mixed, Stamped, Consented, UniqueIds;
      var p := Pair(follower, followee);
      if IsBlockedPair(follower, followee) {
        return Skipped;
      }
      if IsPending(follows, p) {
        ApprovalKeeps(follows, blocked, p, clock);
        ApprovalIsConsent(local, follows, history, p, clock);
        history := history + [Approval(followee, follower)];
      }
      follows := Approved(follows, p, clock);
      if !Live(follows, p) || !IsActiveLocal(followee) || !storedInbox(p) {
        return Skipped;
      }
      queue := queue + [Task(AcceptKind, followee, follower)];
      r := Ok(0);
    }

    method RejectFollow(follower: Id, followee: Id) returns (r: Result)
      requires Valid()
      modifies `follows, `queue, `history
      ensures Valid()
      ensures var p := Pair(follower, followee);
              if !IsPending(old(follows), p) || !IsActiveLocal(followee) || !storedInbox(p) then
                r == Skipped && unchanged(this)
              else r == Ok(0) && follows == Removed(old(follows), p) &&
                   queue == old(queue) + [Task(RejectKind, followee, follower)]
    {
      hide Excluded, Mixed, Stamped, Consented, UniqueIds;
      var p := Pair(follower, followee);
      if !IsPending(follows, p) || !IsActiveLocal(followee) || !storedInbox(p) {
        return Skipped;
      }
      Remove(p);
      queue := queue + [Task(RejectKind, followee, follower)];
      r := Ok(0);
    }

    method DeleteFollow(follower: Id, target: Id) returns (r: Result)
      requires Valid()
      modifies `follows, `queue, `history
      ensures Valid()
      ensures var p := Pair(follower, target);
              if !IsActiveLocal(follower) || local(target) || !Live(old(follows), p) || !hasInbox(target) then
                r == Error && unchanged(this)
              else r == Ok(0) && follows == Removed(old(follows), p) &&
                   queue == old(queue) + [Task(UndoFollow, follower, target)]
    {
      hide Excluded, Mixed, Stamped, Consented, UniqueIds;
      if !IsActiveLocal(follower) || local(target) || !Live(follows, Pair(follower, target)) || !hasInbox(target) {
        return Error;
      }
      Remove(Pair(follower, target));
      queue := queue + [Task(UndoFollow, follower, target)];
      r := Ok(0);
    }

    method PerformUndoFollow(signer: Id, follower: Id, followee: Id) returns (r: Result)
      requires Valid() && !local(signer)
      modifies `follows, `history
      ensures Valid()
      ensures if follower != signer || !IsActiveLocal(followee) then r == Skipped && unchanged(this)
              else r == Ok(0) && follows == Removed(old(follows), Pair(signer, followee))
    {
      if follower != signer || !IsActiveLocal(followee) {
        return Skipped;
      }
      Remove(Pair(signer, followee));
      r := Ok(0);
    }

    /** A remote followee takes back its acceptance: the follow ends. */
    method PerformUndoAccept(signer: Id, follower: Id) returns (r: Result)
      requires Valid() && !local(signer)
      modifies `follows, `history
      ensures Valid()
      ensures if !IsActiveLocal(follower) || !IsAccepted(old(follows), Pair(follower, signer)) then
                r == Skipped && unchanged(this)
              else r == Ok(0) && follows == Removed(old(follows), Pair(follower, signer))
    {
      if !IsActiveLocal(follower) || !IsAccepted(follows, Pair(follower, signer)) {
        return Skipped;
      }
      Remove(Pair(follower, signer));
      r := Ok(0);
    }

    // -------------------------------------------------------------- blocking

    function Account(a: Id): set<Id>
      reads `owner
    {
      if a in owner then set b | b in owner && owner[b] == owner[a] else {a}
    }

    /** Every actor of the account, page by page, each once. */
    method AccountBlockers(initiating: Id) returns (blockers: seq<Id>)
      ensures forall a :: a in blockers <==> a in Account(initiating)
      ensures forall i, j :: 0 <= i < j < |blockers| ==> blockers[i] != blockers[j]
    {
      if initiating !in owner {
        return [initiating];
      }
      var rows: set<Row<Id>> := set b | b in owner && owner[b] == owner[initiating] :: Row(b, b);
      var listed := ListAll(rows, PAGE_SIZE);
      blockers := seq(|listed|, k requires 0 <= k < |listed| => listed[k].value);
      forall k | 0 <= k < |listed| ensures listed[k].value == listed[k].id && listed[k].value in Account(initiating) {
        assert listed[k] in Elements(listed);
      }
      forall a | a in Account(initiating) ensures a in blockers {
        assert Row(a, a) in Elements(listed);
        var k :| 0 <= k < |listed| && listed[k] == Row(a, a);
        assert blockers[k] == a;
      }
    }

    /** Put a block in force and end the follows it excludes. */
    method Block(p: Pair)
      requires Valid() && local(p.first) != local(p.second)
      modifies `follows, `blocked, `history
      ensures Valid() && blocked == old(blocked) + {p}
      ensures follows == Removed(Removed(old(follows), p), p.Swapped())
    {
      hide Excluded, Mixed, Consented, Stamped, UniqueIds;
      ghost var before := blocked;
      BlockKeeps(local, follows, blocked, p);
      blocked := blocked + {p};
      RemovalKeeps(local, follows, before, history, p);
      history, follows := history + Ending(follows, p), Removed(follows, p);
      RemovalKeeps(local, follows, before, history, p.Swapped());
      history, follows := history + Ending(follows, p.Swapped()), Removed(follows, p.Swapped());
    }

    method PerformBlock(signer: Id, blockee: Id) returns (r: Result)
      requires Valid() && !local(signer)
      modifies `follows, `blocked, `history
      ensures Valid()
      ensures var p := Pair(signer, blockee);
              if !IsActiveLocal(blockee) then r == Skipped && unchanged(this)
              else r == Ok(0) && blocked == old(blocked) + {p} &&
                   follows == Removed(Removed(old(follows), p), p.Swapped())
    {
      if !IsActiveLocal(blockee) {
        return Skipped;
      }
      Block(Pair(signer, blockee));
      r := Ok(0);
    }

    method PerformUndoBlock(signer: Id, blocker: Id, blockee: Id) returns (r: Result)
      requires Valid() && !local(signer)
      modifies `blocked
      ensures Valid()
      ensures if blocker != signer || !IsActiveLocal(blockee) then r == Skipped && unchanged(this)
              else r == Ok(0) && blocked == old(blocked) - {Pair(signer, blockee)}
    {
      if blocker != signer || !IsActiveLocal(blockee) {
        return Skipped;
      }
      blocked := blocked - {Pair(signer, blockee)};
      r := Ok(0);
    }

    /** A block by one actor is a block by every actor of its account. */
    method CreateBlock(blocker: Id, blockee: Id) returns (r: Result, ghost blockers: seq<Id>)
      requires Valid()
      modifies `follows, `blocked, `queue, `history
      ensures Valid()
      ensures (r == Ok(0) || r == Error) && (r == Ok(0) <==>
                old(IsActiveLocal(blocker)) && !local(blockee) && hasInbox(blockee))
      ensures r == Error ==> unchanged(this)
      ensures r == Ok(0) ==>
                && blocked == old(blocked) + BlocksOf(Account(blocker), blockee)
                && SameOutside(old(follows), follows, BlocksOf(Account(blocker), blockee))
                && (forall a :: a in blockers <==> a in Account(blocker))
                && queue == old(queue) + Notices(BlockKind, blockers, active, blockee)
    {
      hide Excluded, Mixed, Stamped, Consented, UniqueIds, Removed, SameOutside, Notices, BlocksOf;
      NoBlocks(blockee, blocked);
      SameOutsideItself(follows, BlocksOf(Account(blocker), blockee));
      blockers := [];
      if !IsActiveLocal(blocker) || local(blockee) || !hasInbox(blockee) {
        return Error, [];
      }
      var actors := AccountBlockers(blocker);
      ghost var asked: set<Id> := {};
      for k := 0 to |actors|
        invariant Valid()
        invariant asked == set a | a in actors[..k]
        invariant blocked == old(blocked) + BlocksOf(asked, blockee)
        invariant SameOutside(old(follows), follows, BlocksOf(Account(blocker), blockee))
        invariant queue == old(queue) + Notices(BlockKind, actors[..k], active, blockee)
      {
        var actor := actors[k];
        BlocksAreOfAccount(Account(blocker), actor, blockee);
        ghost var before := follows;
        Block(Pair(actor, blockee));
        RemovedOutside(old(follows), before, BlocksOf(Account(blocker), blockee), Pair(actor, blockee));
        assert actors[..k + 1] == actors[..k] + [actor];
        OneMoreNotice(BlockKind, actors[..k], actor, active, blockee);
        OneMoreBlocks(asked, actor, blockee);
        asked := asked + {actor};
        if actor in active {
          queue := queue + [Task(BlockKind, actor, blockee)];
        }
      }
      assert actors[..|actors|] == actors;
      assert asked == Account(blocker);
      blockers := actors;
      r := Ok(0);
    }

    /** An unblock by one actor lifts the blocks of every actor of its account; each of them that may still
        send announces its own. */
    method DeleteBlock(blocker: Id, blockee: Id) returns (r: Result, ghost undone: seq<Id>)
      requires Valid()
      modifies `blocked, `queue
      ensures Valid()
      ensures r == Ok(0) || r == Error
      ensures r == Ok(0) <==> old(IsActiveLocal(blocker)) && !local(blockee) && hasInbox(blockee) &&
                              BlocksOf(Account(blocker), blockee) * old(blocked) != {}
      ensures blocked == if r == Ok(0) then old(blocked) - BlocksOf(Account(blocker), blockee) else old(blocked)
      ensures r == Ok(0) ==> forall a :: a in undone <==> a in Account(blocker) && Pair(a, blockee) in old(blocked)
      ensures queue == old(queue) + Notices(UndoBlock, undone, active, blockee)
    {
      hide Excluded, Mixed, Stamped, Consented, UniqueIds, BlocksOf, Notices, Blocking;
      undone := [];
      if !IsActiveLocal(blocker) || local(blockee) || !hasInbox(blockee) {
        return Error, [];
      }
      var actors := AccountBlockers(blocker);
      var deleted := false;
      ghost var asked: set<Id> := {};
      NoBlocks(blockee, blocked);
      for k := 0 to |actors|
        invariant Valid()
        invariant asked == set a | a in actors[..k]
        invariant blocked == old(blocked) - BlocksOf(asked, blockee)
        invariant deleted <==> undone != []
        invariant undone == Blocking(actors[..k], old(blocked), blockee)
        invariant queue == old(queue) + Notices(UndoBlock, undone, active, blockee)
      {
        hide Excluded, Mixed, Stamped, Consented, UniqueIds, BlocksOf, Notices, Blocking;
        var actor := actors[k];
        assert actors[..k + 1] == actors[..k] + [actor];
        UnblockKeeps(local, follows, blocked, Pair(actor, blockee));
        OneMoreBlocks(asked, actor, blockee);
        BlocksAreOfAccount(asked, actor, blockee);
        OneMoreBlocking(actors[..k], actor, old(blocked), blockee);
        asked := asked + {actor};
        if Pair(actor, blockee) in blocked {
          blocked := blocked - {Pair(actor, blockee)};
          deleted := true;
          OneMoreNotice(UndoBlock, undone, actor, active, blockee);
          undone := undone + [actor];
          if actor in active {
            queue := queue + [Task(UndoBlock, actor, blockee)];
          }
        }
      }
      assert actors[..|actors|] == actors;
      assert asked == Account(blocker);
      LiftedSome(actors, old(blocked), blockee, asked);
      r := if deleted then Ok(0) else Error;
    }

    /** The rejection is sent to the inbox stored with the follow, the block to the actor's inbox now: when
        that one is missing, the follow is rejected and the command fails. */
    method RejectAndBlockFollow(follower: Id, followee: Id) returns (r: Result)
      requires Valid()
      modifies `follows, `blocked, `queue, `history
      ensures Valid()
      ensures var p := Pair(follower, followee);
              if !IsPending(old(follows), p) || local(follower) || !IsActiveLocal(followee) || !storedInbox(p) then
                r == Error && unchanged(this)
              else if !hasInbox(follower) then
                r == Error && blocked == old(blocked) && follows == Removed(old(follows), p) &&
                queue == old(queue) + [Task(RejectKind, followee, follower)]
              else
                r == Ok(0) && blocked == old(blocked) + BlocksOf(Account(followee), follower) &&
                IsBlockedPair(followee, follower) && !Live(follows, p) &&
                SameOutside(old(follows), follows, BlocksOf(Account(followee), follower)) &&
                |queue| > |old(queue)| && queue[|old(queue)|] == Task(RejectKind, followee, follower)
    {
      if !IsPending(follows, Pair(follower, followee)) || local(follower) {
        return Error;
      }
      r := RejectFollow(follower, followee);
      if r != Ok(0) {
        return Error;
      }
      ghost var blockers;
      r, blockers := CreateBlock(followee, follower);
      assert Pair(followee, follower) in BlocksOf(Account(followee), follower);
    }

    // -------------------------------------------------------------- moving

    method CarryOver(ghost move: Move, destination: Id, follower: Id) returns (r: Result)
      requires Valid() && IsActiveLocal(follower) && move.Validated() && move.destination == destination
      requires !local(move.source) && IsAccepted(follows, Pair(follower, move.source))
      modifies `follows, `queue, `history
      ensures Valid() && SameExcept(old(follows), follows, Pair(follower, destination))
      ensures var p := Pair(follower, destination);
              r.Ok? <==> local(destination) || (!IsBlockedPair(follower, destination) &&
                                                (IsAccepted(old(follows), p) || hasInbox(destination)))
      ensures r.Ok? ==> Live(follows, Pair(follower, destination)) &&
                        (local(destination) ==> IsAccepted(follows, Pair(follower, destination)))
      ensures !local(destination) ==>
                (IsAccepted(follows, Pair(follower, destination)) <==>
                    IsAccepted(old(follows), Pair(follower, destination)))
      ensures !r.Ok? ==> unchanged(this)
    {
      hide Excluded, Mixed, Stamped, Consented, UniqueIds;
      if !local(destination) {
        r := EnqueueOutgoingFollow(follower, destination);
        return;
      }
      var p := Pair(follower, destination);
      ghost var before := follows;
      ghost var newId := Upsert(p, Accepted, "");
      ConsentOf(local, before, history, Pair(follower, move.source));
      CarriedKeeps(local, before, follows, blocked, history, p, Carried(move, follower));
      history := history + [Carried(move, follower)];
      r := Ok(0);
    }

    function ActiveLocal(): set<Id>
      reads `active
    {
      set a | a in active && local(a)
    }

    /** What makes carrying `f` over fail, and with it the whole move. */
    ghost predicate Stuck(t: Table, destination: Id, f: Id)
      reads `blocked
    {
      !local(destination) &&
      (IsBlockedPair(f, destination) || (!IsAccepted(t, Pair(f, destination)) && !hasInbox(destination)))
    }

    ghost predicate NoneStuck(t: Table, destination: Id, rows: set<Row<Pair>>)
      reads `blocked, `active
    {
      forall row <- rows :: row.value.first in ActiveLocal() ==> !Stuck(t, destination, row.value.first)
    }

    lemma NoneStuckUnion(t: Table, destination: Id, a: set<Row<Pair>>, b: set<Row<Pair>>)
      ensures NoneStuck(t, destination, a + b) <==> NoneStuck(t, destination, a) && NoneStuck(t, destination, b)
    {
    }

    lemma NoneStuckAtFirst(t: Table, destination: Id)
      ensures NoneStuck(t, destination, {})
    {
    }

    lemma NoneStuckWithin(t: Table, destination: Id, a: set<Row<Pair>>, b: set<Row<Pair>>)
      requires a <= b && NoneStuck(t, destination, b)
      ensures NoneStuck(t, destination, a)
    {
    }

    lemma NoneStuckMovable(t: Table, source: Id, destination: Id)
      ensures NoneStuck(t, destination, Followers(t, source)) <==>
              forall f <- Movable(t, source, ActiveLocal()) :: !Stuck(t, destination, f)
    {
      MovableRows(t, source, ActiveLocal());
    }

    /** One page of the followers of `source`. `start` is the table when the move began and `done` what
        earlier pages took up. */
    method MigratePage(source: Id, destination: Id, page: seq<Row<Pair>>, ghost move: Move, ghost start: Table,
                       ghost done: set<Row<Pair>>)
      returns (r: Result, ghost taken: set<Row<Pair>>, ghost at: nat)
      requires Valid() && Proves(move, source, destination)
      requires PartMoved(start, follows, local, source, destination, ActiveLocal(), done) &&
               SameAcceptance(start, follows, local, destination)
      requires Elements(page) <= Followers(start, source) && done <= Followers(start, source) &&
               done * Elements(page) == {}
      requires forall i, j :: 0 <= i < j < |page| ==> page[i].id < page[j].id
      modifies `follows, `queue, `history
      ensures Valid() && (r.Ok? || r == Error)
      ensures PartMoved(start, follows, local, source, destination, ActiveLocal(), taken) &&
              SameAcceptance(start, follows, local, destination)
      ensures at <= |page| && taken == done + Elements(page[..at]) && (r.Ok? ==> at == |page|)
      ensures r == Error ==> at < |page| && page[at].value.first in ActiveLocal() &&
                             Stuck(start, destination, page[at].value.first) &&
                             NoneStuck(start, destination, Elements(page[..at]))
      ensures r.Ok? ==> r.count == |CarriedIds(taken, ActiveLocal())| - |CarriedIds(done, ActiveLocal())|
      ensures r.Ok? <==> NoneStuck(start, destination, Elements(page))
    {
      hide Excluded, Mixed, Stamped, Consented, UniqueIds, PartMoved, CarriedIds, SameExcept;
      var migrated := 0;
      taken, at := done, 0;
      ghost var locals := ActiveLocal();
      for k := 0 to |page|
        invariant Valid() && PartMoved(start, follows, local, source, destination, locals, taken)
        invariant SameAcceptance(start, follows, local, destination)
        invariant at == k && taken == done + Elements(page[..k]) && taken <= Followers(start, source)
        invariant migrated == |CarriedIds(taken, locals)| - |CarriedIds(done, locals)|
        invariant forall j :: 0 <= j < k ==> page[j].value.first in locals ==>
                  !Stuck(start, destination, page[j].value.first)
      {
        var row := page[k];
        var follower := row.value.first;
        assert row in Elements(page);
        assert row !in Elements(page[..k]);
        assert row !in done * Elements(page);
        ghost var before := follows;
        if IsActiveLocal(follower) {
          StillFollowing(start, follows, local, source, destination, locals, taken, row);
          var carried := CarryOver(move, destination, follower);
          if !carried.Ok? {
            return Error, taken, at;
          }
          SameAcceptanceStep(start, before, follows, local, destination, follower);
          migrated := migrated + 1;
        }
        OneMoreMoved(start, before, follows, local, source, destination, locals, taken, row);
        OneMoreCarried(start, source, locals, taken, row);
        assert Elements(page[..k + 1]) == Elements(page[..k]) + {row};
        taken, at := taken + {row}, k + 1;
      }
      assert page[..|page|] == page;
      r := Ok(migrated);
    }

    /** Why a move goes ahead. */
    ghost predicate Proves(move: Move, source: Id, destination: Id) {
      move.Validated() && move.source == source && move.destination == destination && !local(source)
    }

    /** The first follower, in the order of the follow documents, that cannot be carried over. */
    ghost predicate StopsAt(t: Table, source: Id, destination: Id, row: Row<Pair>)
      reads `blocked, `active
    {
      && row in Followers(t, source) && row.value.first in ActiveLocal() && Stuck(t, destination, row.value.first)
      && row.id > 0 && NoneStuck(t, destination, Seen(Followers(t, source), row.id - 1))
    }

    /** Page through the followers of `source` while follows of `destination` are added. A failure keeps
        what was carried over: the followers before the one that cannot be. */
    method MigrateLocalFollowers(source: Id, destination: Id, ghost move: Move)
      returns (r: Result, ghost stop: Option<Row<Pair>>)
      requires Valid() && Proves(move, source, destination)
      modifies `follows, `queue, `history
      ensures Valid() && (r.Ok? || r == Error)
      ensures r.Ok? <==>
                forall f <- Movable(old(follows), source, ActiveLocal()) :: !Stuck(old(follows), destination, f)
      ensures r.Ok? <==> stop == None
      ensures r.Ok? ==> Moved(old(follows), follows, local, source, destination, ActiveLocal())
      ensures r.Ok? ==> r.count == |Movable(old(follows), source, ActiveLocal())|
      ensures r == Error ==> stop.Some? && StopsAt(old(follows), source, destination, stop.value)
      ensures r == Error ==> PartMoved(old(follows), follows, local, source, destination, ActiveLocal(),
                                       Seen(Followers(old(follows), source), stop.value.id - 1))
      ensures Followers(follows, source) == Followers(old(follows), source)
    {
      hide Excluded, Mixed, Stamped, Consented, UniqueIds, IsPage, Keyed, PartMoved, Moved, CarriedIds,
          SameAcceptance, Stuck,
        NoneStuck, Seen, Elements, Followers, Movable;
      ghost var start, locals := follows, ActiveLocal();
      ghost var rows := Followers(follows, source);
      var migrated, afterId := 0, 0;
      stop := None;
      FollowersKeyed(follows, source);
      NothingSeen(rows);
      NothingMoved(follows, source, destination, locals, local);
      NoneStuckAtFirst(start, destination);
      while true
        invariant Valid() && PartMoved(start, follows, local, source, destination, locals, Seen(rows, afterId))
        invariant SameAcceptance(start, follows, local, destination)
        invariant migrated == |CarriedIds(Seen(rows, afterId), locals)|
        invariant NoneStuck(start, destination, Seen(rows, afterId))
        decreases rows - Seen(rows, afterId)
      {
        FollowersKept(start, follows, local, source, destination, locals, Seen(rows, afterId));
        FollowersKeyed(follows, source);
        var page := Fetch(Followers(follows, source), afterId, PAGE_SIZE);
        PageWithin(rows, afterId, PAGE_SIZE, page);
        ghost var taken, at;
        r, taken, at := MigratePage(source, destination, page, move, start, Seen(rows, afterId));
        FollowersKept(start, follows, local, source, destination, locals, taken);
        NoneStuckMovable(start, source, destination);
        if !r.Ok? {
          PageUpTo(rows, afterId, PAGE_SIZE, page, at);
          NoneStuckUnion(start, destination, Seen(rows, afterId), Elements(page[..at]));
          if NoneStuck(start, destination, rows) {
            NoneStuckWithin(start, destination, Elements(page), rows);
          }
          stop := Some(page[at]);
          return;
        }
        assert page[..at] == page;
        NoneStuckUnion(start, destination, Seen(rows, afterId), Elements(page));
        migrated := migrated + r.count;
        if |page| < PAGE_SIZE {
          ShortPage(rows, afterId, PAGE_SIZE, page);
          AllMoved(start, follows, local, source, destination, locals);
          MovableRows(start, source, locals);
          r := Ok(migrated);
          return;
        }
        FullPage(rows, afterId, PAGE_SIZE, page);
        afterId := page[PAGE_SIZE - 1].id;
      }
    }

    /** A move is validated against what both servers say now. Not learning it fails the activity, so that
        it is tried again; a move that is not what they say is dropped. */
    method PerformMove(actor: Id, target: Id, source: Option<Profile>, destination: Answer)
      returns (r: Result, ghost stop: Option<Row<Pair>>)
      requires Valid() && !local(actor)
      modifies `follows, `queue, `history
      ensures Valid()
      ensures if target == actor then r == Skipped && unchanged(this)
              else if source == None then r == Error && unchanged(this)
              else if source.value.movedTo != Some(target) then r == Skipped && unchanged(this)
              else if destination == Unavailable then r == Error && unchanged(this)
              else if destination == Missing || destination.profile.movedTo == Some(actor) ||
                      actor !in destination.profile.alsoKnownAs then r == Skipped && unchanged(this)
              else if stop.Some? then
                r == Error && StopsAt(old(follows), actor, target, stop.value) &&
                PartMoved(old(follows), follows, local, actor, target, ActiveLocal(),
                          Seen(Followers(old(follows), actor), stop.value.id - 1))
              else r == Ok(|Movable(old(follows), actor, ActiveLocal())|) &&
                   Moved(old(follows), follows, local, actor, target, ActiveLocal()) &&
                   forall f <- Movable(old(follows), actor, ActiveLocal()) :: !Stuck(old(follows), target, f)
      ensures Followers(follows, actor) == Followers(old(follows), actor)
    {
      hide Excluded, Mixed, Stamped, Consented, UniqueIds, PartMoved, Moved, Stuck, NoneStuck, Seen, Followers, Movable;
      stop := None;
      if target == actor {
        return Skipped, stop;
      }
      if source == None {
        return Error, stop;
      }
      if source.value.movedTo != Some(target) {
        return Skipped, stop;
      }
      if destination == Unavailable {
        return Error, stop;
      }
      if destination == Missing || destination.profile.movedTo == Some(actor) ||
         actor !in destination.profile.alsoKnownAs
      {
        return Skipped, stop;
      }
      ghost var move := Move(actor, target, source.value.movedTo, destination.profile);
      r, stop := MigrateLocalFollowers(actor, target, move);
    }

    // -------------------------------------------------------------- everything

    /** Actors are created, suspended, resumed, deleted or given to accounts; time passes. */
    method OthersRun()
      requires Valid()
      modifies `active, `owner, `clock
      ensures Valid()
    {
      active := *;
      clock := *;
      var owned: map<Id, nat> := *;
      owner := map a | a in owned && local(a) :: owned[a];
    }

    /** Any run of commands, signed activities and validated moves keeps blocks and follows apart and
        keeps every accepted follow justified. */
    method Serve(steps: nat)
      requires Valid()
      modifies this
      ensures Valid()
    {
      for k := 0 to steps
        invariant Valid()
      {
        hide *;
        var choice: nat, accepted: bool, activity: string, profile: Option<Profile> := *, *, *, *;
        var me: Id, other: Id, third: Id := *, *, *;
        var r;
        var answer: Answer := *;
        ghost var blockers, stop;
        if local(me) {
          match choice % 7 {
            case 0 => r := CreateFollow(me, other);
            case 1 => r := DeleteFollow(me, other);
            case 2 => r := ApproveFollow(other, me);
            case 3 => r := RejectFollow(other, me);
            case 4 => r := RejectAndBlockFollow(other, me);
            case 5 => r, blockers := CreateBlock(me, other);
            case _ => r, blockers := DeleteBlock(me, other);
          }
        } else {
          match choice % 8 {
            case 0 => r := PerformFollow(me, other, activity);
            case 1 => r := FinishOutgoingFollow(me, other, third, activity, accepted);
            case 2 => r := PerformUndoFollow(me, third, other);
            case 3 => r := PerformUndoAccept(me, other);
            case 4 => r := PerformBlock(me, other);
            case 5 => r := PerformUndoBlock(me, third, other);
            case 6 => r, stop := PerformMove(me, other, profile, answer);
            case _ => OthersRun();
          }
        }
      }
    }
  }

  // ---------------------------------------------------------------- two runs

  /** Someone local (1) asks to follow someone remote (2), and the request is then "approved" for the
      remote followee: the follow is accepted and nobody consented. */
  method ApprovedForRemote() returns (h: Handler)
    ensures fresh(h) && h.local(1) && !h.local(2) && h.Sound()
    ensures IsAccepted(h.follows, Pair(1, 2)) && !Justified(h.local, h.history, Pair(1, 2))
  {
    hide Excluded, Mixed, Stamped, UniqueIds;
    h := new Handler(id => id == 1, id => true, p => true, {1});
    var r := h.CreateFollow(1, 2);
    r := h.ApproveFollow(1, 2);
  }

  /** Someone local (1) follows a remote account (2) that then moves to 1: 1 follows itself. */
  method MovedToFollower() returns (h: Handler)
    ensures fresh(h) && h.Valid() && IsAccepted(h.follows, Pair(1, 1))
  {
    hide Excluded, Mixed, Stamped, UniqueIds, Consented, PartMoved;
    h := new Handler(id => id == 1, id => true, p => true, {1});
    var r := h.CreateFollow(1, 2);
    r := h.FinishOutgoingFollow(2, 1, 2, "", true);
    ghost var before := h.follows;
    ghost var stop;
    r, stop := h.PerformMove(2, 1, Some(Profile(Some(1), {})), Known(Profile(None, {2})));
    MoveToOwnFollower(before, h.follows, h.local, 2, 1, h.ActiveLocal());
  }
}
