/** Receipts of inbox activities: an activity is processed under a lease and, once completed, is not
    processed again while its receipt is retained. Workers act in any interleaving, answers of the
    store may be lost, and expired receipts are purged at some later time. */
module Receipts {
  import opened Text

  // ---------------------------------------------------------------- what happened to the receipts

  /** The operations that took effect, in the order of the store. `at` is the time the operation was
      given, which need not be the order of the log. */
  datatype Event =
    | Claimed(id: string, actor: string, token: nat, at: nat, lease: nat, retention: nat)
    | Completed(id: string, token: nat)
    | Released(id: string, token: nat)
    | Purged(id: string, at: nat)

  /** The receipt of one activity: leased to the holder of a token, or completed. */
  datatype Phase =
    | Absent
    | Held(actor: string, token: nat, until: nat, expires: nat)
    | Done(actor: string, expires: nat)

  function Next(phase: Phase, e: Event): Phase {
    match e
    case Claimed(_, actor, token, at, lease, retention) => Held(actor, token, at + lease, at + retention)
    case Completed(_, _) => if phase.Held? then Done(phase.actor, phase.expires) else phase
    case Released(_, _) => Absent
    case Purged(_, _) => Absent
  }

  function PhaseOf(log: seq<Event>, id: string): Phase {
    if log == [] then Absent
    else
      var last := log[|log| - 1];
      var before := PhaseOf(log[..|log| - 1], id);
      if last.id == id then Next(before, last) else before
  }

  predicate Issued(log: seq<Event>, token: nat) {
    exists k :: 0 <= k < |log| && log[k].Claimed? && log[k].token == token
  }

  predicate Holds(phase: Phase, token: nat) { phase.Held? && phase.token == token }

  /** When the store lets an operation take effect. */
  predicate Permitted(phase: Phase, e: Event) {
    match e
    case Claimed(_, actor, _, at, lease, retention) =>
      0 < lease < retention && (phase == Absent || (phase.Held? && phase.actor == actor && phase.until <= at))
    case Completed(_, token) => Holds(phase, token)
    case Released(_, token) => Holds(phase, token)
    case Purged(_, at) => phase != Absent && phase.expires <= at
  }

  /** Tokens are random and never repeat. */
  ghost predicate Allowed(log: seq<Event>, e: Event) {
    Permitted(PhaseOf(log, e.id), e) && (e.Claimed? ==> !Issued(log, e.token))
  }

  ghost predicate Legal(log: seq<Event>) {
    forall k :: 0 <= k < |log| ==> Allowed(log[..k], log[k])
  }

  lemma LegalAppend(log: seq<Event>, e: Event)
    requires Legal(log) && Allowed(log, e)
    ensures Legal(log + [e]) && PhaseOf(log + [e], e.id) == Next(PhaseOf(log, e.id), e)
    ensures forall id :: id != e.id ==> PhaseOf(log + [e], id) == PhaseOf(log, id)
  {
    var more := log + [e];
    assert more[..|log|] == log;
    forall k | 0 <= k < |more| ensures Allowed(more[..k], more[k]) {
      assert more[..k] == log[..k];
    }
  }

  /** A token stands for one claim. */
  lemma TokensAreFresh(log: seq<Event>, i: nat, j: nat)
    requires Legal(log) && i < j < |log| && log[i].Claimed? && log[j].Claimed?
    ensures log[i].token != log[j].token
  {
    assert Allowed(log[..j], log[j]);
    assert log[..j][i] == log[i];
  }

  // ---------------------------------------------------------------- what one claim stands for

  /** Some event among log[from..until] ends the lease of claim `c`. */
  ghost predicate LeaseEnded(log: seq<Event>, c: nat, from: nat, until: nat)
    requires c < |log| && log[c].Claimed? && until <= |log|
  {
    exists k :: from <= k < until && EndsLease(log[k], log[c])
  }

  /** The holder gave it back, or its time was over: for a claimant, or for the purge. */
  ghost predicate EndsLease(e: Event, claim: Event)
    requires claim.Claimed?
  {
    || e == Released(claim.id, claim.token)
    || (e.Claimed? && e.id == claim.id && e.at >= claim.at + claim.lease)
    || (e.Purged? && e.id == claim.id && e.at >= claim.at + claim.retention)
  }

  ghost predicate PurgedAfter(log: seq<Event>, c: nat, from: nat, until: nat)
    requires c < |log| && log[c].Claimed? && until <= |log|
  {
    exists k :: from <= k < until && log[k].Purged? && log[k].id == log[c].id &&
                log[k].at >= log[c].at + log[c].retention
  }

  /** The claim is in force, or was completed and is retained. */
  predicate StandsFor(phase: Phase, claim: Event)
    requires claim.Claimed?
  {
    phase == Held(claim.actor, claim.token, claim.at + claim.lease, claim.at + claim.retention) ||
    phase == Done(claim.actor, claim.at + claim.retention)
  }

  lemma StepStands(phase: Phase, e: Event, claim: Event)
    requires claim.Claimed? && StandsFor(phase, claim) && Permitted(phase, e) && e.id == claim.id
    ensures StandsFor(Next(phase, e), claim) || EndsLease(e, claim)
    ensures phase.Done? ==> e.Purged? && e.at >= claim.at + claim.retention
  {
  }

  lemma PhaseStep(log: seq<Event>, n: nat, id: string)
    requires Legal(log) && n < |log|
    ensures PhaseOf(log[..n + 1], id) ==
            if log[n].id == id then Next(PhaseOf(log[..n], id), log[n]) else PhaseOf(log[..n], id)
    ensures log[n].id == id ==> Permitted(PhaseOf(log[..n], id), log[n])
  {
    assert Allowed(log[..n], log[n]);
    assert log[..n + 1][..n] == log[..n];
  }

  /** After claim `c`, until its lease has ended, its activity is held or completed under it. */
  lemma {:induction false} ClaimStands(log: seq<Event>, c: nat, n: nat)
    requires Legal(log) && c < n <= |log| && log[c].Claimed?
    ensures LeaseEnded(log, c, c + 1, n) || StandsFor(PhaseOf(log[..n], log[c].id), log[c])
    decreases n
  {
    hide Permitted, PhaseOf, EndsLease, Legal;
    PhaseStep(log, n - 1, log[c].id);
    if n > c + 1 {
      ClaimStands(log, c, n - 1);
      if LeaseEnded(log, c, c + 1, n - 1) {
        var k :| c + 1 <= k < n - 1 && EndsLease(log[k], log[c]);
        assert EndsLease(log[k], log[c]);
      } else if log[n - 1].id == log[c].id {
        StepStands(PhaseOf(log[..n - 1], log[c].id), log[n - 1], log[c]);
      }
    }
  }

  lemma HeldAtCompletion(log: seq<Event>, c: nat, d: nat)
    requires Legal(log) && c < d < |log| && log[c].Claimed? && log[d] == Completed(log[c].id, log[c].token)
    ensures Next(PhaseOf(log[..d], log[c].id), log[d]) == Done(log[c].actor, log[c].at + log[c].retention)
  {
    PhaseStep(log, d, log[c].id);
    ClaimStands(log, c, d);
    HeldByLatest(log, c, d);
  }

  /** Once completed, an activity stays completed until its receipt is purged, which is not before its
      retention is over. */
  lemma {:induction false} CompletionStands(log: seq<Event>, c: nat, d: nat, n: nat)
    requires Legal(log) && c < d < n <= |log| && log[c].Claimed? && log[d] == Completed(log[c].id, log[c].token)
    ensures PurgedAfter(log, c, d + 1, n) || PhaseOf(log[..n], log[c].id) ==
            Done(log[c].actor, log[c].at + log[c].retention)
    decreases n
  {
    hide Permitted, PhaseOf, Legal;
    PhaseStep(log, n - 1, log[c].id);
    if n == d + 1 {
      HeldAtCompletion(log, c, d);
    } else {
      CompletionStands(log, c, d, n - 1);
      if PurgedAfter(log, c, d + 1, n - 1) {
        var k :| d + 1 <= k < n - 1 && log[k].Purged? && log[k].id == log[c].id &&
            log[k].at >= log[c].at + log[c].retention;
        assert PurgedAfter(log, c, d + 1, n);
      } else if log[n - 1].id == log[c].id {
        StepStands(PhaseOf(log[..n - 1], log[c].id), log[n - 1], log[c]);
      }
    }
  }

  /** While a claim is held, nothing else happens to its activity. */
  lemma {:induction false} HeldByLatest(log: seq<Event>, c: nat, n: nat)
    requires Legal(log) && c < n <= |log| && log[c].Claimed?
    requires Holds(PhaseOf(log[..n], log[c].id), log[c].token)
    ensures forall j :: c < j < n ==> log[j].id != log[c].id
    decreases n
  {
    hide Permitted, PhaseOf, Legal, Holds;
    PhaseStep(log, n - 1, log[c].id);
    if n > c + 1 {
      if log[n - 1].Claimed? {
        TokensAreFresh(log, c, n - 1);
      }
      if log[n - 1].id == log[c].id {
        StepToHeld(PhaseOf(log[..n - 1], log[c].id), log[n - 1], log[c].token);
      }
      HeldByLatest(log, c, n - 1);
    }
  }

  lemma StepToHeld(phase: Phase, e: Event, token: nat)
    requires Permitted(phase, e) && Holds(Next(phase, e), token)
    ensures e.Claimed? && e.token == token
  {
  }

  // ---------------------------------------------------------------- the theorems, for every log

  /** A later claim of the same activity means the earlier lease had ended: holders that finish within
      their lease never overlap. */
  lemma LeasesNeverOverlap(log: seq<Event>, i: nat, j: nat)
    requires Legal(log) && i < j < |log| && log[i].Claimed? && log[j].Claimed? && log[i].id == log[j].id
    ensures LeaseEnded(log, i, i + 1, j + 1)
  {
    ClaimStands(log, i, j);
    PhaseStep(log, j, log[i].id);
    if LeaseEnded(log, i, i + 1, j) {
      var k :| i + 1 <= k < j && EndsLease(log[k], log[i]);
    } else {
      StepStands(PhaseOf(log[..j], log[i].id), log[j], log[i]);
    }
  }

  /** A completed activity is claimed again only after its receipt was purged, and that was not before
      the retention of the completed claim was over. */
  lemma NoReclaimBeforeRetention(log: seq<Event>, c: nat, d: nat, j: nat)
    requires Legal(log) && c < d < j < |log| && log[c].Claimed? && log[d] == Completed(log[c].id, log[c].token)
    requires log[j].Claimed? && log[j].id == log[c].id
    ensures PurgedAfter(log, c, d + 1, j)
  {
    CompletionStands(log, c, d, j);
    PhaseStep(log, j, log[c].id);
  }

  /** After a successor's claim the earlier holder can neither complete nor release anything. */
  lemma StaleHolderIsPowerless(log: seq<Event>, i: nat, j: nat, n: nat)
    requires Legal(log) && i < j < n < |log| && log[i].Claimed? && log[j].Claimed? && log[i].id == log[j].id
    ensures log[n] != Completed(log[i].id, log[i].token) && log[n] != Released(log[i].id, log[i].token)
  {
    PhaseStep(log, n, log[i].id);
    if Holds(PhaseOf(log[..n], log[i].id), log[i].token) {
      HeldByLatest(log, i, n);
    }
  }

  lemma {:induction false} HolderClaimed(log: seq<Event>, n: nat, id: string) returns (c: nat)
    requires Legal(log) && n <= |log| && PhaseOf(log[..n], id).Held?
    ensures c < n && log[c].Claimed? && log[c].id == id && log[c].token == PhaseOf(log[..n], id).token
  {
    PhaseStep(log, n - 1, id);
    if log[n - 1].id == id && log[n - 1].Claimed? {
      c := n - 1;
    } else {
      c := HolderClaimed(log, n - 1, id);
    }
  }

  /** An activity is completed at most once per retention: between two completions the receipt of the
      first was purged, after the retention of its claim, and the second is another holder's. */
  lemma CompletedAtMostOnce(log: seq<Event>, d: nat, n: nat) returns (c: nat)
    requires Legal(log) && d < n < |log| && log[d].Completed? && log[n].Completed? && log[d].id == log[n].id
    ensures c < d && log[c].Claimed? && log[c].id == log[d].id && log[c].token == log[d].token != log[n].token
    ensures PurgedAfter(log, c, d + 1, n)
  {
    PhaseStep(log, d, log[d].id);
    PhaseStep(log, n, log[d].id);
    c := HolderClaimed(log, d, log[d].id);
    CompletionStands(log, c, d, n);
    if log[n].token == log[c].token {
      HeldByLatest(log, c, n);
    }
  }

  predicate Ends(e: Event, id: string, token: nat) {
    e == Completed(id, token) || e == Released(id, token)
  }

  /** A claim ends in at most one way: a release whose completion was answered but lost removes nothing. */
  lemma OneEnd(log: seq<Event>, d: nat, n: nat, id: string, token: nat)
    requires Legal(log) && d < n < |log| && Ends(log[d], id, token)
    ensures !Ends(log[n], id, token)
  {
    PhaseStep(log, d, id);
    PhaseStep(log, n, id);
    if Ends(log[n], id, token) {
      var first := HolderClaimed(log, d, id);
      var last := HolderClaimed(log, n, id);
      HeldByLatest(log, last, n);
      TokensAreFresh(log, first, last);
    }
  }

  // ---------------------------------------------------------------- the collection

  datatype Status = Processing | Complete

  datatype Receipt = Receipt(actor: string, status: Status, token: Option<nat>, leaseExpiresAt: Option<nat>,
                             createdAt: nat, completedAt: Option<nat>, expiresAt: nat)

  datatype ClaimResult = Granted | Busy | OwnedByOther | Invalid

  predicate Reflects(r: Receipt, phase: Phase) {
    match phase
    case Absent => false
    case Held(actor, token, until, expires) =>
      r.actor == actor && r.status == Processing && r.token == Some(token) && r.leaseExpiresAt == Some(until) &&
      r.completedAt == None && r.expiresAt == expires
    case Done(actor, expires) =>
      r.actor == actor && r.status == Complete && r.token == None && r.leaseExpiresAt == None &&
      r.completedAt.Some? && r.expiresAt == expires
  }

  class ReceiptStore {
    var receipts: map<string, Receipt>
    /** The operations that took effect. */
    var log: seq<Event>

    ghost predicate Valid()
      reads this
    {
      Legal(log) && forall id ::
        if id in receipts then Reflects(receipts[id], PhaseOf(log, id)) else PhaseOf(log, id) == Absent
    }

    constructor ()
      ensures Valid() && log == []
    {
      receipts, log := map[], [];
    }

    method Record(e: Event)
      requires Legal(log) && Allowed(log, e)
      modifies `log
      ensures log == old(log) + [e] && Legal(log) && PhaseOf(log, e.id) == Next(PhaseOf(old(log), e.id), e)
      ensures forall id :: id != e.id ==> PhaseOf(log, id) == PhaseOf(old(log), id)
    {
      LegalAppend(log, e);
      log := log + [e];
    }

    /** Insert a receipt, or take over one of the same actor whose lease is over. */
    method Claim(activityId: string, actorUri: string, now: nat, lease: nat, retention: nat, token: nat)
      returns (r: ClaimResult)
      requires Valid() && !Issued(log, token)
      modifies this
      ensures Valid()
      ensures var id, actor := TrimSpace(activityId), TrimSpace(actorUri);
              if id == "" || actor == "" || lease == 0 || retention <= lease then r == Invalid
              else if id !in old(receipts) ||
                  (old(receipts)[id].actor == actor && old(receipts)[id].status == Processing &&
                                               old(receipts)[id].leaseExpiresAt.value <= now) then r == Granted
              else r == if old(receipts)[id].actor != actor then OwnedByOther else Busy
      ensures if r == Granted
              then log == old(log) + [Claimed(TrimSpace(activityId), TrimSpace(actorUri), token, now, lease, retention)]
              else unchanged(this)
    {
      hide Legal, PhaseOf, TrimSpace;
      var id, actor := TrimSpace(activityId), TrimSpace(actorUri);
      if id == "" || actor == "" || lease == 0 || retention <= lease {
        return Invalid;
      }
      if id !in receipts {
        var receipt := Receipt(actor, Processing, Some(token), Some(now + lease), now, None, now + retention);
        receipts := receipts[id := receipt];
      } else {
        var existing := receipts[id];
        if existing.actor != actor {
          return OwnedByOther;
        }
        if existing.status != Processing || existing.leaseExpiresAt.value > now {
          return Busy;
        }
        receipts := receipts[id := existing.(status := Processing, token := Some(token),
            leaseExpiresAt := Some(now + lease),
                                             expiresAt := now + retention, completedAt := None)];
      }
      Record(Claimed(id, actor, token, now, lease, retention));
      r := Granted;
    }

    predicate Matches(id: string, actor: string, token: nat)
      reads `receipts
    {
      id in receipts && receipts[id].actor == actor && receipts[id].status == Processing &&
          receipts[id].token == Some(token)
    }

    /** Only under its token is a receipt completed; whether the lease is over is not asked. */
    method Complete(id: string, actor: string, token: nat, now: nat) returns (ok: bool)
      requires Valid()
      modifies this
      ensures Valid() && ok == old(Matches(id, actor, token))
      ensures if ok then log == old(log) + [Completed(id, token)] else unchanged(this)
    {
      hide Legal, PhaseOf;
      ok := Matches(id, actor, token);
      if ok {
        receipts := receipts[id := receipts[id].(status := Status.Complete, completedAt := Some(now), token := None,
            leaseExpiresAt := None)];
        Record(Completed(id, token));
      }
    }

    method Release(id: string, actor: string, token: nat)
      requires Valid()
      modifies this
      ensures Valid() && !Matches(id, actor, token)
      ensures if old(Matches(id, actor, token)) then log == old(log) + [Released(id, token)] else unchanged(this)
    {
      hide Legal, PhaseOf;
      if Matches(id, actor, token) {
        receipts := receipts - {id};
        Record(Released(id, token));
      }
    }

    /** The time-to-live index, at some time of its own. */
    method Purge(id: string, now: nat)
      requires Valid()
      modifies this
      ensures Valid()
      ensures if id in old(receipts) && old(receipts)[id].expiresAt <= now then log == old(log) + [Purged(id, now)]
              else unchanged(this)
    {
      hide Legal, PhaseOf;
      if id in receipts && receipts[id].expiresAt <= now {
        receipts := receipts - {id};
        Record(Purged(id, now));
      }
    }

    /** The protocol of one inbox task. Between any two of its operations other workers act; its
        requests and the answers to them may be lost. */
    method ProcessInbox(activityId: string, actorUri: string, timeout: nat, ttl: nat, token: nat)
      returns (r: Result, ghost performed: bool)
      requires Valid() && !Issued(log, token) && ttl > timeout + MINUTE
      modifies this
      ensures Valid() && old(log) <= log
      ensures performed ==> OwnClaim(log, |old(log)|, TrimSpace(activityId), token)
      ensures r == Skipped ==> !performed && !Issued(log, token)
      ensures r == Processed ==> performed && OwnCompletion(log, |old(log)|, TrimSpace(activityId), token)
    {
      hide Legal, PhaseOf, TrimSpace;
      performed := false;
      OthersRun(token);
      var acquired: bool := *;
      if !acquired {
        return Skipped, false;
      }
      var now: nat := *;
      ghost var n := |log|;
      var claim := Claim(activityId, actorUri, now, timeout + MINUTE, ttl, token);
      var lost: bool := *;
      if lost || claim == OwnedByOther || claim == Invalid {
        return Retry, false;
      }
      if claim == Busy {
        return Skipped, false;
      }
      ghost var claimed := log;
      r := PerformClaimed(TrimSpace(activityId), TrimSpace(actorUri), token, now);
      assert log[n] == claimed[n];
      performed := true;
    }

    /** The activity is performed and its receipt completed, or else given back. */
    method PerformClaimed(id: string, actor: string, token: nat, now: nat) returns (r: Result)
      requires Valid()
      modifies this
      ensures Valid() && old(log) <= log && r != Skipped
      ensures r == Processed ==> OwnCompletion(log, |old(log)|, id, token)
    {
      hide Legal, PhaseOf;
      OthersRun(token);
      var succeeded: bool, lost: bool := *, *;
      if succeeded {
        ghost var n := |log|;
        var completed := Complete(id, actor, token, now);
        if completed && !lost {
          assert log[n] == Completed(id, token);
          return Processed;
        }
        OthersRun(token);
      }
      lost := *;
      if !lost {
        Release(id, actor, token);
      }
      r := Retry;
    }

    /** Other workers and the purge: any number of operations, none of them under `token`. */
    method OthersRun(token: nat)
      requires Valid()
      modifies this
      ensures Valid() && old(log) <= log && Quiet(log, |old(log)|, token)
    {
      hide Legal, PhaseOf, TrimSpace, Issued;
      var left: nat := *;
      while left > 0
        invariant Valid() && old(log) <= log && Quiet(log, |old(log)|, token)
      {
        left := left - 1;
        OtherStep(token);
      }
    }

    method OtherStep(token: nat)
      requires Valid()
      modifies this
      ensures Valid() && old(log) <= log && Quiet(log, |old(log)|, token)
    {
      hide Legal, PhaseOf, TrimSpace, Issued;
      var choice: nat, id: string, actor: string, other: nat, now: nat, lease: nat, retention: nat := *, *, *, *, *,
          *, *;
      if choice % 4 == 0 {
        Purge(id, now);
      } else if other != token {
        match choice % 4 {
          case 1 =>
            if !Issued(log, other) {
              var r := Claim(id, actor, now, lease, retention, other);
            }
          case 2 => var r := Complete(id, actor, other, now);
          case _ => Release(id, actor, other);
        }
      }
    }
  }

  const MINUTE := 60

  datatype Result = Processed | Skipped | Retry

  predicate Mentions(e: Event, token: nat) { !e.Purged? && e.token == token }

  /** No operation under `token` from position `from` on. */
  ghost predicate Quiet(log: seq<Event>, from: nat, token: nat) {
    forall k :: from <= k < |log| ==> !Mentions(log[k], token)
  }

  ghost predicate OwnCompletion(log: seq<Event>, from: nat, id: string, token: nat) {
    exists k :: from <= k < |log| && log[k] == Completed(id, token)
  }

  ghost predicate OwnClaim(log: seq<Event>, from: nat, id: string, token: nat) {
    exists k :: from <= k < |log| && log[k].Claimed? && log[k].id == id && log[k].token == token
  }
}
