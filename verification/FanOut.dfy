/** Delivering one activity to many servers: page through relationships, address each server's shared
    inbox where there is one, and enqueue every inbox once. */
module FanOut {
  import opened Text
  import opened Paging

  const PAGE_SIZE := 100

  /** The remote end of a relationship as stored, or a resolved actor; `host` is None for local ones. */
  datatype Contact = Contact(actor: nat, host: Option<string>, sharedInbox: string, inbox: string)

  datatype Resolved = Failure | Unknown | Known(contact: Contact)

  datatype Task = Task(inbox: string, shared: bool)

  datatype Visibility = Public | Home | Followers | Specified

  /** Which hosts and actors may be delivered to. */
  datatype Policy = Policy(hostBlocked: string -> bool, blocked: nat -> bool, active: nat -> bool)
  {
    predicate Permits(c: Contact) { c.host.Some? && !hostBlocked(c.host.value) && !blocked(c.actor) }

    predicate Admits(c: Contact) { Permits(c) && active(c.actor) }

    predicate AdmitsBlocked(c: Contact) { c.host.Some? && !hostBlocked(c.host.value) && active(c.actor) }
  }

  predicate IsShared(c: Contact) { TrimSpace(c.sharedInbox) != "" }

  function Address(c: Contact): string {
    if IsShared(c) then TrimSpace(c.sharedInbox) else TrimSpace(c.inbox)
  }

  function Addresses(rows: set<Row<Contact>>, admits: Contact -> bool): set<string> {
    set r | r in rows && admits(r.value) && Address(r.value) != "" :: Address(r.value)
  }

  function Actors(rows: set<Row<Contact>>, admits: Contact -> bool): set<nat> {
    set r | r in rows && admits(r.value) :: r.value.actor
  }

  /** The own inboxes of the named actors that are not among the followers reached already. */
  function DirectInboxes(uris: seq<string>, resolve: string -> Resolved, permits: Contact -> bool,
                         reached: set<nat>): set<string> {
    set uri | uri in uris && IsDirect(resolve(uri), permits, reached) :: TrimSpace(resolve(uri).contact.inbox)
  }

  predicate IsDirect(r: Resolved, permits: Contact -> bool, reached: set<nat>) {
    r.Known? && permits(r.contact) && r.contact.actor !in reached && TrimSpace(r.contact.inbox) != ""
  }

  /** The actors a note names: those it is visible to if it is for specified actors, else those it
      mentions; and the authors of the notes it answers, quotes or shares. */
  function Named(visibility: Visibility, mentions: seq<string>, visibleTo: seq<string>,
                 additional: seq<string>): seq<string> {
    (if visibility == Specified && visibleTo != [] then visibleTo else mentions) + additional
  }

  /** The set computed in one pass that the paged loops are to reach. */
  function Destinations(policy: Policy, visibility: Visibility, rows: set<Row<Contact>>, direct: seq<string>,
                        resolve: string -> Resolved): set<string> {
    var followers := if visibility == Specified then {} else rows;
    Addresses(followers, policy.Admits) +
    DirectInboxes(direct, resolve, policy.Permits, Actors(followers, policy.Admits))
  }

  /** What a lifecycle activity is to reach: both ends of the relationships of its actor, whether or not a
      block joins the two. */
  function LifecycleInboxes(policy: Policy, followers: set<Row<Contact>>, following: set<Row<Contact>>): set<string> {
    Addresses(followers, policy.AdmitsBlocked) + Addresses(following, policy.AdmitsBlocked)
  }

  function Inboxes(tasks: seq<Task>): set<string> {
    set t | t in tasks :: t.inbox
  }

  predicate EachOnce(tasks: seq<Task>) {
    forall i, j :: 0 <= i < j < |tasks| ==> tasks[i].inbox != tasks[j].inbox
  }

  /** A task is marked shared only for an inbox somebody names as the shared one. */
  predicate SharedByFollower(tasks: seq<Task>, rows: set<Row<Contact>>, admits: Contact -> bool) {
    forall t | t in tasks && t.shared ::
          exists r <- rows :: admits(r.value) && IsShared(r.value) && Address(r.value) == t.inbox
  }

  // ---------------------------------------------------------------- what the destination set covers

  /** Every active remote follower with an inbox is covered, unless its host or the pair is blocked. */
  lemma FollowerIsCovered(policy: Policy, visibility: Visibility, rows: set<Row<Contact>>, direct: seq<string>,
                          resolve: string -> Resolved, r: Row<Contact>)
    requires r in rows && visibility != Specified && policy.Admits(r.value) && Address(r.value) != ""
    ensures Address(r.value) in Destinations(policy, visibility, rows, direct, resolve)
  {
    assert Address(r.value) in Addresses(rows, policy.Admits);
  }

  /** A permitted direct recipient with an inbox of its own is sent the note there exactly if it does not
      count as reached as a follower, or somebody else is sent the note to that inbox. */
  lemma OwnInboxIsCovered(policy: Policy, visibility: Visibility, rows: set<Row<Contact>>, direct: seq<string>,
                          resolve: string -> Resolved, uri: string)
    requires uri in direct && resolve(uri).Known? && policy.Permits(resolve(uri).contact)
    requires TrimSpace(resolve(uri).contact.inbox) != ""
    ensures var followers := if visibility == Specified then {} else rows;
            var reached := Actors(followers, policy.Admits);
            var own := TrimSpace(resolve(uri).contact.inbox);
            own in Destinations(policy, visibility, rows, direct, resolve) <==>
              || resolve(uri).contact.actor !in reached
              || (exists r <- followers :: policy.Admits(r.value) && Address(r.value) == own)
              || (exists other <- direct :: IsDirect(resolve(other), policy.Permits, reached) &&
                                            TrimSpace(resolve(other).contact.inbox) == own)
  {
    hide TrimSpace, Address;
    var followers := if visibility == Specified then {} else rows;
    var own := TrimSpace(resolve(uri).contact.inbox);
    if resolve(uri).contact.actor !in Actors(followers, policy.Admits) {
      assert own in DirectInboxes(direct, resolve, policy.Permits, Actors(followers, policy.Admits));
    }
  }

  /** A recipient that counts as reached is covered through a follow unless both inboxes stored with it are
      empty. */
  lemma ReachedIsCovered(policy: Policy, visibility: Visibility, rows: set<Row<Contact>>, direct: seq<string>,
                         resolve: string -> Resolved, actor: nat)
    requires visibility != Specified && actor in Actors(rows, policy.Admits)
    ensures || (exists r <- rows :: policy.Admits(r.value) && r.value.actor == actor && Address(r.value) != "" &&
                                    Address(r.value) in Destinations(policy, visibility, rows, direct, resolve))
            || (forall r <- rows :: policy.Admits(r.value) && r.value.actor == actor ==> Address(r.value) == "")
  {
    hide TrimSpace, Address;
    if r :| r in rows && policy.Admits(r.value) && r.value.actor == actor && Address(r.value) != "" {
      FollowerIsCovered(policy, visibility, rows, direct, resolve, r);
    }
  }

  const LENIENT := Policy(host => false, actor => false, actor => true)

  /** So a mention does not reach a follower whose two stored inboxes are empty, though it has an inbox. */
  lemma MentionIsLost(uri: string, host: string, inbox: string)
    requires TrimSpace(inbox) != ""
    ensures var follow := Row(1, Contact(7, Some(host), "", ""));
            Destinations(LENIENT, Public, {follow}, [uri], u => Known(Contact(7, Some(host), "", inbox))) == {}
  {
    var follow := Row(1, Contact(7, Some(host), "", ""));
    assert follow.value.actor in Actors({follow}, LENIENT.Admits);
    assert Address(follow.value) == "";
  }

  /** Nobody else is delivered to. */
  lemma NothingElse(policy: Policy, visibility: Visibility, rows: set<Row<Contact>>, direct: seq<string>,
                    resolve: string -> Resolved, inbox: string)
    requires inbox in Destinations(policy, visibility, rows, direct, resolve)
    ensures inbox != ""
    ensures || (visibility != Specified && exists r <- rows :: policy.Admits(r.value) && Address(r.value) == inbox)
            || (exists uri <- direct :: resolve(uri).Known? && policy.Permits(resolve(uri).contact) &&
                                        TrimSpace(resolve(uri).contact.inbox) == inbox)
  {
  }

  // ---------------------------------------------------------------- the loops

  class Deliveries {
    var destinations: set<string>
    var tasks: seq<Task>

    ghost predicate Valid()
      reads this
    {
      destinations == Inboxes(tasks) && EachOnce(tasks)
    }

    constructor ()
      ensures Valid() && tasks == []
    {
      destinations, tasks := {}, [];
    }

    method Enqueue(inbox: string, shared: bool)
      requires Valid()
      modifies this
      ensures Valid()
      ensures tasks == old(tasks) + if inbox == "" || inbox in old(destinations) then [] else [Task(inbox, shared)]
      ensures destinations == old(destinations) + if inbox == "" then {} else {inbox}
    {
      if inbox != "" && inbox !in destinations {
        OneMoreTask(tasks, Task(inbox, shared));
        destinations := destinations + {inbox};
        tasks := tasks + [Task(inbox, shared)];
      }
    }

    /** One page of relationships. */
    method EnqueuePage(page: seq<Row<Contact>>, admits: Contact -> bool) returns (recipients: set<nat>)
      requires Valid()
      modifies this
      ensures Valid() && old(tasks) <= tasks
      ensures destinations == old(destinations) + Addresses(Elements(page), admits)
      ensures recipients == Actors(Elements(page), admits)
      ensures SharedByFollower(tasks[|old(tasks)|..], Elements(page), admits)
    {
      hide TrimSpace, Valid;
      recipients := {};
      for k := 0 to |page|
        invariant Valid() && old(tasks) <= tasks
        invariant destinations == old(destinations) + Addresses(Elements(page[..k]), admits)
        invariant recipients == Actors(Elements(page[..k]), admits)
        invariant SharedByFollower(tasks[|old(tasks)|..], Elements(page), admits)
      {
        var contact := page[k].value;
        assert page[k] in Elements(page);
        OneMoreRow(page, k, admits);
        if admits(contact) {
          ghost var before := tasks;
          Enqueue(Address(contact), IsShared(contact));
          OneMoreShared(before, tasks, |old(tasks)|, page[k], Elements(page), admits);
          recipients := recipients + {contact.actor};
        }
      }
      assert page[..|page|] == page;
    }

    /** Every page; the loop also ends when the last page is exactly full. */
    method EnqueuePages(rows: set<Row<Contact>>, admits: Contact -> bool) returns (recipients: set<nat>)
      requires Valid() && Keyed(rows)
      modifies this
      ensures Valid() && old(tasks) <= tasks
      ensures destinations == old(destinations) + Addresses(rows, admits)
      ensures recipients == Actors(rows, admits)
      ensures SharedByFollower(tasks[|old(tasks)|..], rows, admits)
    {
      hide TrimSpace, Valid, Keyed, IsPage, Addresses, Actors, SharedByFollower, Seen;
      recipients := {};
      var afterId := 0;
      NothingSeen(rows);
      NoRows(admits, rows, tasks[|tasks|..]);
      while true
        invariant Valid() && old(tasks) <= tasks
        invariant destinations == old(destinations) + Addresses(Seen(rows, afterId), admits)
        invariant recipients == Actors(Seen(rows, afterId), admits)
        invariant SharedByFollower(tasks[|old(tasks)|..], rows, admits)
        decreases rows - Seen(rows, afterId)
      {
        var page := Fetch(rows, afterId, PAGE_SIZE);
        PageWithin(rows, afterId, PAGE_SIZE, page);
        ghost var before := tasks;
        var more := EnqueuePage(page, admits);
        MoreRows(Seen(rows, afterId), Elements(page), admits);
        MoreShared(before, tasks, |old(tasks)|, Elements(page), rows, admits);
        recipients := recipients + more;
        if |page| < PAGE_SIZE {
          ShortPage(rows, afterId, PAGE_SIZE, page);
          return;
        }
        FullPage(rows, afterId, PAGE_SIZE, page);
        afterId := page[PAGE_SIZE - 1].id;
      }
    }

    /** A note goes to the followers, unless it is for specified actors only, and to the actors it names;
        if one of those cannot be resolved the whole delivery fails. */
    method DeliverNote(policy: Policy, visibility: Visibility, mentions: seq<string>, visibleTo: seq<string>,
                       additional: seq<string>, rows: set<Row<Contact>>, resolve: string -> Resolved) returns (ok: bool)
      requires Valid() && Keyed(rows) && tasks == []
      modifies this
      ensures Valid()
      ensures ok <==> forall uri <- Named(visibility, mentions, visibleTo, additional) :: resolve(uri) != Failure
      ensures var all := Destinations(policy, visibility, rows, Named(visibility, mentions, visibleTo, additional),
              resolve);
              if ok then Inboxes(tasks) == all else Inboxes(tasks) <= all
      ensures EachOnce(tasks)
      ensures SharedByFollower(tasks, if visibility == Specified then {} else rows, policy.Admits)
    {
      hide TrimSpace, Keyed, Addresses, Actors, SharedByFollower, DirectInboxes;
      var direct := Named(visibility, mentions, visibleTo, additional);
      ghost var followers: set<Row<Contact>> := if visibility == Specified then {} else rows;
      var recipients: set<nat> := {};
      NoRows(policy.Admits, {}, []);
      assert tasks[|tasks|..] == [];
      if visibility != Specified {
        recipients := EnqueuePages(rows, policy.Admits);
        assert tasks[0..] == tasks;
      }
      ghost var paged := destinations;
      NoDirect(resolve, policy.Permits, recipients);
      for k := 0 to |direct|
        invariant Valid() && SharedByFollower(tasks, followers, policy.Admits)
        invariant destinations == paged + DirectInboxes(direct[..k], resolve, policy.Permits, recipients)
        invariant forall j :: 0 <= j < k ==> resolve(direct[j]) != Failure
      {
        var recipient := resolve(direct[k]);
        FewerDirect(direct, k, resolve, policy.Permits, recipients);
        OneMoreDirect(direct, k, resolve, policy.Permits, recipients);
        if recipient == Failure {
          return false;
        }
        if recipient.Known? && policy.Permits(recipient.contact) && recipient.contact.actor !in recipients {
          ghost var before := tasks;
          Enqueue(TrimSpace(recipient.contact.inbox), false);
          OneMoreOwn(before, tasks, followers, policy.Admits);
        }
      }
      assert direct[..|direct|] == direct;
      ok := true;
    }

    /** A lifecycle activity of an actor goes to both ends of its relationships, blocked pairs included. */
    method DeliverLifecycle(policy: Policy, followers: set<Row<Contact>>, following: set<Row<Contact>>)
      requires Valid() && Keyed(followers) && Keyed(following) && tasks == []
      modifies this
      ensures Valid() && EachOnce(tasks)
      ensures Inboxes(tasks) == LifecycleInboxes(policy, followers, following)
    {
      hide TrimSpace, Keyed, Addresses;
      var first := EnqueuePages(followers, policy.AdmitsBlocked);
      var second := EnqueuePages(following, policy.AdmitsBlocked);
    }

    /** A note for specified actors: each of them has an inbox of its own or the delivery fails. */
    method DeliverSpecified(policy: Policy, recipients: seq<Contact>) returns (ok: bool)
      requires Valid() && tasks == []
      modifies this
      ensures Valid() && EachOnce(tasks) && forall t <- tasks :: !t.shared
      ensures ok <==> forall k :: 0 <= k < |recipients| ==> policy.Permits(recipients[k]) ==>
              TrimSpace(recipients[k].inbox) != ""
      ensures ok ==> Inboxes(tasks) == set c | c in recipients && policy.Permits(c) :: TrimSpace(c.inbox)
    {
      hide TrimSpace;
      for k := 0 to |recipients|
        invariant Valid() && forall t <- tasks :: !t.shared
        invariant destinations == set c | c in recipients[..k] && policy.Permits(c) :: TrimSpace(c.inbox)
        invariant forall j :: 0 <= j < k ==> policy.Permits(recipients[j]) ==> TrimSpace(recipients[j].inbox) != ""
      {
        var recipient := recipients[k];
        assert recipients[..k + 1] == recipients[..k] + [recipient];
        if policy.Permits(recipient) {
          var inbox := TrimSpace(recipient.inbox);
          if inbox == "" {
            return false;
          }
          Enqueue(inbox, false);
        }
      }
      assert recipients[..|recipients|] == recipients;
      ok := true;
    }
  }

  // ---------------------------------------------------------------- one row, one page, one recipient more

  lemma OneMoreTask(tasks: seq<Task>, t: Task)
    requires EachOnce(tasks) && t.inbox !in Inboxes(tasks)
    ensures EachOnce(tasks + [t]) && Inboxes(tasks + [t]) == Inboxes(tasks) + {t.inbox}
  {
    forall i | 0 <= i < |tasks| ensures tasks[i].inbox != t.inbox {
      assert tasks[i] in tasks;
    }
  }

  lemma OneMoreRow(page: seq<Row<Contact>>, k: nat, admits: Contact -> bool)
    requires k < |page|
    ensures var c := page[k].value; var before, after := Elements(page[..k]), Elements(page[..k + 1]);
            && Addresses(after, admits) == Addresses(before, admits)
                + (if admits(c) && Address(c) != "" then {Address(c)} else {})
            && Actors(after, admits) == Actors(before, admits) + (if admits(c) then {c.actor} else {})
  {
    hide TrimSpace, Address;
    var before, after := Elements(page[..k]), Elements(page[..k + 1]);
    assert after == before + {page[k]};
  }

  lemma MoreRows(a: set<Row<Contact>>, b: set<Row<Contact>>, admits: Contact -> bool)
    ensures Addresses(a + b, admits) == Addresses(a, admits) + Addresses(b, admits)
    ensures Actors(a + b, admits) == Actors(a, admits) + Actors(b, admits)
  {
    hide TrimSpace, Address;
  }

  lemma NoRows(admits: Contact -> bool, rows: set<Row<Contact>>, none: seq<Task>)
    requires none == []
    ensures Addresses({}, admits) == {} && Actors({}, admits) == {} && SharedByFollower(none, rows, admits)
  {
  }

  lemma OneMoreShared(before: seq<Task>, after: seq<Task>, n: nat, r: Row<Contact>, rows: set<Row<Contact>>,
                      admits: Contact -> bool)
    requires n <= |before| && r in rows && admits(r.value) && SharedByFollower(before[n..], rows, admits)
    requires after == before || after == before + [Task(Address(r.value), IsShared(r.value))]
    ensures SharedByFollower(after[n..], rows, admits)
  {
    hide TrimSpace, Address, IsShared;
    if after != before {
      assert after[n..] == before[n..] + [Task(Address(r.value), IsShared(r.value))];
    }
  }

  lemma MoreShared(before: seq<Task>, after: seq<Task>, n: nat, part: set<Row<Contact>>, rows: set<Row<Contact>>,
                   admits: Contact -> bool)
    requires n <= |before| && before <= after && part <= rows
    requires SharedByFollower(before[n..], rows, admits) && SharedByFollower(after[|before|..], part, admits)
    ensures SharedByFollower(after[n..], rows, admits)
  {
    hide TrimSpace, Address, IsShared;
    assert after[n..] == before[n..] + after[|before|..];
  }

  lemma OneMoreOwn(before: seq<Task>, after: seq<Task>, rows: set<Row<Contact>>, admits: Contact -> bool)
    requires SharedByFollower(before, rows, admits)
    requires after == before || exists inbox :: after == before + [Task(inbox, false)]
    ensures SharedByFollower(after, rows, admits)
  {
    hide TrimSpace, Address, IsShared;
  }

  lemma NoDirect(resolve: string -> Resolved, permits: Contact -> bool, reached: set<nat>)
    ensures DirectInboxes([], resolve, permits, reached) == {}
  {
  }

  lemma OneMoreDirect(uris: seq<string>, k: nat, resolve: string -> Resolved, permits: Contact -> bool,
                      reached: set<nat>)
    requires k < |uris|
    ensures var r := resolve(uris[k]);
            DirectInboxes(uris[..k + 1], resolve, permits, reached) ==
            DirectInboxes(uris[..k], resolve, permits, reached) +
            if IsDirect(r, permits, reached) then {TrimSpace(r.contact.inbox)} else {}
  {
    hide TrimSpace;
    assert uris[..k + 1] == uris[..k] + [uris[k]];
  }

  lemma FewerDirect(uris: seq<string>, k: nat, resolve: string -> Resolved, permits: Contact -> bool, reached: set<nat>)
    requires k <= |uris|
    ensures DirectInboxes(uris[..k], resolve, permits, reached) <= DirectInboxes(uris, resolve, permits, reached)
  {
  }
}
