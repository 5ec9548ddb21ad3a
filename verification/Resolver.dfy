/** Resolving remote objects: an actor leads to its featured notes, a note to its author, to the note
    it answers and to the notes it quotes, over a remote graph that may be cyclic and that answers
    every request as it likes. Other workers may run at every lock and every fetch. */
module Resolver {
  import opened Text

  const NOTE_RESOLUTION_LIMIT := 256
  const FEATURED_NOTE_LIMIT := 5

  // ---------------------------------------------------------------- stored and fetched values

  datatype Body = Body(text: string, warned: bool, attachments: nat)

  /** A stored note. Each link is kept as the URI it was given by and the id it was resolved to. */
  datatype Note = Note(id: nat, uri: string, author: string, body: Body,
                       inReplyTo: string, reply: Option<nat>,
                       quoteUri: string, quote: Option<nat>,
                       renoteUri: string, renote: Option<nat>)

  datatype Actor = Actor(local: bool, suspended: bool, featured: seq<nat>)

  /** A post object as the parser reads it. */
  datatype Parsed = Parsed(uri: string, author: string, body: Body, inReplyTo: string, quotes: seq<string>)

  datatype Document =
    | Post(post: Parsed, wellFormed: bool)
    | Profile(uri: string, featured: string, wellFormed: bool)
    | Collection(items: seq<Item>)
    | Other

  /** A member of a collection: a link, an object inlined by the collection's server, or neither. */
  datatype Item = Link(uri: string) | Inline(uri: string, inlined: Document) | Malformed

  datatype Fetched = Received(document: Document) | Refused(permanent: bool)

  /** `Nothing` is the source's nil result without an error. A permanent failure is one that
      trying again cannot mend. */
  datatype Outcome<+T> = Found(value: T) | Nothing | Failed(permanent: bool)

  /** The configured federation policy and the URL functions it rests on. */
  datatype Policy = Policy(resolvable: string -> bool, host: string -> string, blocked: string -> bool,
                           ours: string -> bool, authority: string -> Option<string>,
                           sameOrigin: (string, string) -> bool,
                           fetchable: string -> bool, target: string -> string)
  {
    /** The resolver's own test on the URI of an actor or a note. */
    predicate Allows(uri: string) { resolvable(uri) && !blocked(host(uri)) }

    /** The client's test on every URL before it contacts `target(uri)`. */
    predicate Reachable(uri: string) { fetchable(uri) && !blocked(target(uri)) }

    /** The parser's checks on a post served at `entry`: it and its author live on that host. */
    predicate Accepts(document: Document, entry: string) {
      document.Post? && document.wellFormed &&
      host(document.post.uri) == host(entry) && host(document.post.author) == host(entry)
    }
  }

  /** Servers name a document by the URI they serve it at, and there are finitely many actors. */
  predicate Honest(world: set<string>, uri: string, document: Document) {
    && (document.Post? ==> document.post.uri == uri && document.post.author in world)
    && (document.Profile? ==> document.uri == uri)
    && (document.Collection? ==> forall k :: 0 <= k < |document.items| && document.items[k].Inline? ==>
          var item := document.items[k];
          item.inlined.Post? ==> item.inlined.post.uri == item.uri && item.inlined.post.author in world)
  }

  // ---------------------------------------------------------------- the note graph

  predicate Stored(notes: seq<Note>, id: nat) {
    exists j :: 0 <= j < |notes| && notes[j].id == id
  }

  /** One of the first `n` notes has this id and this URI. */
  predicate Names(notes: seq<Note>, n: nat, id: nat, uri: string)
    requires n <= |notes|
  {
    exists j :: 0 <= j < n && notes[j].id == id && notes[j].uri == uri
  }

  /** One of the first `n` notes has this URI, and its deletion is the only reason `reply` may be missing. */
  predicate Answers(notes: seq<Note>, n: nat, deleted: set<nat>, uri: string, reply: Option<nat>)
    requires n <= |notes|
  {
    exists j :: 0 <= j < n && notes[j].uri == uri &&
                (reply == Some(notes[j].id) || (reply == None && notes[j].id in deleted))
  }

  predicate Renotes(notes: seq<Note>, n: nat, id: nat, uri: string)
    requires n <= |notes|
  {
    exists j :: 0 <= j < n && notes[j].id == id && notes[j].uri == uri && notes[j].renote == None
  }

  predicate IsPure(note: Note) {
    note.renote.Some? && note.body == Body("", false, 0) && note.inReplyTo == "" && note.quoteUri == ""
  }

  /** Everything `note` links to is among the first `n` notes, under the URI it is linked by; a renote
      carries nothing of its own and what it shares is not a renote. */
  predicate Linked(notes: seq<Note>, n: nat, deleted: set<nat>, note: Note)
    requires n <= |notes|
  {
    && (if note.inReplyTo == "" then note.reply == None else Answers(notes, n, deleted, note.inReplyTo, note.reply))
    && (note.quote.Some? ==> Names(notes, n, note.quote.value, note.quoteUri))
    && (note.renote.Some? ==>
          Renotes(notes, n, note.renote.value, note.renoteUri) && IsPure(note) && note.quote == None)
  }

  /** Ids and URIs are unique, and a note was stored after everything it links to. */
  predicate WellLinked(notes: seq<Note>, deleted: set<nat>) {
    && (forall i, j :: 0 <= i < j < |notes| ==> notes[i].id != notes[j].id && notes[i].uri != notes[j].uri)
    && (forall i :: 0 <= i < |notes| ==> Linked(notes, i, deleted, notes[i]))
  }

  /** A remote actor pins at most five notes, each once, all of them stored. */
  predicate Pinned(notes: seq<Note>, featured: seq<nat>) {
    |featured| <= FEATURED_NOTE_LIMIT && Distinct(featured) &&
    forall k :: 0 <= k < |featured| ==> Stored(notes, featured[k])
  }

  predicate AllPinned(notes: seq<Note>, actors: map<string, Actor>) {
    forall uri <- actors :: !actors[uri].local ==> Pinned(notes, actors[uri].featured)
  }

  /** The author of every note is stored too. */
  predicate AuthorsKnown(notes: seq<Note>, actors: set<string>) {
    forall j :: 0 <= j < |notes| ==> notes[j].author in actors
  }

  lemma LinkedLater(notes: seq<Note>, more: seq<Note>, n: nat, m: nat, deleted: set<nat>, gone: set<nat>, note: Note)
    requires notes <= more && n <= |notes| && n <= m <= |more| && deleted <= gone
    requires Linked(notes, n, deleted, note)
    ensures Linked(more, m, gone, note)
  {
  }

  lemma AppendLinked(notes: seq<Note>, deleted: set<nat>, note: Note)
    requires WellLinked(notes, deleted) && Linked(notes, |notes|, deleted, note)
    requires forall j :: 0 <= j < |notes| ==> notes[j].id != note.id && notes[j].uri != note.uri
    ensures WellLinked(notes + [note], deleted)
  {
    var more := notes + [note];
    forall i | 0 <= i < |more| ensures Linked(more, i, deleted, more[i]) {
      LinkedLater(notes, more, i, i, deleted, deleted, more[i]);
    }
  }

  lemma DeletionLinked(notes: seq<Note>, deleted: set<nat>, gone: set<nat>)
    requires WellLinked(notes, deleted) && deleted <= gone
    ensures WellLinked(notes, gone)
  {
    forall i | 0 <= i < |notes| ensures Linked(notes, i, gone, notes[i]) {
      LinkedLater(notes, notes, i, i, deleted, gone, notes[i]);
    }
  }

  lemma StillPinned(notes: seq<Note>, more: seq<Note>, actors: map<string, Actor>)
    requires notes <= more && AllPinned(notes, actors)
    ensures AllPinned(more, actors)
  {
    forall uri <- actors | !actors[uri].local ensures Pinned(more, actors[uri].featured) {
      assert Pinned(notes, actors[uri].featured);
    }
  }

  // ---------------------------------------------------------------- what the invariant means

  ghost predicate LinksTo(notes: seq<Note>, i: nat, j: nat)
    requires i < |notes| && j < |notes|
  {
    var id := Some(notes[j].id);
    notes[i].reply == id || notes[i].quote == id || notes[i].renote == id
  }

  /** A path through the stored graph, by positions in the order of storing. */
  ghost predicate Path(notes: seq<Note>, path: seq<nat>) {
    && (forall k :: 0 <= k < |path| ==> path[k] < |notes|)
    && (forall k :: 0 <= k < |path| - 1 ==> LinksTo(notes, path[k], path[k + 1]))
  }

  lemma IdsAreUnique(notes: seq<Note>, deleted: set<nat>, j: nat, k: nat)
    requires WellLinked(notes, deleted) && j < |notes| && k < |notes| && notes[j].id == notes[k].id
    ensures j == k
  {
  }

  /** Every id a stored note links to is the id of exactly one stored note, which was stored before it. */
  lemma GraphIsClosed(notes: seq<Note>, deleted: set<nat>, i: nat, id: nat)
    requires WellLinked(notes, deleted) && i < |notes|
    requires notes[i].reply == Some(id) || notes[i].quote == Some(id) || notes[i].renote == Some(id)
    ensures exists j :: 0 <= j < i && notes[j].id == id && forall k :: 0 <= k < |notes| && notes[k].id == id ==> k == j
  {
    assert Linked(notes, i, deleted, notes[i]);
    var j :| 0 <= j < i && notes[j].id == id;
    forall k | 0 <= k < |notes| && notes[k].id == id ensures k == j {
      IdsAreUnique(notes, deleted, j, k);
    }
  }

  lemma LinksPointBack(notes: seq<Note>, deleted: set<nat>, i: nat, j: nat)
    requires WellLinked(notes, deleted) && i < |notes| && j < |notes| && LinksTo(notes, i, j)
    ensures j < i
  {
    GraphIsClosed(notes, deleted, i, notes[j].id);
  }

  /** A path only goes back in the order of storing. */
  lemma {:induction false} PathDescends(notes: seq<Note>, deleted: set<nat>, path: seq<nat>)
    requires WellLinked(notes, deleted) && Path(notes, path) && |path| > 1
    ensures path[|path| - 1] < path[0]
  {
    LinksPointBack(notes, deleted, path[0], path[1]);
    if |path| > 2 {
      var rest := path[1..];
      forall k | 0 <= k < |rest| - 1 ensures LinksTo(notes, rest[k], rest[k + 1]) {
        assert LinksTo(notes, path[k + 1], path[k + 2]);
      }
      PathDescends(notes, deleted, rest);
    }
  }

  /** No note reaches itself along replies, quotes and renotes: no path visits a note twice. */
  lemma GraphIsAcyclic(notes: seq<Note>, deleted: set<nat>, path: seq<nat>)
    requires WellLinked(notes, deleted) && Path(notes, path)
    ensures Distinct(path)
  {
    forall a, b | 0 <= a < b < |path| ensures path[a] != path[b] {
      var part := path[a..b + 1];
      forall k | 0 <= k < |part| - 1 ensures LinksTo(notes, part[k], part[k + 1]) {
        assert LinksTo(notes, path[a + k], path[a + k + 1]);
      }
      PathDescends(notes, deleted, part);
    }
  }

  /** Renotes do not chain: what a renote shares is itself no renote. */
  lemma RenoteIsOneHop(notes: seq<Note>, deleted: set<nat>, i: nat, j: nat)
    requires WellLinked(notes, deleted) && i < |notes| && j < |notes|
    requires notes[i].renote == Some(notes[j].id)
    ensures notes[j].renote == None
  {
    assert Linked(notes, i, deleted, notes[i]);
    var k :| 0 <= k < i && notes[k].id == notes[j].id && notes[k].renote == None;
    IdsAreUnique(notes, deleted, j, k);
  }

  // ---------------------------------------------------------------- looking up

  /** The live note stored under `uri`. */
  function Live(notes: seq<Note>, deleted: set<nat>, uri: string): (r: Option<Note>)
    ensures r.Some? ==> r.value in notes && r.value.uri == uri && r.value.id !in deleted
    ensures r == None ==> forall j :: 0 <= j < |notes| && notes[j].uri == uri ==> notes[j].id in deleted
  {
    if notes == [] then None
    else
      var last := notes[|notes| - 1];
      if last.uri == uri && last.id !in deleted then Some(last) else Live(notes[..|notes| - 1], deleted, uri)
  }

  /** Some note was stored under `uri` and has been deleted. */
  predicate Tombstone(notes: seq<Note>, deleted: set<nat>, uri: string) {
    Answers(notes, |notes|, deleted, uri, None)
  }

  // ---------------------------------------------------------------- quote candidates

  /** What trying the candidates in order comes to: the first note found; else the first failure
      that might pass; else nothing. */
  function FirstUsable(outcomes: seq<Outcome<Note>>): Outcome<Note> {
    if outcomes == [] then Nothing
    else if outcomes[0].Found? then outcomes[0]
    else
      var later := FirstUsable(outcomes[1..]);
      if outcomes[0] == Failed(false) && !later.Found? then Failed(false) else later
  }

  lemma {:induction false} FirstUsableAppend(outcomes: seq<Outcome<Note>>, last: Outcome<Note>)
    requires forall k :: 0 <= k < |outcomes| ==> !outcomes[k].Found?
    ensures FirstUsable(outcomes + [last]) ==
            if last.Found? then last
            else if Failed(false) in outcomes || last == Failed(false) then Failed(false)
            else Nothing
  {
    var all := outcomes + [last];
    if outcomes == [] {
      assert all[1..] == [];
    } else {
      assert all[1..] == outcomes[1..] + [last];
      FirstUsableAppend(outcomes[1..], last);
    }
  }

  /** The notes found, each once, in the order of their first appearance. */
  function PinsOf(outcomes: seq<Outcome<Note>>): seq<nat> {
    if outcomes == [] then []
    else
      var before, last := PinsOf(outcomes[..|outcomes| - 1]), outcomes[|outcomes| - 1];
      if last.Found? && last.value.id !in before then before + [last.value.id] else before
  }

  lemma PinsAppend(outcomes: seq<Outcome<Note>>, last: Outcome<Note>)
    ensures PinsOf(outcomes + [last]) ==
            if last.Found? && last.value.id !in PinsOf(outcomes) then PinsOf(outcomes) + [last.value.id]
                else PinsOf(outcomes)
  {
    assert (outcomes + [last])[..|outcomes|] == outcomes;
  }

  // ---------------------------------------------------------------- composing a note

  datatype Links = Links(reply: Option<Note>, quote: Option<Note>)

  /** What resolving a note's links promises: the note it answers is stored, or was and is deleted;
      the quoted note is a stored one of the candidates. */
  predicate Resolved(notes: seq<Note>, deleted: set<nat>, inReplyTo: string, quotes: seq<string>, links: Links) {
    && (match links.reply
        case None => inReplyTo == "" || Tombstone(notes, deleted, inReplyTo)
        case Some(reply) => inReplyTo != "" && reply in notes && reply.uri == inReplyTo)
    && (links.quote.Some? ==> links.quote.value in notes && links.quote.value.uri in quotes)
  }

  function IdOf(note: Option<Note>): Option<nat> {
    if note.Some? then Some(note.value.id) else None
  }

  /** The note stored for a post; its id is given when it is stored. */
  function Compose(post: Parsed, links: Links): Note {
    var quoteUri := if links.quote.Some? then links.quote.value.uri else if post.quotes == [] then ""
        else post.quotes[0];
    Note(0, post.uri, post.author, post.body, post.inReplyTo, IdOf(links.reply), quoteUri, IdOf(links.quote), "", None)
  }

  lemma ComposeLinked(notes: seq<Note>, deleted: set<nat>, post: Parsed, links: Links)
    requires Resolved(notes, deleted, post.inReplyTo, post.quotes, links)
    ensures var note := Compose(post, links);
            Linked(notes, |notes|, deleted, note) && note.uri == post.uri && note.author == post.author
  {
    var note := Compose(post, links);
    if links.reply.Some? {
      var j :| 0 <= j < |notes| && notes[j] == links.reply.value;
      assert Answers(notes, |notes|, deleted, note.inReplyTo, note.reply);
    }
    if links.quote.Some? {
      var j :| 0 <= j < |notes| && notes[j] == links.quote.value;
      assert Names(notes, |notes|, note.quote.value, note.quoteUri);
    }
  }

  lemma LocalLinks(notes: seq<Note>, deleted: set<nat>, post: Parsed, links: Links)
    requires if links.reply.Some? then links.reply.value in notes && links.reply.value.uri == post.inReplyTo != ""
             else post.inReplyTo == ""
    requires post.quotes == if links.quote.Some? then [links.quote.value.uri] else []
    requires links.quote.Some? ==> links.quote.value in notes
    ensures var note := Compose(post, links);
            Linked(notes, |notes|, deleted, note) && note.uri == post.uri && note.author == post.author &&
                note.inReplyTo == post.inReplyTo &&
            note.renote == None && (note.reply == None <==> links.reply == None) &&
            (note.quote == None <==> links.quote == None) &&
            note.quoteUri == (if links.quote.Some? then links.quote.value.uri else "")
  {
    ComposeLinked(notes, deleted, post, links);
  }

  lemma TombstoneLater(notes: seq<Note>, more: seq<Note>, deleted: set<nat>, gone: set<nat>, uri: string)
    requires notes <= more && deleted <= gone && Tombstone(notes, deleted, uri)
    ensures Tombstone(more, gone, uri)
  {
  }

  lemma PinnedLater(notes: seq<Note>, more: seq<Note>, featured: seq<nat>)
    requires notes <= more && Pinned(notes, featured)
    ensures Pinned(more, featured)
  {
    forall k | 0 <= k < |featured| ensures Stored(more, featured[k]) {
      var j :| 0 <= j < |notes| && notes[j].id == featured[k];
      assert more[j].id == featured[k];
    }
  }

  lemma NoPins(notes: seq<Note>)
    ensures Pinned(notes, []) && PinsOf([]) == []
  {
  }

  lemma PinOneMore(notes: seq<Note>, featured: seq<nat>, note: Note)
    requires Pinned(notes, featured) && |featured| < FEATURED_NOTE_LIMIT && note in notes && note.id !in featured
    ensures Pinned(notes, featured + [note.id])
  {
    var j :| 0 <= j < |notes| && notes[j] == note;
    assert Stored(notes, note.id);
  }

  function Share(uri: string, author: string, target: Note): Note {
    Note(0, uri, author, Body("", false, 0), "", None, "", None, target.uri, Some(target.id))
  }

  /** Stored notes that share a note carry nothing else, so the handlers' tests for a pure renote
      all come down to whether there is a target. */
  lemma RenotesArePure(notes: seq<Note>, deleted: set<nat>, note: Note)
    requires WellLinked(notes, deleted) && note in notes
    ensures note.renote.Some? ==> IsPure(note)
  {
    var j :| 0 <= j < |notes| && notes[j] == note;
    assert Linked(notes, j, deleted, notes[j]);
  }

  lemma ShareLinked(notes: seq<Note>, deleted: set<nat>, uri: string, author: string, target: Note)
    requires target in notes && target.renote == None
    ensures var note := Share(uri, author, target);
            Linked(notes, |notes|, deleted, note) && note.uri == uri && note.author == author &&
                note.renote == Some(target.id)
  {
    var j :| 0 <= j < |notes| && notes[j] == target;
    assert Renotes(notes, |notes|, target.id, target.uri);
  }

  // ---------------------------------------------------------------- one resolution

  /** The URIs one resolution has set out to resolve, and (ghost) the requests it sent for them. */
  class Resolution {
    var history: set<string>
    ghost var asked: seq<string>

    ghost predicate Valid()
      reads this
    {
      |history| <= NOTE_RESOLUTION_LIMIT && Distinct(asked) && forall k :: 0 <= k < |asked| ==> asked[k] in history
    }

    /** The history only grows, and what is asked for was not in it before. */
    twostate predicate Grew()
      reads this
    {
      old(history) <= history && |old(history)| <= |history| && old(asked) <= asked &&
      forall k :: |old(asked)| <= k < |asked| ==> asked[k] !in old(history)
    }

    constructor (history: set<string>)
      requires |history| <= NOTE_RESOLUTION_LIMIT
      ensures Valid() && this.history == history && asked == []
    {
      this.history := history;
      asked := [];
    }
  }

  datatype Lock = NoLocker | Held | TimedOut

  // ---------------------------------------------------------------- the log of requests

  datatype Target = AsActor | AsNote | AsCollection

  datatype Attempt = Attempt(target: Target, uri: string)

  /** A request is sent; a note is taken as a collection inlined it; an attempt ends, with its actor or
      note stored or not; fetched actors grow stale. */
  datatype Event = Request(of: Attempt) | Inlined(uri: string) | End(of: Attempt, kept: bool) | Tick

  predicate Begins(e: Event, a: Attempt) {
    a.target != AsCollection && (e == Request(a) || (a.target == AsNote && e == Inlined(a.uri)))
  }

  predicate EndsBetween(log: seq<Event>, i: int, j: int, a: Attempt) {
    exists k :: 0 <= i < k < j <= |log| && log[k].End? && log[k].of == a
  }

  /** Between `i` and `j` the attempt ended, and what it stored, if anything, is of no use by now: the note
      has been deleted, or the actor has grown stale. */
  predicate EndsInVain(log: seq<Event>, i: int, j: int, a: Attempt, notes: seq<Note>, deleted: set<nat>) {
    exists k :: 0 <= i < k < j <= |log| && log[k].End? && log[k].of == a &&
                (log[k].kept ==> if a.target == AsNote then Tombstone(notes, deleted, a.uri) else Tick in log[k..j])
  }

  /** Attempts for one URI follow one another, and none repeats an earlier one that was of use. */
  ghost predicate Orderly(log: seq<Event>, notes: seq<Note>, deleted: set<nat>) {
    forall i, j, a, b ::
      0 <= i < j < |log| && Begins(log[i], a) && Begins(log[j], b) && a.uri == b.uri ==>
        InOrder(log, i, j, a, b, notes, deleted)
  }

  predicate InOrder(log: seq<Event>, i: int, j: int, a: Attempt, b: Attempt, notes: seq<Note>, deleted: set<nat>) {
    EndsBetween(log, i, j, a) && (a == b ==> EndsInVain(log, i, j, a, notes, deleted))
  }

  /** Every attempt is open, or ended and what it kept is stored. */
  ghost predicate Accounted(log: seq<Event>, open: set<Attempt>, notes: seq<Note>, recent: set<string>) {
    forall i, a :: 0 <= i < |log| && Begins(log[i], a) ==> a in open || Ended(log, i, a, notes, recent)
  }

  predicate Ended(log: seq<Event>, i: int, a: Attempt, notes: seq<Note>, recent: set<string>) {
    exists k :: 0 <= i < k < |log| && log[k].End? && log[k].of == a && (log[k].kept ==> Keeps(log, k, a, notes, recent))
  }

  predicate Keeps(log: seq<Event>, k: int, a: Attempt, notes: seq<Note>, recent: set<string>)
    requires 0 <= k < |log|
  {
    if a.target == AsNote then HasNote(notes, a.uri) else a.uri in recent || Tick in log[k..]
  }

  predicate HasNote(notes: seq<Note>, uri: string) { exists n <- notes :: n.uri == uri }

  lemma EndedLater(log: seq<Event>, more: seq<Event>, i: int, a: Attempt, notes: seq<Note>, recent: set<string>,
                   notes': seq<Note>, recent': set<string>)
    requires Ended(log, i, a, notes, recent) && log <= more && notes <= notes'
    requires recent <= recent' || Tick in more[|log|..]
    ensures Ended(more, i, a, notes', recent')
  {
    var k :| 0 <= i < k < |log| && log[k].End? && log[k].of == a && (log[k].kept ==> Keeps(log, k, a, notes, recent));
    assert log[k] == more[k];
    if log[k].kept && a.target != AsNote && a.uri !in recent' {
      if a.uri in recent {
        assert more[|log|..] <= more[k..][|log| - k..];
      } else {
        assert log[k..] <= more[k..];
      }
    }
  }

  /** Whatever is stored and logged later, if nothing new begins. */
  lemma AccountedLater(log: seq<Event>, open: set<Attempt>, notes: seq<Note>, recent: set<string>,
                       e: seq<Event>, open': set<Attempt>, notes': seq<Note>, recent': set<string>)
    requires Accounted(log, open, notes, recent) && open <= open' && notes <= notes'
    requires recent <= recent' || Tick in e
    requires forall k, a :: 0 <= k < |e| ==> !Begins(e[k], a)
    ensures Accounted(log + e, open', notes', recent')
  {
    var more := log + e;
    forall i, a | 0 <= i < |more| && Begins(more[i], a) && a !in open' ensures Ended(more, i, a, notes', recent') {
      assert i < |log| && more[i] == log[i];
      EndedLater(log, more, i, a, notes, recent, notes', recent');
    }
  }

  lemma InOrderLater(log: seq<Event>, more: seq<Event>, i: int, j: int, a: Attempt, b: Attempt,
                     notes: seq<Note>, deleted: set<nat>, notes': seq<Note>, deleted': set<nat>)
    requires InOrder(log, i, j, a, b, notes, deleted) && log <= more && notes <= notes' && deleted <= deleted'
    ensures InOrder(more, i, j, a, b, notes', deleted')
  {
    var k :| 0 <= i < k < j <= |log| && log[k].End? && log[k].of == a;
    assert more[k] == log[k];
    if a == b {
      k :| 0 <= i < k < j <= |log| && log[k].End? && log[k].of == a &&
           (log[k].kept ==> if a.target == AsNote then Tombstone(notes, deleted, a.uri) else Tick in log[k..j]);
      assert log[k] == more[k] && log[k..j] == more[k..j];
      if log[k].kept && a.target == AsNote {
        TombstoneLater(notes, notes', deleted, deleted', a.uri);
      }
    }
  }

  lemma OrderlyLater(log: seq<Event>, notes: seq<Note>, deleted: set<nat>,
                     e: seq<Event>, notes': seq<Note>, deleted': set<nat>)
    requires Orderly(log, notes, deleted) && notes <= notes' && deleted <= deleted'
    requires forall k, a :: 0 <= k < |e| ==> !Begins(e[k], a)
    ensures Orderly(log + e, notes', deleted')
  {
    var more := log + e;
    forall i, j, a, b | 0 <= i < j < |more| && Begins(more[i], a) && Begins(more[j], b) && a.uri == b.uri
      ensures InOrder(more, i, j, a, b, notes', deleted')
    {
      assert j < |log| && more[i] == log[i] && more[j] == log[j];
      assert InOrder(log, i, j, a, b, notes, deleted);
      InOrderLater(log, more, i, j, a, b, notes, deleted, notes', deleted');
    }
  }

  /** An attempt begins in order if none for its URI is open and what it asks for is not at hand. */
  lemma BeginsInOrder(log: seq<Event>, open: set<Attempt>, notes: seq<Note>, deleted: set<nat>, recent: set<string>,
                      e: Event, a: Attempt)
    requires Orderly(log, notes, deleted) && Accounted(log, open, notes, recent) && Begins(e, a)
    requires forall b <- open :: b.uri != a.uri
    requires a.target == AsNote ==> Live(notes, deleted, a.uri) == None
    requires a.target == AsActor ==> a.uri !in recent
    ensures Orderly(log + [e], notes, deleted) && Accounted(log + [e], open + {a}, notes, recent)
  {
    hide Ended, EndsBetween, EndsInVain;
    var more := log + [e];
    forall i, j, b, c | 0 <= i < j < |more| && Begins(more[i], b) && Begins(more[j], c) && b.uri == c.uri
      ensures InOrder(more, i, j, b, c, notes, deleted)
    {
      if j < |log| {
        assert InOrder(log, i, j, b, c, notes, deleted);
        InOrderLater(log, more, i, j, b, c, notes, deleted, notes, deleted);
      } else {
        assert c == a && more[i] == log[i];
        EndedInTime(log, e, i, b, c, notes, deleted, recent);
      }
    }
    forall i, b | 0 <= i < |more| && Begins(more[i], b) && b !in open + {a} ensures Ended(more, i, b, notes, recent) {
      assert i < |log| && more[i] == log[i];
      EndedLater(log, more, i, b, notes, recent, notes, recent);
    }
  }

  lemma EndedInTime(log: seq<Event>, e: Event, i: int, a: Attempt, b: Attempt, notes: seq<Note>, deleted: set<nat>,
                    recent: set<string>)
    requires Ended(log, i, a, notes, recent)
    requires b.target == AsNote ==> Live(notes, deleted, b.uri) == None
    requires b.target == AsActor ==> b.uri !in recent
    requires b.target != AsCollection
    ensures InOrder(log + [e], i, |log|, a, b, notes, deleted)
  {
    var k :| 0 <= i < k < |log| && log[k].End? && log[k].of == a && (log[k].kept ==> Keeps(log, k, a, notes, recent));
    assert (log + [e])[k] == log[k] && (log + [e])[k..|log|] == log[k..];
    if a == b && log[k].kept && a.target == AsNote {
      KeptIsGone(notes, deleted, a.uri);
    }
  }

  lemma KeptIsGone(notes: seq<Note>, deleted: set<nat>, uri: string)
    requires HasNote(notes, uri) && Live(notes, deleted, uri) == None
    ensures Tombstone(notes, deleted, uri)
  {
    var n :| n in notes && n.uri == uri;
    var j :| 0 <= j < |notes| && notes[j] == n;
    assert notes[j].id in deleted;
  }

  lemma EndsInOrder(log: seq<Event>, open: set<Attempt>, notes: seq<Note>, deleted: set<nat>, recent: set<string>,
                    a: Attempt, kept: bool)
    requires Orderly(log, notes, deleted) && Accounted(log, open, notes, recent)
    requires kept ==> if a.target == AsNote then HasNote(notes, a.uri) else a.uri in recent
    ensures var more := log + [End(a, kept)];
            Orderly(more, notes, deleted) && Accounted(more, open - {a}, notes, recent)
  {
    var e := End(a, kept);
    var more := log + [e];
    OrderlyLater(log, notes, deleted, [e], notes, deleted);
    forall i, b | 0 <= i < |more| && Begins(more[i], b) && b !in open - {a} ensures Ended(more, i, b, notes, recent) {
      assert i < |log| && more[i] == log[i];
      if b == a {
        assert more[|log|] == e;
        assert kept ==> Keeps(more, |log|, a, notes, recent);
      } else {
        EndedLater(log, more, i, b, notes, recent, notes, recent);
      }
    }
  }

  /** With locks a note is requested a second time only after an attempt to obtain it ended without
      storing it, or after the note was deleted. */
  lemma SecondRequest(log: seq<Event>, notes: seq<Note>, deleted: set<nat>, uri: string, i: nat, j: nat)
    requires Orderly(log, notes, deleted) && i < j < |log|
    requires log[i] == log[j] == Request(Attempt(AsNote, uri))
    ensures exists k :: i < k < j && log[k].End? && log[k].of == Attempt(AsNote, uri) &&
                        (!log[k].kept || Tombstone(notes, deleted, uri))
  {
    var a := Attempt(AsNote, uri);
    assert Begins(log[i], a) && Begins(log[j], a);
    assert InOrder(log, i, j, a, a, notes, deleted);
  }

  // ---------------------------------------------------------------- the resolver and its stores

  class Federation {
    const policy: Policy
    const world: set<string>
    /** An object locker is configured. */
    const locking: bool
    /** The answers of all servers, if they never change and no other worker runs. */
    const script: Option<string -> Fetched>

    var notes: seq<Note>
    var deleted: set<nat>
    var actors: map<string, Actor>
    /** Actors fetched less than a day ago. */
    var recent: set<string>
    /** URIs locked by the call that is being served. */
    var held: set<string>
    /** Its attempts to obtain an actor or a note under a lock that have not ended. */
    ghost var open: set<Attempt>
    ghost var log: seq<Event>

    ghost predicate Valid()
      reads this
    {
      && WellLinked(notes, deleted) && AllPinned(notes, actors) && AuthorsKnown(notes, actors.Keys) &&
          recent <= actors.Keys
      && Permitted(log) && if locking then Careful() else open == {}
    }

    /** No blocked host was contacted, and no actor or note requested that policy forbids or that is our own. */
    ghost predicate Permitted(log: seq<Event>) {
      forall k :: 0 <= k < |log| && log[k].Request? ==> MayRequest(log[k].of)
    }

    predicate MayRequest(a: Attempt) {
      policy.Reachable(a.uri) && (a.target == AsCollection || (policy.Allows(a.uri) && !policy.ours(a.uri)))
    }

    ghost predicate Careful()
      reads this
    {
      Orderly(log, notes, deleted) && Accounted(log, open, notes, recent) && forall a <- open :: a.uri in held
    }

    ghost function Opened(a: Attempt): set<Attempt>
      reads `open
    {
      if locking then open + {a} else open
    }

    /** Nothing stands in the way of an attempt: its URI is locked, none for it is open, and what it is
        for is not at hand. */
    ghost predicate MayBegin(a: Attempt)
      reads this
    {
      && a.target != AsCollection && policy.Allows(a.uri) && !policy.ours(a.uri)
      && (locking ==> a.uri in held && (forall b <- open :: b.uri != a.uri) &&
                      (a.target == AsNote ==> Live(notes, deleted, a.uri) == None) &&
                      (a.target == AsActor ==> a.uri !in recent))
    }

    /** Notes are only added, deletions are not taken back, and within the hour actors stay recent. */
    twostate predicate Advanced()
      reads this
    {
      old(notes) <= notes && old(deleted) <= deleted && old(recent) <= recent &&
      old(actors.Keys) <= actors.Keys && old(log) <= log
    }

    /** And every attempt begun since has ended, every lock taken since is given back. */
    twostate predicate Grew()
      reads this
    {
      Advanced() && held == old(held) && open == old(open)
    }

    constructor (policy: Policy, world: set<string>, locking: bool, script: Option<string -> Fetched>)
      ensures Valid() && this.policy == policy && this.world == world && this.locking == locking
      ensures this.script == script
      ensures notes == [] && deleted == {} && actors == map[] && held == {} && open == {} && log == []
    {
      this.policy, this.world, this.locking, this.script := policy, world, locking, script;
      notes, deleted, actors, recent, held, open, log := [], {}, map[], {}, {}, {}, [];
    }

    /** Whatever other workers store, refresh, suspend or delete in the meantime. */
    method OthersRun()
      requires Valid()
      modifies this`notes, this`deleted, this`actors, this`recent
      ensures Valid() && Grew()
      ensures script.Some? ==> unchanged(this)
    {
      var more: seq<Note> := *;
      var gone: set<nat> := *;
      var known: map<string, Actor> := *;
      var refreshed: set<string> := *;
      if script == None && WellLinked(notes + more, deleted + gone) && AllPinned(notes + more, known) &&
         AuthorsKnown(notes + more, known.Keys) && actors.Keys <= known.Keys && refreshed <= known.Keys
      {
        CarefulLater(notes + more, deleted + gone, recent + refreshed);
        notes, deleted, actors, recent := notes + more, deleted + gone, known, recent + refreshed;
      }
    }

    lemma CarefulLater(notes': seq<Note>, deleted': set<nat>, recent': set<string>)
      requires locking ==> Careful()
      requires notes <= notes' && deleted <= deleted' && recent <= recent'
      ensures locking ==> Orderly(log, notes', deleted') && Accounted(log, open, notes', recent')
    {
      if locking {
        OrderlyLater(log, notes, deleted, [], notes', deleted');
        AccountedLater(log, open, notes, recent, [], open, notes', recent');
        assert log + [] == log;
      }
    }

    /** A lock is given to one holder at a time, so never to a call that holds it; whoever waits for it in
        vain gives up. */
    method AcquireObjectLock(uri: string) returns (lock: Lock)
      requires Valid()
      modifies this`notes, this`deleted, this`actors, this`recent, this`held
      ensures Valid() && Advanced()
      ensures lock == NoLocker <==> !locking
      ensures lock == Held ==> uri !in old(held) && forall a <- open :: a.uri != uri
      ensures held == if lock == Held then old(held) + {uri} else old(held)
      ensures lock == NoLocker ==> unchanged(this)
      ensures script.Some? ==> unchanged(this`notes, this`deleted, this`actors, this`recent)
      ensures script.Some? && locking && uri !in old(held) ==> lock == Held
    {
      if !locking {
        return NoLocker;
      }
      OthersRun();
      var given: bool := *;
      if uri in held || (script == None && !given) {
        return TimedOut;
      }
      held := held + {uri};
      lock := Held;
    }

    method ReleaseObjectLock(uri: string, lock: Lock)
      requires Valid() && (lock == Held ==> forall a <- open :: a.uri != uri)
      modifies this`held
      ensures Valid() && held == if lock == Held then old(held) - {uri} else old(held)
    {
      if lock == Held {
        held := held - {uri};
      }
    }

    /** The client validates the URL, sends the request and gets an arbitrary honest answer. */
    method FetchObject(target: Target, uri: string) returns (r: Fetched)
      requires Valid() && (target != AsCollection ==> MayBegin(Attempt(target, uri)))
      modifies this`notes, this`deleted, this`actors, this`recent, this`open, this`log
      ensures Valid() && Advanced() && held == old(held)
      ensures open == if target == AsCollection then old(open) else old(Opened(Attempt(target, uri)))
      ensures log == old(log) + if policy.Reachable(uri) then [Request(Attempt(target, uri))] else []
      ensures r.Received? ==> policy.Reachable(uri) && Honest(world, uri, r.document)
      ensures script.Some? ==> r == Here().Answer(uri) && unchanged(this`notes, this`deleted, this`actors, this`recent)
    {
      hide WellLinked, AllPinned, AuthorsKnown, Live;
      var attempt := Attempt(target, uri);
      Asked(attempt);
      if target != AsCollection {
        open := Opened(attempt);
      }
      if !policy.Reachable(uri) {
        return Refused(false);
      }
      log := log + [Request(attempt)];
      OthersRun();
      r := *;
      if script.Some? {
        r := script.value(uri);
      }
      if r.Received? && !Honest(world, uri, r.document) {
        r := Refused(false);
      }
    }

    lemma Asked(a: Attempt)
      requires locking ==> Careful() && (a.target == AsCollection || MayBegin(a))
      ensures locking ==>
                var now := if a.target == AsCollection then open else open + {a};
                Orderly(log + [Request(a)], notes, deleted) && Accounted(log + [Request(a)], now, notes, recent) &&
                Accounted(log, now, notes, recent)
    {
      if locking {
        AccountedLater(log, open, notes, recent, [], open + {a}, notes, recent);
        assert log + [] == log;
        if a.target == AsCollection {
          OrderlyLater(log, notes, deleted, [Request(a)], notes, deleted);
          AccountedLater(log, open, notes, recent, [Request(a)], open, notes, recent);
        } else {
          BeginsInOrder(log, open, notes, deleted, recent, Request(a), a);
        }
      }
    }

    /** A note is taken as its collection inlined it. */
    ghost method TakeInlined(uri: string)
      requires Valid() && MayBegin(Attempt(AsNote, uri))
      modifies this`open, this`log
      ensures Valid() && open == old(Opened(Attempt(AsNote, uri))) && log == old(log) + [Inlined(uri)]
    {
      hide WellLinked, AllPinned, AuthorsKnown, Live;
      var a := Attempt(AsNote, uri);
      if locking {
        BeginsInOrder(log, open, notes, deleted, recent, Inlined(uri), a);
      }
      open, log := Opened(a), log + [Inlined(uri)];
    }

    /** The attempt ends, and with it the lock is given back. */
    method EndAttempt(ghost a: Attempt, ghost kept: bool, uri: string, lock: Lock)
      requires Valid() && a.uri == uri && (kept ==> if a.target == AsNote then HasNote(notes, uri) else uri in recent)
      requires forall b <- open :: b.uri == uri ==> b == a
      modifies this`open, this`log, this`held
      ensures Valid() && open == old(open) - {a} && log == old(log) + [End(a, kept)]
      ensures held == if lock == Held then old(held) - {uri} else old(held)
    {
      hide WellLinked, AllPinned, AuthorsKnown;
      if locking {
        EndsInOrder(log, open, notes, deleted, recent, a, kept);
      }
      open, log := open - {a}, log + [End(a, kept)];
      ReleaseObjectLock(uri, lock);
    }

    // -------------------------------------------------------------- stores

    /** Insert by URI unless a document with that URI exists, then read back what is live. */
    method UpsertRemoteNote(note: Note) returns (r: Outcome<Note>)
      requires Valid() && Linked(notes, |notes|, deleted, note) && note.author in actors
      modifies this`notes
      ensures Valid() && Grew()
      ensures r.Found? ==> r.value in notes && r.value.uri == note.uri
      ensures r == Nothing ==> Tombstone(notes, deleted, note.uri)
      ensures notes == old(notes) || (r.Found? && notes == old(notes) + [note.(id := r.value.id)])
      ensures (exists n <- old(notes) :: n.uri == note.uri) ==> notes == old(notes)
    {
      var live := Live(notes, deleted, note.uri);
      if live.Some? {
        return Found(live.value);
      }
      if exists n <- notes :: n.uri == note.uri {
        return Nothing;
      }
      r := Insert(note);
    }

    /** Generate an id and insert; generation and insertion may fail. */
    method Insert(note: Note) returns (r: Outcome<Note>)
      requires Valid() && Linked(notes, |notes|, deleted, note) && note.author in actors
      requires forall n <- notes :: n.uri != note.uri
      modifies this`notes
      ensures Valid() && Grew()
      ensures r == Failed(false) || r.Found?
      ensures r.Found? ==> notes == old(notes) + [r.value] && r.value == note.(id := r.value.id)
      ensures r.Failed? ==> notes == old(notes)
    {
      var id: nat := *;
      var failed: bool := *;
      if failed || Stored(notes, id) || id in deleted {
        return Failed(false);
      }
      var stored := note.(id := id);
      LinkedLater(notes, notes, |notes|, |notes|, deleted, deleted, stored);
      AppendLinked(notes, deleted, stored);
      StillPinned(notes, notes + [stored], actors);
      CarefulLater(notes + [stored], deleted, recent);
      notes := notes + [stored];
      r := Found(stored);
    }

    method UpsertRemoteActor(uri: string, featured: seq<nat>) returns (r: Outcome<Actor>)
      requires Valid() && Pinned(notes, featured)
      modifies this`actors, this`recent
      ensures Valid() && Grew()
      ensures r == Failed(false) || r.Found?
      ensures r.Found? ==>
                r.value == Actor(false, false, featured) && uri in recent && actors == old(actors)[uri := r.value]
      ensures r.Failed? ==> script == None && unchanged(this)
    {
      var failed: bool := *;
      if failed && script == None {
        return Failed(false);
      }
      var actor := Actor(false, false, featured);
      CarefulLater(notes, deleted, recent + {uri});
      actors, recent := actors[uri := actor], recent + {uri};
      r := Found(actor);
    }

    // -------------------------------------------------------------- scripted runs

    ghost function Now(): View
      reads this
    {
      View(notes, deleted, actors.Keys, held)
    }

    ghost function Stands(resolution: Resolution): Standing
      reads this, resolution
    {
      Standing(Now(), log, resolution.history)
    }

    ghost function Here(): (here: Setting)
      ensures here == Setting(policy, world, locking, script)
    {
      Setting(policy, world, locking, script)
    }

    /** These events are logged and, but for locks, nothing else happens. */
    twostate predicate OnlyLogged(events: seq<Event>, resolution: Resolution)
      reads this, resolution
    {
      log == old(log) + events && Now() == old(Now()).(locks := held) && resolution.history == old(resolution.history)
    }

    /** If the run is scripted, these events came first. */
    twostate predicate Begun(opening: seq<Event>)
      reads this
    {
      StartsWith(script.Some?, old(log), opening, log)
    }

    // -------------------------------------------------------------- resolution

    /** An actor that is missing or was fetched too long ago is fetched, stored and only then are its
        pinned notes resolved; whatever goes wrong with those leaves it stored. */
    method ResolveActor(uri: string) returns (r: Outcome<Actor>)
      requires Valid() && uri in world
      modifies this
      ensures Valid() && Grew() && r != Nothing
      ensures r.Found? ==> uri in actors
      ensures uri == "" || !policy.Allows(uri) || (uri in old(actors) && old(actors[uri]).suspended) ==>
                r == Failed(false) && unchanged(this)
      ensures uri != "" && policy.Allows(uri) && uri in old(actors) && !old(actors[uri]).suspended &&
              (old(actors[uri]).local || uri in old(recent)) ==>
                r == Found(old(actors[uri])) && unchanged(this)
      ensures policy.ours(uri) && uri !in old(actors) ==> r == Failed(false) && unchanged(this)
      ensures Begun(Here().ActorOpens(old(Now()), uri))
      decreases world - recent, 0, 3
    {
      hide WellLinked, AllPinned, AuthorsKnown, Careful, Permitted, Live, StartsWith, Setting.ProfileOpens;
      StartsEmpty(script.Some?, log, log);
      if uri == "" || !policy.Allows(uri) {
        return Failed(false);
      }
      var existing := if uri in actors then Some(actors[uri]) else None;
      if existing.Some? && existing.value.suspended {
        return Failed(false);
      }
      if existing.Some? && (existing.value.local || uri in recent) {
        return Found(existing.value);
      }
      if policy.ours(uri) {
        return Failed(false);
      }
      r := AttemptActor(uri, existing);
    }

    /** With the actor's lock, and unless another worker has fetched it by then. */
    method AttemptActor(uri: string, known: Option<Actor>) returns (r: Outcome<Actor>)
      requires Valid() && uri in world && uri != "" && policy.Allows(uri) && !policy.ours(uri) && uri !in recent
      requires known == if uri in actors then Some(actors[uri]) else None
      requires known.Some? ==> !known.value.local && !known.value.suspended
      modifies this
      ensures Valid() && Grew() && r != Nothing
      ensures r.Found? ==> uri in actors
      ensures Begun(Here().ActorOpens(old(Now()), uri))
      decreases world - recent, 0, 2
    {
      hide WellLinked, AuthorsKnown, Pinned, Careful, Permitted, Live, StartsWith, Setting.ProfileOpens;
      Unscripted();
      var existing := known;
      StartsEmpty(script.Some?, log, log);
      var lock := AcquireObjectLock(uri);
      if lock == TimedOut {
        return Kept(existing, false);
      }
      if lock == Held && uri in actors {
        if actors[uri].local || uri in recent {
          r := Found(actors[uri]);
          ReleaseObjectLock(uri, lock);
          return;
        }
        existing := Some(actors[uri]);
      }
      ghost var answer, pins;
      ghost var opens := Here().ProfileOpens(Now(), uri);
      r, answer, pins := RefreshActor(uri, existing);
      ghost var before := log;
      EndAttempt(Attempt(AsActor, uri), uri in recent, uri, lock);
      if script.Some? {
        StartsLater(script.Some?, old(log), opens, before, log);
        StartsEmpty(script.Some?, old(log), log);
      }
    }

    /** Given the answer of the server and what resolving the pinned notes came to: a refusal or a
        malformed profile leaves what was known, otherwise the actor is stored, with the new pins if they
        could be resolved and else with the old ones. */
    method RefreshActor(uri: string, existing: Option<Actor>)
      returns (r: Outcome<Actor>, ghost answer: Fetched, ghost pins: Outcome<seq<nat>>)
      requires Valid() && uri in world && uri !in recent && MayBegin(Attempt(AsActor, uri))
      requires existing.Some? ==> uri in actors && Pinned(notes, existing.value.featured)
      modifies this
      ensures Valid() && Advanced() && held == old(held) && open == old(Opened(Attempt(AsActor, uri))) && r != Nothing
      ensures r.Found? ==> uri in actors
      ensures answer.Refused? ==> r == Kept(existing, answer.permanent)
      ensures answer.Received? && (!answer.document.Profile? || !answer.document.wellFormed) ==>
              r == Kept(existing, false)
      ensures answer.Received? && answer.document.Profile? && answer.document.wellFormed && r.Found? ==>
                uri in recent && r.value == Actor(false, false, if pins.Found? then pins.value
                                                               else if existing.Some? then existing.value.featured
                                                                   else [])
      ensures Begun(Here().ProfileOpens(old(Now()), uri))
      decreases world - recent, 0, 1
    {
      hide WellLinked, AllPinned, AuthorsKnown, Pinned, Careful, Permitted, Live, StartsWith, MayBegin;
      hide Setting.CollectionOpens;
      Unscripted();
      pins := Nothing;
      var featured := if existing.Some? then existing.value.featured else [];
      NoPins(notes);
      ghost var before, logged := notes, log;
      var fetched := FetchObject(AsActor, uri);
      answer := fetched;
      ghost var first := log[|logged|..];
      StartsEmpty(script.Some?, log, log);
      assert logged + first == log;
      StartsOn(script.Some?, logged, first, [], log);
      if fetched.Refused? {
        return Kept(existing, fetched.permanent), answer, pins;
      }
      var profile := fetched.document;
      if !profile.Profile? || !profile.wellFormed {
        return Kept(existing, false), answer, pins;
      }
      PinnedLater(before, notes, featured);
      ghost var view := Now();
      ghost var second := Here().CollectionOpens(view.(known := view.known + {uri}), profile.featured);
      r, pins := StoreActor(uri, featured, profile.featured);
      StartsOn(script.Some?, logged, first, second, log);
    }

    /** Store the actor with the pins it had, and then with those it has. */
    method StoreActor(uri: string, featured: seq<nat>, collectionUri: string)
      returns (r: Outcome<Actor>, ghost pins: Outcome<seq<nat>>)
      requires Valid() && uri in world && Pinned(notes, featured)
      modifies this
      ensures Valid() && Grew() && r != Nothing
      ensures r.Found? ==>
                uri in actors && uri in recent &&
                r.value == Actor(false, false, if pins.Found? then pins.value else featured)
      ensures var v := old(Now()); Begun(Here().CollectionOpens(v.(known := v.known + {uri}), collectionUri))
      decreases world - recent - {uri}, NOTE_RESOLUTION_LIMIT + 1, 1
    {
      hide WellLinked, AllPinned, AuthorsKnown, Pinned, Careful, Permitted, Live, StartsWith, Setting.CollectionOpens;
      Unscripted();
      pins := Nothing;
      ghost var view := Now();
      r := UpsertRemoteActor(uri, featured);
      if r.Failed? {
        return;
      }
      assert Now() == view.(known := view.known + {uri});
      ghost var outcomes;
      var ids;
      ids, outcomes := ResolveFeaturedNotes(collectionUri);
      pins := ids;
      if ids.Found? {
        r := UpsertRemoteActor(uri, ids.value);
      }
    }

    /** The pins of an actor: the first five members of its collection. */
    method ResolveFeaturedNotes(collectionUri: string)
      returns (r: Outcome<seq<nat>>, ghost outcomes: seq<Outcome<Note>>)
      requires Valid()
      modifies this
      ensures Valid() && Grew() && r != Nothing
      ensures r.Found? ==> Pinned(notes, r.value)
      ensures collectionUri == "" ==> r == Found([]) && unchanged(this)
      ensures r.Found? ==> r.value == PinsOf(outcomes) && |outcomes| <= FEATURED_NOTE_LIMIT
      ensures forall k :: 0 <= k < |outcomes| && outcomes[k].Found? ==> outcomes[k].value in notes
      ensures Begun(Here().CollectionOpens(old(Now()), collectionUri))
      decreases world - recent, NOTE_RESOLUTION_LIMIT + 1, 0
    {
      hide WellLinked, AllPinned, AuthorsKnown, Careful, Permitted, Tombstone, Pinned, PinsOf, Live, StartsWith;
      Unscripted();
      NoPins(notes);
      outcomes := [];
      ghost var before := log;
      StartsEmpty(script.Some?, log, log);
      if collectionUri == "" {
        return Found([]), [];
      }
      var fetched := FetchObject(AsCollection, collectionUri);
      ghost var first := log[|before|..];
      StartsEmpty(script.Some?, log, log);
      StartsOn(script.Some?, before, first, [], log);
      if fetched.Refused? {
        return Failed(fetched.permanent), [];
      }
      if !fetched.document.Collection? {
        return Failed(false), [];
      }
      var items := fetched.document.items;
      ghost var second := Here().FirstItem(Now(), items);
      r, outcomes := ResolveMembers(items, collectionUri);
      if script.Some? {
        StartsOn(script.Some?, before, first, second, log);
      }
    }

    /** Each of the first five on its own, with an empty history. */
    method ResolveMembers(items: seq<Item>, collectionUri: string)
      returns (r: Outcome<seq<nat>>, ghost outcomes: seq<Outcome<Note>>)
      requires Valid() && Honest(world, collectionUri, Collection(items))
      modifies this
      ensures Valid() && Grew() && r != Nothing
      ensures r.Found? ==> Pinned(notes, r.value)
      ensures r.Found? ==>
                r.value == PinsOf(outcomes) &&
                |outcomes| == if |items| < FEATURED_NOTE_LIMIT then |items| else FEATURED_NOTE_LIMIT
      ensures forall k :: 0 <= k < |outcomes| && outcomes[k].Found? ==> outcomes[k].value in notes
      ensures Begun(Here().FirstItem(old(Now()), items))
      decreases world - recent, NOTE_RESOLUTION_LIMIT, 3
    {
      hide WellLinked, AllPinned, AuthorsKnown, Careful, Permitted, Tombstone, Pinned, PinsOf, Live;
      hide StartsWith, Setting.NoteRequest;
      Unscripted();
      var values := if |items| > FEATURED_NOTE_LIMIT then items[..FEATURED_NOTE_LIMIT] else items;
      var ids := [];
      outcomes := [];
      ghost var start := log;
      ghost var opens := Here().FirstItem(Now(), items);
      StartsEmpty(script.Some?, log, log);
      NoPins(notes);
      for k := 0 to |values|
        invariant Valid() && Grew()
        invariant |ids| <= k && Pinned(notes, ids) && ids == PinsOf(outcomes) && |outcomes| == k
        invariant forall j :: 0 <= j < k && outcomes[j].Found? ==> outcomes[j].value in notes
        invariant k == 0 ==> Now() == old(Now()) && log == start
        invariant k > 0 ==> StartsWith(script.Some?, start, opens, log)
      {
        var value := values[k];
        assert value == items[k];
        if value.Malformed? {
          return Failed(false), outcomes;
        }
        ghost var before, logged := notes, log;
        var note := ResolveMember(value, collectionUri);
        PinnedLater(before, notes, ids);
        if script.Some? && k > 0 {
          StartsLater(script.Some?, start, opens, logged, log);
        } else if script.Some? && !value.Link? {
          StartsEmpty(script.Some?, start, log);
        }
        if note.Failed? {
          return Failed(note.permanent), outcomes;
        }
        PinsAppend(outcomes, note);
        outcomes := outcomes + [note];
        if note.Found? && note.value.id !in ids {
          PinOneMore(notes, ids, note.value);
          ids := ids + [note.value.id];
        }
      }
      r := Found(ids);
    }

    /** An inlined object counts only if the collection's own server inlined it; any other member is
        requested where its URI points. */
    method ResolveMember(item: Item, collectionUri: string) returns (r: Outcome<Note>)
      requires Valid() && !item.Malformed?
      requires item.Inline? && item.inlined.Post? ==> Honest(world, item.uri, item.inlined)
      modifies this
      ensures Valid() && Grew()
      ensures r.Found? ==> r.value in notes && r.value.uri == item.uri
      ensures item.Link? ==> Begun(Here().NoteRequest(old(Now()), item.uri))
      decreases world - recent, NOTE_RESOLUTION_LIMIT, 2
    {
      hide WellLinked, AllPinned, AuthorsKnown, Careful, Permitted, Tombstone, Live;
      if item.Inline? && policy.sameOrigin(item.uri, collectionUri) {
        var resolution := new Resolution({});
        r := ResolveNoteValue(item.uri, Some(item.inlined), resolution);
      } else {
        ghost var asked;
        ghost var opens := Here().NoteOpens(Now(), item.uri);
        ghost var first, before := Here().NoteRequest(Now(), item.uri), log;
        r, asked := ResolveNote(item.uri);
        if script.Some? {
          assert opens == first + opens[|first|..];
          StartsFirst(script.Some?, before, first, opens[|first|..], log);
        }
      }
    }

    /** Resolve one note with a history of its own, under which no URI is requested twice. */
    method ResolveNote(uri: string) returns (r: Outcome<Note>, ghost asked: seq<string>)
      requires Valid()
      modifies this
      ensures Valid() && Grew()
      ensures r.Found? ==> r.value in notes && r.value.uri == uri
      ensures r == Nothing ==> uri == "" || Tombstone(notes, deleted, uri)
      ensures Distinct(asked) && |asked| <= NOTE_RESOLUTION_LIMIT
      ensures Begun(Here().NoteOpens(old(Now()), uri))
      decreases world - recent, NOTE_RESOLUTION_LIMIT, 1
    {
      var resolution := new Resolution({});
      r := ResolveNoteValue(uri, None, resolution);
      asked := resolution.asked;
      DistinctWithin(asked, resolution.history);
    }

    /** Resolve the links of a note that is being received, with a history in which that note stands. */
    method ResolveNoteLinks(rootUri: string, inReplyTo: string, quotes: seq<string>)
      returns (r: Outcome<Links>, ghost asked: seq<string>)
      requires Valid()
      modifies this
      ensures Valid() && Grew() && r != Nothing
      ensures r.Found? ==> Resolved(notes, deleted, inReplyTo, quotes, r.value)
      ensures inReplyTo == "" ==> Begun(Here().CandidatesOpen(old(Now()), quotes, {rootUri}))
      ensures Distinct(asked) && rootUri !in asked
    {
      var resolution := new Resolution({rootUri});
      r := ResolveLinks(inReplyTo, quotes, resolution);
      asked := resolution.asked;
    }

    method ResolveNoteValue(uri: string, embedded: Option<Document>, resolution: Resolution) returns (r: Outcome<Note>)
      requires Valid() && resolution.Valid()
      requires embedded.Some? && embedded.value.Post? ==> Honest(world, uri, embedded.value)
      modifies this, resolution
      ensures Valid() && Grew() && resolution.Valid() && resolution.Grew()
      ensures r.Found? ==> r.value in notes && r.value.uri == uri
      ensures r == Nothing ==> uri == "" || Tombstone(notes, deleted, uri)
      ensures uri == "" ==> r == Nothing && unchanged(this, resolution)
      ensures uri != "" && !policy.Allows(uri) ==> r == Failed(true) && unchanged(this, resolution)
      ensures uri != "" && policy.Allows(uri) ==>
                var live := Live(old(notes), old(deleted), uri);
                if live.Some? then r == Found(live.value) && unchanged(this, resolution)
                else if uri in old(resolution.history) || |old(resolution.history)| == NOTE_RESOLUTION_LIMIT then
                  r == Failed(false) && unchanged(this, resolution)
                else uri in resolution.history
      ensures embedded == None ==> Here().Tried(uri, old(Stands(resolution)), Stands(resolution), r)
      decreases world - recent, NOTE_RESOLUTION_LIMIT - |resolution.history|, 0
    {
      hide WellLinked, AllPinned, AuthorsKnown, Careful, Permitted;
      if uri == "" {
        return Nothing;
      }
      if !policy.Allows(uri) {
        return Failed(true);
      }
      var live := Live(notes, deleted, uri);
      if live.Some? {
        return Found(live.value);
      }
      if uri in resolution.history || |resolution.history| >= NOTE_RESOLUTION_LIMIT {
        return Failed(false);
      }
      resolution.history := resolution.history + {uri};
      if policy.ours(uri) {
        return Failed(true);
      }
      r := AttemptNote(uri, embedded, resolution);
    }

    /** With the note's lock, and unless another worker has stored it by then. */
    method AttemptNote(uri: string, embedded: Option<Document>, resolution: Resolution) returns (r: Outcome<Note>)
      requires Valid() && resolution.Valid() && policy.Allows(uri) && !policy.ours(uri)
      requires uri in resolution.history && uri !in resolution.asked
      requires !locking ==> Live(notes, deleted, uri) == None
      requires embedded.Some? && embedded.value.Post? ==> Honest(world, uri, embedded.value)
      modifies this, resolution
      ensures Valid() && Grew() && resolution.Valid()
      ensures old(resolution.history) <= resolution.history && |old(resolution.history)| <= |resolution.history|
      ensures old(resolution.asked) <= resolution.asked
      ensures forall k :: |old(resolution.asked)| <= k < |resolution.asked| ==>
                (resolution.asked[k] == uri && embedded == None) || resolution.asked[k] !in old(resolution.history)
      ensures r.Found? ==> r.value in notes && r.value.uri == uri
      ensures r == Nothing ==> Tombstone(notes, deleted, uri)
      ensures embedded == None && uri != "" ==> Begun(Here().NoteOpens(old(Now()), uri))
      ensures embedded == None && Here().Vain(old(Now()), uri) ==>
                r.Failed? && OnlyLogged(InVain(uri), resolution) && held == old(held)
      decreases world - recent, NOTE_RESOLUTION_LIMIT - |resolution.history|, 7
    {
      hide WellLinked, AllPinned, AuthorsKnown, Tombstone, Careful, Permitted, Distinct, StartsWith;
      hide Setting.AuthorOpens;
      Unscripted();
      ghost var opens := Here().NoteOpens(Now(), uri);
      assert Here().NoteRequest(Now(), uri) == [] ==> opens == [];
      StartsEmpty(script.Some?, log, log);
      var lock := AcquireObjectLock(uri);
      if lock == TimedOut {
        return Failed(false);
      }
      var live := Live(notes, deleted, uri);
      if lock == Held && live.Some? {
        r := Found(live.value);
        ReleaseObjectLock(uri, lock);
        return;
      }
      r := ObtainNote(uri, embedded, resolution, lock);
      StartsEmpty(script.Some?, old(log), log);
    }

    method ObtainNote(uri: string, embedded: Option<Document>, resolution: Resolution, lock: Lock)
      returns (r: Outcome<Note>)
      requires Valid() && resolution.Valid() && MayBegin(Attempt(AsNote, uri))
      requires uri in resolution.history && uri !in resolution.asked
      requires embedded.Some? && embedded.value.Post? ==> Honest(world, uri, embedded.value)
      modifies this, resolution
      ensures Valid() && Advanced() && open == old(open) && resolution.Valid()
      ensures held == if lock == Held then old(held) - {uri} else old(held)
      ensures old(resolution.history) <= resolution.history && |old(resolution.history)| <= |resolution.history|
      ensures old(resolution.asked) <= resolution.asked
      ensures forall k :: |old(resolution.asked)| <= k < |resolution.asked| ==>
                (resolution.asked[k] == uri && embedded == None) || resolution.asked[k] !in old(resolution.history)
      ensures r.Found? ==> r.value in notes && r.value.uri == uri
      ensures r == Nothing ==> Tombstone(notes, deleted, uri)
      ensures embedded == None ==> Begun(Here().ReceiptOpens(old(Now()), uri))
      ensures embedded == None && Here().Refuses(uri) ==> r.Failed? && OnlyLogged(InVain(uri), resolution)
      decreases world - recent, NOTE_RESOLUTION_LIMIT - |resolution.history|, 6
    {
      hide WellLinked, AllPinned, AuthorsKnown, Tombstone, Careful, Permitted, Distinct, StartsWith, Live;
      hide Setting.ReceiptOpens, Setting.Refuses;
      ghost var opens := Here().ReceiptOpens(Now(), uri);
      ghost var answer;
      r, answer := ReceiveNote(uri, embedded, resolution);
      ghost var before := log;
      EndAttempt(Attempt(AsNote, uri), r.Found?, uri, lock);
      if embedded == None {
        StartsLater(script.Some?, old(log), opens, before, log);
      }
    }

    /** What the collection inlined, or else what the server answers; anything but a post of that host is
        a permanent failure. */
    method ReceiveNote(uri: string, embedded: Option<Document>, resolution: Resolution)
      returns (r: Outcome<Note>, ghost answer: Fetched)
      requires Valid() && resolution.Valid() && MayBegin(Attempt(AsNote, uri))
      requires uri in resolution.history && uri !in resolution.asked
      requires embedded.Some? && embedded.value.Post? ==> Honest(world, uri, embedded.value)
      modifies this, resolution
      ensures Valid() && Advanced() && held == old(held) && open == old(Opened(Attempt(AsNote, uri)))
      ensures resolution.Valid()
      ensures old(resolution.history) <= resolution.history && |old(resolution.history)| <= |resolution.history|
      ensures old(resolution.asked) <= resolution.asked
      ensures forall k :: |old(resolution.asked)| <= k < |resolution.asked| ==>
                (resolution.asked[k] == uri && embedded == None) || resolution.asked[k] !in old(resolution.history)
      ensures r.Found? ==> r.value in notes && r.value.uri == uri
      ensures r == Nothing ==> Tombstone(notes, deleted, uri)
      ensures embedded.Some? ==> answer == Received(embedded.value)
      ensures answer.Refused? ==> r == Failed(answer.permanent)
      ensures answer.Received? && !policy.Accepts(answer.document, uri) ==> r == Failed(true)
      ensures embedded == None ==> Begun(Here().ReceiptOpens(old(Now()), uri))
      ensures embedded == None && Here().Refuses(uri) ==>
                r.Failed? && OnlyLogged([Request(Attempt(AsNote, uri))], resolution)
      decreases world - recent, NOTE_RESOLUTION_LIMIT - |resolution.history|, 5
    {
      hide WellLinked, AllPinned, AuthorsKnown, Careful, Permitted, Tombstone, Live, StartsWith, MayBegin, Honest;
      hide Setting.ActorOpens;
      Unscripted();
      ghost var logged := log;
      var obtained := ObtainDocument(uri, embedded, resolution);
      answer := obtained;
      ghost var first := log[|logged|..];
      StartsEmpty(script.Some?, log, log);
      assert logged + first == log;
      StartsOn(script.Some?, logged, first, [], log);
      if obtained.Refused? {
        return Failed(obtained.permanent), answer;
      }
      var document := obtained.document;
      if !policy.Accepts(document, uri) {
        return Failed(true), answer;
      }
      ghost var author, links;
      ghost var second := Here().ActorOpens(Now(), document.post.author);
      r, author, links := ResolvePost(document.post, resolution);
      StartsOn(script.Some?, logged, first, second, log);
    }

    method ObtainDocument(uri: string, embedded: Option<Document>, resolution: Resolution) returns (answer: Fetched)
      requires Valid() && resolution.Valid() && MayBegin(Attempt(AsNote, uri))
      requires uri in resolution.history && uri !in resolution.asked
      requires embedded.Some? && embedded.value.Post? ==> Honest(world, uri, embedded.value)
      modifies this, resolution`asked
      ensures Valid() && Advanced() && held == old(held) && open == old(Opened(Attempt(AsNote, uri)))
      ensures resolution.Valid() && resolution.asked == old(resolution.asked) + if embedded == None then [uri] else []
      ensures answer.Received? && answer.document.Post? ==>
                answer.document.post.uri == uri && answer.document.post.author in world
      ensures embedded.Some? ==> answer == Received(embedded.value)
      ensures embedded == None ==>
                log == old(log) + if policy.Reachable(uri) then [Request(Attempt(AsNote, uri))] else []
      ensures embedded == None && script.Some? ==> answer == Here().Answer(uri) && Now() == old(Now())
    {
      hide WellLinked, AllPinned, AuthorsKnown, Careful, Permitted, Live, MayBegin;
      if embedded.Some? {
        TakeInlined(uri);
        answer := Received(embedded.value);
      } else {
        resolution.asked := resolution.asked + [uri];
        answer := FetchObject(AsNote, uri);
      }
    }

    /** The author first, then the links, and only then is the note stored. */
    method ResolvePost(post: Parsed, resolution: Resolution)
      returns (r: Outcome<Note>, ghost author: Outcome<Actor>, ghost links: Outcome<Links>)
      requires Valid() && resolution.Valid() && post.author in world
      modifies this, resolution
      ensures Valid() && Grew() && resolution.Valid() && resolution.Grew()
      ensures r.Found? ==> r.value in notes && r.value.uri == post.uri
      ensures r == Nothing ==> Tombstone(notes, deleted, post.uri)
      ensures author.Failed? ==> r == Failed(author.permanent)
      ensures author.Found? && links.Failed? ==> r == Failed(links.permanent)
      ensures r.Found? ==> author.Found? && links.Found? && post.author in actors
      ensures Begun(Here().ActorOpens(old(Now()), post.author))
      decreases world - recent, NOTE_RESOLUTION_LIMIT - |resolution.history|, 4
    {
      hide WellLinked, AllPinned, Tombstone, Resolved, Compose, Linked, AuthorsKnown;
      links := Nothing;
      var known := ResolveActor(post.author);
      author := known;
      if known.Failed? {
        return Failed(known.permanent), author, links;
      }
      var targets := ResolveLinks(post.inReplyTo, post.quotes, resolution);
      links := targets;
      if targets.Failed? {
        return Failed(targets.permanent), author, links;
      }
      ComposeLinked(notes, deleted, post, targets.value);
      r := UpsertRemoteNote(Compose(post, targets.value));
      var pollFailed: bool := *;
      if pollFailed {
        r := Failed(false);
      }
    }

    method ResolveLinks(inReplyTo: string, quotes: seq<string>, resolution: Resolution) returns (r: Outcome<Links>)
      requires Valid() && resolution.Valid()
      modifies this, resolution
      ensures Valid() && Grew() && resolution.Valid() && resolution.Grew() && r != Nothing
      ensures r.Found? ==> Resolved(notes, deleted, inReplyTo, quotes, r.value)
      ensures inReplyTo == "" ==> Begun(Here().CandidatesOpen(old(Now()), quotes, old(resolution.history)))
      decreases world - recent, NOTE_RESOLUTION_LIMIT - |resolution.history|, 2
    {
      hide WellLinked, AllPinned, AuthorsKnown, Careful, Permitted, Tombstone, FirstUsable;
      var reply := ResolveNoteValue(inReplyTo, None, resolution);
      if reply.Failed? {
        return Failed(reply.permanent);
      }
      ghost var before, gone := notes, deleted;
      ghost var outcomes;
      var quote;
      quote, outcomes := ResolveQuoteCandidates(quotes, resolution);
      if reply == Nothing && inReplyTo != "" {
        TombstoneLater(before, notes, gone, deleted, inReplyTo);
      }
      if quote.Failed? {
        return Failed(quote.permanent);
      }
      r := Found(Links(if reply.Found? then Some(reply.value) else None,
                       if quote.Found? then Some(quote.value) else None));
    }

    /** Each candidate once, in order, until one is found. */
    method ResolveQuoteCandidates(uris: seq<string>, resolution: Resolution)
      returns (r: Outcome<Note>, ghost outcomes: seq<Outcome<Note>>)
      requires Valid() && resolution.Valid()
      modifies this, resolution
      ensures Valid() && Grew() && resolution.Valid() && resolution.Grew()
      ensures r == FirstUsable(outcomes) && |outcomes| <= |uris|
      ensures r.Found? ==> r.value in notes && r.value.uri in uris
      ensures Begun(Here().CandidatesOpen(old(Now()), uris, old(resolution.history)))
      decreases world - recent, NOTE_RESOLUTION_LIMIT - |resolution.history|, 1
    {
      hide WellLinked, AllPinned, AuthorsKnown, Careful, Permitted, Tombstone;
      hide Live, StartsWith, Setting.Tried, Setting.TriedTo, Setting.CandidatesOpen;
      ghost var start := Stands(resolution);
      Here().TryFirst(uris, start);
      var seen: set<string> := {};
      var temporary := false;
      outcomes := [];
      for k := 0 to |uris|
        invariant Valid() && Grew() && resolution.Valid() && resolution.Grew()
        invariant |outcomes| <= k && forall j :: 0 <= j < |outcomes| ==> !outcomes[j].Found?
        invariant temporary <==> Failed(false) in outcomes
        invariant FirstUsable(outcomes) == if temporary then Failed(false) else Nothing
        invariant Here().TriedTo(k, uris, seen, start, Stands(resolution))
      {
        hide FirstUsable;
        if uris[k] != "" && uris[k] !in seen {
          ghost var before := Stands(resolution);
          var quote := ResolveNoteValue(uris[k], None, resolution);
          Here().TryNext(k, uris, seen, start, before, Stands(resolution), quote);
          seen := seen + {uris[k]};
          FirstUsableAppend(outcomes, quote);
          outcomes := outcomes + [quote];
          if quote.Found? {
            return quote, outcomes;
          }
          temporary := temporary || quote == Failed(false);
        } else {
          Here().TrySkipped(k, uris, seen, start, Stands(resolution));
        }
      }
      Here().TriedAll(uris, seen, start, Stands(resolution));
      r := if temporary then Failed(false) else Nothing;
    }

    // -------------------------------------------------------------- handlers that store notes

    /** A note sent by its author. While its links are resolved nothing but the pins of an author can lead to
        a request for the note itself. */
    method PerformCreate(signer: string, post: Parsed, wellFormed: bool)
      returns (r: Outcome<Note>, ghost asked: seq<string>)
      requires Valid() && signer in actors
      modifies this
      ensures Valid() && Grew()
      ensures r.Found? ==> r.value in notes && r.value.uri == post.uri
      ensures (post.author != signer || policy.authority(signer) != policy.authority(post.uri) ||
               Live(old(notes), old(deleted), post.uri).Some?) ==> r == Nothing && unchanged(this)
      ensures Distinct(asked) && post.uri !in asked
    {
      hide WellLinked, AllPinned, AuthorsKnown, Careful, Permitted, Tombstone, Compose, Resolved, Linked;
      asked := [];
      if post.author != signer || policy.authority(signer) == None ||
         policy.authority(signer) != policy.authority(post.uri)
      {
        return Nothing, asked;
      }
      if Live(notes, deleted, post.uri).Some? || !wellFormed {
        return Nothing, asked;
      }
      var links;
      links, asked := ResolveNoteLinks(post.uri, post.inReplyTo, post.quotes);
      if links.Failed? {
        return Failed(links.permanent), asked;
      }
      var isVote: bool := *;
      if links.value.reply.Some? && isVote {
        return Nothing, asked;
      }
      ComposeLinked(notes, deleted, post, links.value);
      r := UpsertRemoteNote(Compose(post, links.value));
    }

    /** `permitted` stands for the block, visibility and timestamp tests on the target. */
    method PerformAnnounce(signer: string, activityUri: string, targetUri: string, permitted: Note -> bool)
      returns (r: Outcome<Note>)
      requires Valid() && signer in actors
      modifies this
      ensures Valid() && Grew()
      ensures r.Found? ==> r.value in notes && r.value.uri == activityUri
      ensures Live(old(notes), old(deleted), activityUri).Some? || policy.blocked(policy.host(targetUri)) ==>
                r == Nothing && unchanged(this)
    {
      hide WellLinked, AllPinned, AuthorsKnown, Careful, Permitted, Tombstone, Share, Linked;
      if Live(notes, deleted, activityUri).Some? || policy.blocked(policy.host(targetUri)) {
        return Nothing;
      }
      ghost var asked;
      r, asked := ResolveNote(targetUri);
      if !r.Found? {
        return;
      }
      var target := r.value;
      RenotesArePure(notes, deleted, target);
      if (target.renote.Some? && target.body.text == "" && target.inReplyTo == "" && target.body.attachments == 0) ||
         !permitted(target)
      {
        return Nothing;
      }
      ShareLinked(notes, deleted, activityUri, signer, target);
      r := UpsertRemoteNote(Share(activityUri, signer, target));
    }

    /** The note a local post refers to: it must exist and be visible to the author. */
    method ResolveLocalReference(rawUri: string, visible: Note -> bool) returns (r: Outcome<Note>)
      requires Valid()
      modifies this
      ensures Valid() && Grew() && r != Nothing
      ensures r.Found? ==> r.value in notes && visible(r.value) && r.value.uri == TrimSpace(rawUri)
    {
      ghost var asked;
      r, asked := ResolveNote(TrimSpace(rawUri));
      if r == Nothing || (r.Found? && !visible(r.value)) {
        r := Failed(false);
      }
    }

    method CreatePost(uri: string, author: string, body: Body, inReplyTo: string, quoteUri: string,
                      visible: Note -> bool)
      returns (r: Outcome<Note>)
      requires Valid() && author in actors
      modifies this
      ensures Valid() && Grew() && r != Nothing
      ensures r.Found? ==> r.value in notes && r.value.uri == uri && r.value.renote == None
      ensures r.Found? ==> r.value.inReplyTo == TrimSpace(inReplyTo) && r.value.quoteUri == TrimSpace(quoteUri)
      ensures r.Found? ==> (r.value.reply == None <==> TrimSpace(inReplyTo) == "") &&
                           (r.value.quote == None <==> TrimSpace(quoteUri) == "")
    {
      hide WellLinked, AllPinned, AuthorsKnown, Careful, Permitted, Tombstone, Compose, Resolved, Linked, TrimSpace;
      var reply, quote := None, None;
      if TrimSpace(inReplyTo) != "" {
        r := ResolveLocalReference(inReplyTo, visible);
        if r.Failed? {
          return;
        }
        reply := Some(r.value);
      }
      if TrimSpace(quoteUri) != "" {
        r := ResolveLocalReference(quoteUri, visible);
        if r.Failed? {
          return;
        }
        if IsPure(r.value) {
          return Failed(false);
        }
        quote := Some(r.value);
      }
      if exists n <- notes :: n.uri == uri {
        return Failed(false);
      }
      var post := Parsed(uri, author, body, TrimSpace(inReplyTo), if quote.Some? then [TrimSpace(quoteUri)] else []);
      LocalLinks(notes, deleted, post, Links(reply, quote));
      r := Insert(Compose(post, Links(reply, quote)));
    }

    method CreateRenote(uri: string, author: string, renoteId: nat, permitted: Note -> bool) returns (r: Outcome<Note>)
      requires Valid() && author in actors
      modifies this
      ensures Valid() && Grew() && r != Nothing
      ensures r.Found? ==> r.value in notes && r.value.uri == uri && r.value.renote == Some(renoteId)
      ensures renoteId in old(deleted) || !Stored(old(notes), renoteId) ==> r.Failed? && unchanged(this)
    {
      hide WellLinked, AllPinned, AuthorsKnown, Careful, Permitted, Linked, Share;
      if renoteId in deleted || !Stored(notes, renoteId) {
        return Failed(false);
      }
      var k :| 0 <= k < |notes| && notes[k].id == renoteId;
      var target := notes[k];
      RenotesArePure(notes, deleted, target);
      if IsPure(target) || policy.blocked(policy.host(target.uri)) || !permitted(target) ||
         exists n <- notes :: n.uri == uri
      {
        return Failed(false);
      }
      ShareLinked(notes, deleted, uri, author, target);
      r := Insert(Share(uri, author, target));
    }

    method DeleteNote(id: nat)
      requires Valid()
      modifies this`deleted
      ensures Valid() && Grew() && deleted == old(deleted) + {id}
    {
      DeletionLinked(notes, deleted, deleted + {id});
      CarefulLater(notes, deleted + {id}, recent);
      deleted := deleted + {id};
    }

    /** Between calls time passes and fetched actors become stale. */
    method AdvanceClock()
      requires Valid()
      modifies this`recent, this`log
      ensures Valid() && open == old(open) && log == old(log) + [Tick]
    {
      hide WellLinked, AllPinned, AuthorsKnown;
      var still: set<string> := *;
      if locking {
        OrderlyLater(log, notes, deleted, [Tick], notes, deleted);
        AccountedLater(log, open, notes, recent, [Tick], open, notes, recent * still);
      }
      recent, log := recent * still, log + [Tick];
    }

    /** Any run: whatever is received, written and deleted in whatever order, and whatever remote
        servers answer, the note graph stays closed and acyclic, no blocked host is contacted, and with
        locks no object is requested while it is being obtained, nor again once that was of use. */
    method Serve(steps: nat)
      requires Valid()
      modifies this
      ensures Valid()
    {
      for k := 0 to steps
        invariant Valid()
      {
        hide *;
        var choice: nat := *;
        var uri: string, other: string, third: string := *, *, *;
        var post: Parsed := *;
        var body: Body := *;
        var id: nat := *;
        var allowed: bool := *;
        ghost var asked;
        var r;
        match choice % 8 {
          case 0 =>
            if other in actors { r, asked := PerformCreate(other, post, allowed); }
          case 1 =>
            if other in actors { r := PerformAnnounce(other, uri, third, n => allowed); }
          case 2 =>
            if other in actors { r := CreatePost(uri, other, body, third, post.uri, n => allowed); }
          case 3 =>
            if other in actors { r := CreateRenote(uri, other, id, n => allowed); }
          case 4 => r, asked := ResolveNote(uri);
          case 5 => DeleteNote(id);
          case 6 =>
            if uri in world { var actor := ResolveActor(uri); }
          case _ => AdvanceClock();
        }
      }
    }
  }

  // ---------------------------------------------------------------- how scripted runs begin

  /** What decides how a resolution begins: the notes, the actors and the locks there are. */
  datatype View = View(notes: seq<Note>, deleted: set<nat>, known: set<string>, locks: set<string>)

  /** Where a resolution stands. */
  datatype Standing = Standing(view: View, log: seq<Event>, history: set<string>)

  /** The answers of all servers, if they never change and no other worker runs. */
  datatype Setting = Setting(policy: Policy, world: set<string>, locking: bool, answers: Option<string -> Fetched>)
  {
    ghost function Answer(uri: string): Fetched {
      if answers == None || !policy.Reachable(uri) then Refused(false)
      else
        var r := answers.value(uri);
        if r.Received? && !Honest(world, uri, r.document) then Refused(false) else r
    }

    /** While `uri` is worked on. */
    ghost function Locked(v: View, uri: string): View {
      if locking then v.(locks := v.locks + {uri}) else v
    }

    /** The request for a note that is not at hand. */
    ghost function NoteRequest(v: View, uri: string): seq<Event> {
      if uri != "" && policy.Allows(uri) && policy.Reachable(uri) && !policy.ours(uri) &&
         (locking ==> uri !in v.locks) && Live(v.notes, v.deleted, uri) == None
      then [Request(Attempt(AsNote, uri))] else []
    }

    ghost function CollectionOpens(v: View, uri: string): seq<Event> {
      if uri == "" || !policy.Reachable(uri) then []
      else
        var answer := Answer(uri);
        [Request(Attempt(AsCollection, uri))] +
        if answer.Received? && answer.document.Collection? then FirstItem(v, answer.document.items) else []
    }

    ghost function FirstItem(v: View, items: seq<Item>): seq<Event> {
      if items != [] && items[0].Link? then NoteRequest(v, items[0].uri) else []
    }

    ghost function ProfileOpens(v: View, uri: string): seq<Event> {
      if !policy.Reachable(uri) then []
      else
        var answer := Answer(uri);
        [Request(Attempt(AsActor, uri))] +
        if answer.Received? && answer.document.Profile? && answer.document.wellFormed
        then CollectionOpens(v.(known := v.known + {uri}), answer.document.featured) else []
    }

    ghost function ActorOpens(v: View, uri: string): seq<Event> {
      if uri == "" || !policy.Allows(uri) || policy.ours(uri) || uri in v.known || (locking && uri in v.locks) then []
      else ProfileOpens(Locked(v, uri), uri)
    }

    /** A new note is requested, then its author if it is new, then the collection of its pins, then the
        first of those. */
    ghost function NoteOpens(v: View, uri: string): seq<Event> {
      NoteRequest(v, uri) + if NoteRequest(v, uri) != [] then AuthorOpens(Locked(v, uri), uri) else []
    }

    ghost function ReceiptOpens(v: View, uri: string): seq<Event> {
      if policy.Reachable(uri) then [Request(Attempt(AsNote, uri))] + AuthorOpens(v, uri) else []
    }

    ghost function AuthorOpens(v: View, uri: string): seq<Event> {
      var answer := Answer(uri);
      if answer.Received? && policy.Accepts(answer.document, uri) then ActorOpens(v, answer.document.post.author)
      else []
    }

    /** A request for a new note that the server will refuse. */
    ghost predicate Vain(v: View, uri: string) { NoteRequest(v, uri) != [] && Refuses(uri) }

    ghost predicate Refuses(uri: string) { answers.Some? && policy.Reachable(uri) && Answer(uri).Refused? }

    /** Of two new candidates the first is refused, so the second is tried. */
    ghost function CandidatesOpen(v: View, uris: seq<string>, history: set<string>): seq<Event> {
      if |uris| == 2 && uris[0] != uris[1] && uris[0] !in history && uris[1] !in history && |history| < 255 &&
         "" !in uris && Vain(v, uris[0])
      then InVain(uris[0]) + NoteOpens(v, uris[1]) else []
    }

    /** What trying one note does first; if it is refused, that is all. */
    ghost predicate Tried(uri: string, before: Standing, after: Standing, r: Outcome<Note>) {
      uri !in before.history && |before.history| < NOTE_RESOLUTION_LIMIT ==>
        StartsWith(answers.Some?, before.log, NoteOpens(before.view, uri), after.log) &&
        (Vain(before.view, uri) ==>
           r.Failed? && after == Standing(before.view, before.log + InVain(uri), before.history + {uri}))
    }

    /** After the first `k` candidates, of which `seen` were tried. */
    ghost predicate TriedTo(k: nat, uris: seq<string>, seen: set<string>, start: Standing, now: Standing) {
      var opens := CandidatesOpen(start.view, uris, start.history);
        && start.log <= now.log && (k == 0 ==> now == start && seen == {})
        && (k == 1 ==> |uris| > 0 && seen <= {uris[0]})
        && (opens != [] && k == 1 ==>
              now == Standing(start.view, start.log + InVain(uris[0]), start.history + {uris[0]}))
        && (opens == [] || k >= 2 ==> StartsWith(answers.Some?, start.log, opens, now.log))
    }

    lemma TryFirst(uris: seq<string>, start: Standing)
      ensures TriedTo(0, uris, {}, start, start)
    {
      StartsEmpty(answers.Some?, start.log, start.log);
    }

    lemma TryNext(k: nat, uris: seq<string>, seen: set<string>, start: Standing, before: Standing, after: Standing,
                  r: Outcome<Note>)
      requires k < |uris| && TriedTo(k, uris, seen, start, before) && before.log <= after.log
      requires uris[k] != "" && uris[k] !in seen && Tried(uris[k], before, after, r)
      ensures TriedTo(k + 1, uris, seen + {uris[k]}, start, after)
      ensures r.Found? ==>
                StartsWith(answers.Some?, start.log, CandidatesOpen(start.view, uris, start.history), after.log)
    {
      var opens := CandidatesOpen(start.view, uris, start.history);
      if opens == [] {
        StartsEmpty(answers.Some?, start.log, after.log);
      } else if k == 1 {
        StartsOn(answers.Some?, start.log, InVain(uris[0]), NoteOpens(start.view, uris[1]), after.log);
      } else if k >= 2 {
        StartsLater(answers.Some?, start.log, opens, before.log, after.log);
      }
    }

    lemma TrySkipped(k: nat, uris: seq<string>, seen: set<string>, start: Standing, now: Standing)
      requires k < |uris| && TriedTo(k, uris, seen, start, now) && (uris[k] == "" || uris[k] in seen)
      ensures TriedTo(k + 1, uris, seen, start, now)
    {
    }

    lemma TriedAll(uris: seq<string>, seen: set<string>, start: Standing, now: Standing)
      requires TriedTo(|uris|, uris, seen, start, now)
      ensures StartsWith(answers.Some?, start.log, CandidatesOpen(start.view, uris, start.history), now.log)
    {
    }
  }

  predicate StartsWith(scripted: bool, before: seq<Event>, opening: seq<Event>, log: seq<Event>) {
    scripted ==> before + opening <= log
  }

  /** A note is requested in vain. */
  function InVain(uri: string): seq<Event> {
    [Request(Attempt(AsNote, uri)), End(Attempt(AsNote, uri), false)]
  }

  lemma Unscripted()
    ensures forall before, opening, log :: StartsWith(false, before, opening, log)
  {
  }

  lemma StartsOn(scripted: bool, before: seq<Event>, first: seq<Event>, rest: seq<Event>, log: seq<Event>)
    requires StartsWith(scripted, before + first, rest, log)
    ensures StartsWith(scripted, before, first + rest, log) && StartsWith(scripted, before, first, log)
  {
    assert before + (first + rest) == before + first + rest;
  }

  lemma StartsFirst(scripted: bool, before: seq<Event>, first: seq<Event>, rest: seq<Event>, log: seq<Event>)
    requires StartsWith(scripted, before, first + rest, log)
    ensures StartsWith(scripted, before, first, log)
  {
    assert before + (first + rest) == before + first + rest;
  }

  lemma StartsLater(scripted: bool, before: seq<Event>, opening: seq<Event>, log: seq<Event>, more: seq<Event>)
    requires StartsWith(scripted, before, opening, log) && log <= more
    ensures StartsWith(scripted, before, opening, more)
  {
  }

  lemma StartsEmpty(scripted: bool, before: seq<Event>, log: seq<Event>)
    requires before <= log
    ensures StartsWith(scripted, before, [], log)
  {
    assert before + [] == before;
  }

  // ---------------------------------------------------------------- runs that request a note twice

  const OPEN_POLICY := Policy(uri => true, uri => "host", host => false, uri => false, uri => Some("host"),
                              (a, b) => true, uri => true, uri => "host")

  function PostBy(uri: string, author: string): Document {
    Post(Parsed(uri, author, Body("", false, 0), "", []), true)
  }

  /** The author of `note` pins `pin`; nothing else is served. */
  function Pinning(note: string, pin: string): string -> Fetched {
    uri =>
      if uri == note then Received(PostBy(note, "author"))
      else if uri == "author" then Received(Profile("author", "pins", true))
      else if uri == "pins" then Received(Collection([Link(pin)]))
      else Refused(true)
  }

  function Opening(note: string, pin: string): seq<Event> {
    [Request(Attempt(AsNote, note)), Request(Attempt(AsActor, "author")), Request(Attempt(AsCollection, "pins")),
     Request(Attempt(AsNote, pin))]
  }

  /** How obtaining such a note begins on a server that knows nothing yet. */
  lemma OpensWithPin(here: Setting, view: View, note: string, pin: string)
    requires here.policy == OPEN_POLICY && here.world == {"author"} && here.answers == Some(Pinning(note, pin))
    requires view == View([], {}, {}, {}) && note !in ["", "author", "pins"] && pin !in ["", "author", "pins"]
    requires here.locking ==> pin != note
    ensures here.NoteRequest(view, note) == [Request(Attempt(AsNote, note))]
    ensures here.NoteOpens(view, note) == Opening(note, pin)
  {
    var locked := here.Locked(view, note);
    assert here.ActorOpens(locked, "author") == here.ProfileOpens(here.Locked(locked, "author"), "author");
    var inner := here.Locked(locked, "author");
    assert here.ProfileOpens(inner, "author") ==
           [Request(Attempt(AsActor, "author"))] + here.CollectionOpens(inner.(known := {"author"}), "pins");
    assert here.AuthorOpens(locked, note) == here.ActorOpens(locked, "author");
  }

  /** Without locks a note whose author pins it is requested again while the first attempt is open. */
  method RequestedWhileOpen() returns (server: Federation)
    ensures server.Valid() && !server.locking
    ensures Opening("note", "note") <= server.log && !Orderly(server.log, server.notes, server.deleted)
  {
    hide *;
    server := new Federation(OPEN_POLICY, {"author"}, false, Some(Pinning("note", "note")));
    OpensWithPin(server.Here(), FirstView(server), "note", "note");
    ghost var asked;
    var r;
    r, asked := server.ResolveNote("note");
    FromTheStart(Opening("note", "note"), server.log);
    NotOrderly(server.log, server.notes, server.deleted, "note");
  }

  ghost function FirstView(server: Federation): (v: View)
    reads server
    ensures v == server.Now()
    ensures server.notes == [] && server.deleted == {} && server.actors == map[] && server.held == {} ==>
              v == View([], {}, {}, {})
  {
    server.Now()
  }

  lemma FromTheStart(opening: seq<Event>, log: seq<Event>)
    requires StartsWith(true, [], opening, log)
    ensures opening <= log
  {
    assert [] + opening == opening;
  }

  lemma NotOrderly(log: seq<Event>, notes: seq<Note>, deleted: set<nat>, uri: string)
    requires Opening(uri, uri) <= log
    ensures !Orderly(log, notes, deleted)
  {
    var a := Attempt(AsNote, uri);
    var opening := Opening(uri, uri);
    assert log[0] == opening[0] && log[1] == opening[1] && log[2] == opening[2] && log[3] == opening[3];
    assert Begins(log[0], a) && Begins(log[3], a) && !InOrder(log, 0, 3, a, a, notes, deleted);
  }

  /** With locks a pin requests once more what was refused before: of two candidates for a quote the first
      is refused, and the author of the second pins it. */
  method RetriedByAPin() returns (server: Federation)
    ensures server.Valid() && server.locking
    ensures InVain("gone") + Opening("note", "gone") <= server.log
  {
    hide *;
    server := new Federation(OPEN_POLICY, {"author"}, true, Some(Pinning("note", "gone")));
    OpensWithPin(server.Here(), FirstView(server), "note", "gone");
    OpensAfterRefusal(server.Here(), FirstView(server), "gone", "note");
    ghost var asked;
    var links;
    links, asked := server.ResolveNoteLinks("root", "", ["gone", "note"]);
    FromTheStart(InVain("gone") + Opening("note", "gone"), server.log);
  }

  lemma OpensAfterRefusal(here: Setting, view: View, gone: string, note: string)
    requires here.policy == OPEN_POLICY && here.answers == Some(Pinning(note, gone)) && view == View([], {}, {}, {})
    requires gone !in ["", "author", "pins", "root", note] && note !in ["", "root"]
    ensures here.CandidatesOpen(view, [gone, note], {"root"}) ==
            InVain(gone) + here.NoteOpens(view, note)
  {
    assert here.Answer(gone) == Refused(true);
    assert here.NoteRequest(view, gone) != [];
  }

  function Kept(existing: Option<Actor>, permanent: bool): Outcome<Actor> {
    if existing.Some? then Found(existing.value) else Failed(permanent)
  }

  lemma {:induction false} DistinctWithin(values: seq<string>, all: set<string>)
    requires Distinct(values) && forall k :: 0 <= k < |values| ==> values[k] in all
    ensures |values| <= |all|
  {
    if values != [] {
      var n := |values| - 1;
      DistinctWithin(values[..n], all - {values[n]});
    }
  }
}
