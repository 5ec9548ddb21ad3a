# Verified models of an ActivityPub server

This project models the parts of the server that are state machines, protocols, recursion or
print-and-parse logic, and proves properties of the models in Dafny 4.11. `dafny verify dfyconfig.toml`
checks all of it.

| file | what it models |
|---|---|
| `Text.dfy` | the string functions of the standard library the other files use |
| `Html.dfy`, `MfmDocument.dfy`, `Mfm.dfy`, `MfmLoops.dfy` | rendering the MFM text of notes to HTML |
| `Resolver.dfy` | resolving remote actors and notes, and the handlers that store notes |
| `Paging.dfy` | keyset pagination, which the next models loop over |
| `Relationships.dfy` | follows, blocks and account moves |
| `FanOut.dfy` | delivering one activity to many inboxes |
| `Lifecycle.dfy` | suspending, resuming and deleting local actors while deliveries are queued |
| `Receipts.dfy` | processing an inbox activity once |
| `Migration.dfy` | the migration of identifiers |
| `ActorCache.dfy` | the cached actor repository |
| `Signature.dfy` | HTTP signature headers and signing strings |
| `RateLimit.dfy` | the two rate limiters |
| `Questions.dfy` | audiences and polls, rendered and parsed |

## How the models are made

Code that changes state is a class whose methods loop and update fields as the source does, each proved
against a specification on values; the properties over many calls are lemmas about those values, or
invariants (`Valid`) that every method keeps. The methods named `Serve` run arbitrary handlers with
arbitrary arguments and so state the invariants for every reachable state. A value chosen with `*` is
the environment's: an answer of a remote server, another worker, a failure, a lost response, the passing
of time.

**Rendering.** The renderer never builds a syntax tree; the proof shows that it behaves as if it did.
Every construct is matched with a node of a tree that has a source, a print and a reading, and the HTML
is checked by an independent reader: a push-down automaton that takes the output one character at a time
and rejects unknown or unbalanced elements, unknown entities, bare quotes and ampersands, and links that
are not http or https. Strings are sequences of code points; every delimiter is ASCII, so for valid
UTF-8 positions here and byte offsets there name the same places. The base URL is taken without its
trailing slashes. URL parsing, URL escaping, case mapping and time formatting are functions of the
environment with the laws in `Env.Lawful`. The accepted endings of a search line are matched without
regard to ASCII case. One result goes against expectation: a host after two at signs is a mention that
names no user (`MentionOfNobody`).

**Resolving.** A server names a document by the URI it serves it at, and remote notes name finitely many
actors (`Honest`); otherwise its answers are arbitrary and may differ every time, and other workers may
store, refresh, suspend and delete at every lock and every fetch. Time stands still within one call, so a
lock does not expire while the call holds it. The measure is lexicographic: the actors not fetched lately,
then what is left of the 256 URIs of one resolution. Pinned notes are resolved with an empty history of
their own, so the history alone does not keep a call from requesting a note twice. What does is the lock
on each object: one log of everything that is requested, begun and ended (`Orderly`) shows that with locks
a URI is never requested while it is being obtained, and a second time only after an attempt that was of
no use (`SecondRequest`). Both conditions are needed: without locks a note is requested twice
(`RequestedWhileOpen`), and with them a failed attempt is repeated (`RetriedByAPin`). Those two runs fix the
answers of all servers (`script`). The collection an actor pins is requested without the test on blocked
hosts that actors and notes pass; that no blocked host is contacted rests on the client. Notes may be
deleted at any time; a link then still names a stored document.

**Relationships.** Each handler is one step, and the signer of an inbox activity is remote. Consent is
stated on a log of approvals, signed acceptances, moves and ends: the accepted follows are exactly those
consented to since they last began (`Consented`), where a move passes on the consent to the follow it
carries over and counts only with what both servers say of it. An approval precedes the test that the
followee is local and is consent exactly if it is (`ApproveFollow`); commands name an actor of the account
as followee, so the other case (`ApprovedForRemote`) does not occur in `Serve`. Three results go against
expectation: a move to a local account that follows the moving account makes it follow itself
(`MoveToOwnFollower`, `MovedToFollower`); a single follower who has blocked the destination, or a
destination without an inbox, fails the move for every follower that comes after
(`MigrateLocalFollowers`); and a follower whose two stored inboxes are empty counts as reached, so that a
mention does not reach it either (`FanOut.MentionIsLost`).

**Receipts.** Tokens are random and never repeat. Nothing is assumed of clocks: the statements compare
the times the operations were given. Tokens may be used for completing and releasing at any time and any
number of times, which covers lost answers and retries.

**Lifecycle.** Ids of suspensions hold milliseconds, which is also what the store keeps. Actor URIs are
stored without surrounding space, and no actor is suspended twice in the same millisecond. The order of
enqueueing and changing state is that of the source, and every single step keeps the invariants, so they
hold for commands that are interrupted between two steps or run concurrently. Every attempt counts as a
delivery, whether or not the remote server answers.

**Migration.** The plan may visit ids in any order; the updates and the cursor likewise. Where the program
draws random ids until one is unused, the model takes any unused one; that there is one is what bounds the
number of values (`NewMappings`, `PlanNeedsRoom`). One result goes
against expectation: where an id was in use both as a text and as an object id, the old id finds both
documents afterwards (`OldIdIsUnambiguous`).

**Cache.** Hashing of cache keys and encoding of entries are taken to be faithful and the store to be
reliable; `LostInvalidation` says what reliability is needed for.

**Limits and polls.** The counter of the second limiter lives for the window cut to whole milliseconds, so
a window below one limits nothing (`WindowLimiter.Burst`). The end of a poll travels in whole seconds of
years of four digits (`LocalPollRoundTrip`); a poll may be given a later end all the same, and other
servers running this program then refuse it (`LatePollIsLost`).

## Model

| member | source | states |
|---|---|---|
| `Mfm.RenderingIsFaithful` | internal/mfm/render.go:58-117 | for every input there is a document, nested at most 20 deep, whose source is exactly the input and whose print is the output; a strict reader of the output sees that document: balanced known elements, no input character unescaped, links only to http or https |
| `Mfm.SimpleTextIsRecovered` | internal/mfm/render.go:58-117 | without advanced syntax and carriage returns the visible text is the input, up to zero-width spaces around emoji codes (a name of letters, digits, _, + and - between colons) and brackets around a URL |
| `Mfm.PlainTextIsExact` | internal/mfm/render.go:416-421 | without colons as well, the visible text is the input, character for character |
| `Mfm.RenderDoc` | internal/mfm/render.go:58-117 | the renderer behaves as if it built a syntax tree: a witness tree whose source is the input and whose print is the output, at every nesting depth |
| `Mfm.NextPiece` | internal/mfm/render.go:64-115 | one step of the main loop consumes at least one character and no more than are left |
| `Mfm.NextCandidate` | internal/mfm/render.go:427-435 | the next place to try lies within the input, and nothing before it could start a construct |
| `Mfm.BracketMatches` | internal/mfm/render.go:437-451 | the position found is that of the first closing bracket that leaves more closed than opened; there is none exactly if no prefix does |
| `Mfm.BareUrlIsLongest` | internal/mfm/render.go:453-484 | a bare URL is the longest run of URL characters in which no bracket is closed before it is opened, without the full stops and commas at its end |
| `Mfm.MentionIsAccount` | internal/mfm/render.go:486-525 | what is found is an account with or without a host, as long as it can be but for dots and dashes at its end |
| `Mfm.MentionOfNobody` | internal/mfm/render.go:490-513 | a host after two at signs is a mention without a user |
| `Mfm.HashtagEnd` | internal/mfm/render.go:531-541 | a hashtag ends within the input |
| `Mfm.BlockCodeDoc` | internal/mfm/render.go:289-315 | a code block is fences and contents of exactly the consumed input, the contents escaped |
| `Mfm.MathBlockDoc` | internal/mfm/render.go:317-330 | a math block stands for exactly the consumed input |
| `Mfm.CenterDoc` | internal/mfm/render.go:332-342 | a centred block stands for exactly the consumed input, its contents rendered one level deeper |
| `Mfm.QuoteDoc` | internal/mfm/render.go:344-377 | a quotation is lines that each start with the marker; their rest, joined, is what is rendered inside |
| `Mfm.SearchDoc` | internal/mfm/render.go:379-393 | a search line is a query and one of the accepted endings |
| `Mfm.StyledDoc` | internal/mfm/render.go:129-177 | a styled span is delimiter, contents and delimiter, tried in the order of the source; the contents are rendered one level deeper |
| `Mfm.InlineCodeDoc` | internal/mfm/render.go:178-187 | inline code and formulas keep their contents on one line and escape them |
| `Mfm.LinkDoc` | internal/mfm/render.go:188-205 | a link is caption and address; an address that is not allowed is shown as text |
| `Mfm.FunctionDoc` | internal/mfm/render.go:206-218 | a function call stands for exactly the consumed input up to its matching bracket |
| `Mfm.FormDoc` | internal/mfm/render.go:265-287 | time, ruby and other functions become the element their name and contents call for, else italics |
| `Mfm.InlineTokenDoc` | internal/mfm/render.go:219-261 | URLs, mentions, hashtags and emoji codes stand for exactly the consumed input |
| `MfmDocument.ReadDocument` | internal/mfm/render.go:58-117 | the print of every well-formed document is accepted by the reader, whatever elements are open around it, and read as that document |
| `MfmDocument.SimpleDocumentShows` | internal/mfm/render.go:219-261 | what a reader is shown of a simple document |
| `Html.RunEscaped` | internal/mfm/render.go:49-51 | escaped text is read back as the characters it was made of and nothing else |
| `Html.DecodeEscaped` | internal/mfm/render.go:49-51 | unescaping undoes escaping |
| `Html.RunRenderText` | internal/mfm/render.go:416-421 | rendered text is read as its characters, with line ends as line breaks |
| `Html.CarriageReturnsGone` | internal/mfm/render.go:416-421 | the two replacement passes together turn every CRLF and every lone CR into one line end |
| `MfmLoops.RenderLoop` | internal/mfm/render.go:58-117 | the loop over the builder computes the specified rendering |
| `MfmLoops.QuoteLoop` | internal/mfm/render.go:344-377 | the loop over the lines computes the contents and length of the quotation |
| `MfmLoops.FenceLoop` | internal/mfm/render.go:289-315 | the loop finds the first closing fence |
| `MfmLoops.BareUrlLoop` | internal/mfm/render.go:453-484 | the loop over brackets computes the end of the URL |
| `MfmLoops.MentionLoop` | internal/mfm/render.go:486-521 | the loops over user name and host compute the end of the mention |
| `MfmLoops.HashtagLoop` | internal/mfm/render.go:531-541 | the loop computes the end of the hashtag |
| `Resolver.Federation.ResolveActor` | internal/activitypub/resolver/resolver.go:119-148 | blocked, suspended and unknown local actors fail and fresh ones are returned, all without any request; the recursion through pinned notes ends |
| `Resolver.Federation.AttemptActor` | internal/activitypub/resolver/resolver.go:149-172 | under the lock of the actor, if there are locks, and only if it is still stale |
| `Resolver.Federation.RefreshActor` | internal/activitypub/resolver/resolver.go:173-213 | a refusal or malformed profile leaves what was known; else the actor is stored as just fetched, with the new pins if they resolve and the old ones if not |
| `Resolver.Federation.StoreActor` | internal/activitypub/resolver/resolver.go:200-213 | the actor is stored before its pins are resolved and again with them if that succeeds |
| `Resolver.Federation.ResolveFeaturedNotes` | internal/activitypub/resolver/resolver.go:219-267 | the pins are the notes the first five members resolve to, each once, in order, all of them stored; the collection is requested wherever the profile points, which the client alone checks |
| `Resolver.Federation.ResolveMembers` | internal/activitypub/resolver/resolver.go:235-266 | the first five members are resolved one after the other, and one that fails fails them all |
| `Resolver.Federation.ResolveMember` | internal/activitypub/resolver/resolver.go:248-253 | an inlined object counts only if it is of the origin of the collection; what is found is stored under the URI of the member |
| `Resolver.Federation.ResolveNote` | internal/activitypub/resolver/resolver.go:269-271 | a note that is found is stored and has the requested URI; at most 256 URIs are requested under its own history and none twice; what its author's pins request meanwhile stays in order with it |
| `Resolver.Federation.ResolveNoteLinks` | internal/activitypub/resolver/resolver.go:273-284 | links are resolved without requesting the note they belong to under this history, and no URI is requested twice under it |
| `Resolver.Federation.ResolveNoteValue` | internal/activitypub/resolver/resolver.go:306-348 | a known note is returned as it is; a URI that is blocked, already tried, or one too many fails without any request; the history only grows and never exceeds 256 |
| `Resolver.Federation.AttemptNote` | internal/activitypub/resolver/resolver.go:338-348 | under the lock of the note, if there are locks, and only if it is still unknown |
| `Resolver.Federation.AcquireObjectLock` | internal/activitypub/resolver/resolver.go:518-540 | a lock is never given to a call that holds it already: waiting for it ends without it |
| `Resolver.Federation.FetchObject` | internal/activitypub/client/client.go:75-119 | every request that is sent is logged, and none goes to a URL the client refuses |
| `Resolver.BeginsInOrder` | internal/activitypub/resolver/resolver.go:338-355 | an attempt that begins under a lock, for something not at hand, follows the end of every earlier one for its URI and repeats none that was of use |
| `Resolver.SecondRequest` | internal/activitypub/resolver/resolver.go:306-408 | with locks a note is requested a second time only after an attempt ended without storing it, or after it was deleted |
| `Resolver.RequestedWhileOpen` | internal/activitypub/resolver/resolver.go:518-521 | without locks a note whose author pins it is requested again while the first attempt is open |
| `Resolver.RetriedByAPin` | internal/activitypub/resolver/resolver.go:219-267 | with locks a pin requests again what an earlier candidate was refused |
| `Resolver.Federation.ReceiveNote` | internal/activitypub/resolver/resolver.go:350-364 | an inlined object is not requested again; anything but a well-formed post of the requested host fails for good |
| `Resolver.Federation.ResolvePost` | internal/activitypub/resolver/resolver.go:365-408 | a failing author or link fails the note; a note is stored only after its author and its links |
| `Resolver.Federation.ResolveLinks` | internal/activitypub/resolver/resolver.go:464-474 | the reply is a stored note with the URI given, or was and is deleted; the quote is a stored candidate |
| `Resolver.Federation.ResolveQuoteCandidates` | internal/activitypub/resolver/resolver.go:476-496 | the outcome is that of the first candidate found, else the first failure that may pass, else nothing |
| `Resolver.FirstUsableAppend` | internal/activitypub/resolver/resolver.go:482-495 | one more candidate changes the outcome exactly as the loop says |
| `Resolver.Federation.UpsertRemoteNote` | internal/store/mongo/notes.go:170-196 | a document with the URI is left alone, live or deleted; else exactly one note is added |
| `Resolver.Federation.PerformCreate` | internal/activitypub/worker/inbox_notes.go:18-129 | a note not by its signer, of another authority or already known changes nothing; the note itself is not requested under the history of its links |
| `Resolver.Federation.PerformAnnounce` | internal/activitypub/worker/inbox_actions.go:198-289 | an announce is stored under its own URI and shares a stored note that is no renote |
| `Resolver.Federation.ResolveLocalReference` | internal/activitypub/worker/posts.go:188-208 | a reference is a stored note the author may see, or an error |
| `Resolver.Federation.CreatePost` | internal/activitypub/worker/posts.go:25-186 | a post has a reply and a quote exactly if they were asked for |
| `Resolver.Federation.CreateRenote` | internal/activitypub/worker/posts.go:210-269 | a renote shares the live note with that id |
| `Resolver.Federation.Serve` | internal/activitypub/resolver/resolver.go:119-408 | over any run, with any answers of remote servers and other workers in between, every invariant holds: links closed and backwards, ids and URIs unique, authors and pins stored; no blocked host is contacted, and no forbidden actor or note requested; with locks, attempts for one URI never overlap and none repeats one that was of use |
| `Resolver.GraphIsClosed` | internal/activitypub/resolver/resolver.go:371-391 | every reply, quote and renote id is the id of exactly one stored note, which was stored before |
| `Resolver.GraphIsAcyclic` | internal/activitypub/resolver/resolver.go:371-391 | no path of replies, quotes and renotes visits a note twice |
| `Resolver.RenoteIsOneHop` | internal/activitypub/worker/inbox_actions.go:243-251 | what a renote shares is itself no renote |
| `Paging.FullPage` | internal/store/mongo/follows.go:243-264 | a full page moves the cursor forward and everything up to the new cursor was returned exactly once |
| `Paging.Fetch` | internal/store/mongo/follows.go:243-264 | a page is the smallest ids beyond the cursor, in order |
| `Paging.ListAll` | internal/activitypub/worker/relationships.go:491-508 | appending pages lists every document once and ends, also when the last page is full |
| `Relationships.RefollowKeepsAcceptance` | internal/store/mongo/follows.go:81-87 | requesting a follow again never demotes an accepted one |
| `Relationships.DeletionForgetsAcceptance` | internal/store/mongo/follows.go:62-153 | a deleted follow comes back pending, without its time of acceptance |
| `Relationships.CarriedKeeps` | internal/activitypub/worker/relationships.go:217-230 | the unchecked follow between local actors in a move is safe because no block joins two local actors |
| `Relationships.ApprovalIsConsent` | internal/store/mongo/follows.go:122-137 | approving a pending follow leaves exactly the consented follows accepted if and only if the followee is local |
| `Relationships.Handler.EnqueueOutgoingFollow` | internal/activitypub/worker/relationships.go:60-124 | refused for a blocked pair, nothing to do when accepted, else pending with the request enqueued; nothing else changes |
| `Relationships.Handler.CreateFollow` | internal/activitypub/worker/relationships.go:21-38 | only an active local actor can follow, and only a remote one |
| `Relationships.Handler.PerformFollow` | internal/activitypub/worker/relationships.go:637-693 | a signed follow of an active local actor becomes pending unless blocked or already accepted |
| `Relationships.Handler.FinishOutgoingFollow` | internal/activitypub/worker/relationships.go:552-605 | only the followee can answer, only a pending follow and only under its activity id |
| `Relationships.Handler.ApproveFollow` | internal/activitypub/worker/relationships.go:695-763 | a live follow becomes accepted unless the pair is blocked; the answer is sent exactly if the followee is local and active and an inbox is stored; acceptance rests on consent afterwards exactly if the followee is local, the pair blocked or nothing pending |
| `Relationships.ApprovedForRemote` | internal/activitypub/worker/relationships.go:695-721 | a pending follow of a remote account, approved, is accepted without consent |
| `Relationships.Handler.RejectFollow` | internal/activitypub/worker/relationships.go:765-832 | a pending follow ends and the rejection is sent |
| `Relationships.Handler.RejectAndBlockFollow` | internal/activitypub/worker/relationships.go:834-867 | the follow ends and the follower is blocked by the whole account; without an inbox of the follower now, the follow ends all the same and the command fails |
| `Relationships.Handler.DeleteFollow` | internal/activitypub/worker/relationships.go:269-348 | a live follow ends and its Undo is sent |
| `Relationships.Handler.PerformUndoFollow` | internal/activitypub/worker/inbox_actions.go:519-571 | only the follower can undo a follow |
| `Relationships.Handler.PerformUndoAccept` | internal/activitypub/worker/inbox_actions.go:573-624 | taking back an acceptance ends the follow |
| `Relationships.Handler.AccountBlockers` | internal/activitypub/worker/relationships.go:484-509 | every actor of the account, each once |
| `Relationships.Handler.CreateBlock` | internal/activitypub/worker/relationships.go:350-421 | every actor of the account blocks, both directions of follow end for them and for no one else, and each active one announces it once |
| `Relationships.Handler.DeleteBlock` | internal/activitypub/worker/relationships.go:423-482 | the blocks of the whole account are lifted, an error exactly if there was none, and each lifted one of an active actor is announced once |
| `Relationships.Handler.PerformBlock` | internal/activitypub/worker/inbox_actions.go:23-66 | a signed block of an active local actor takes force and ends both follows |
| `Relationships.Handler.PerformUndoBlock` | internal/activitypub/worker/inbox_actions.go:728-758 | only the blocker can lift a block |
| `Relationships.Handler.CarryOver` | internal/activitypub/worker/relationships.go:217-232 | one follower is carried over exactly if the destination is local or the request is possible |
| `Relationships.Handler.MigratePage` | internal/activitypub/worker/relationships.go:206-235 | one page of followers is carried over up to the first that cannot be |
| `Relationships.Handler.MigrateLocalFollowers` | internal/activitypub/worker/relationships.go:194-242 | paging ends while the table grows; the move succeeds exactly if none of the followers to be carried is stuck, and then exactly those gained a live follow, accepted if the destination is local, counted once each; else exactly the followers before the first one stuck were carried over; the follows of the source are unchanged |
| `Relationships.Handler.PerformMove` | internal/activitypub/worker/relationships.go:126-166 | a move is carried out exactly if both sides can be asked and confirm it; a server that cannot be asked is an error, a refused move is dropped |
| `Relationships.MoveAgain` | internal/activitypub/worker/relationships.go:194-242 | receiving the same move again follows nobody new |
| `Relationships.MoveToOwnFollower` | internal/activitypub/worker/relationships.go:217-230 | the destination ends up following itself exactly if it was a local follower of the source or did so before |
| `Relationships.MovedToFollower` | internal/activitypub/worker/relationships.go:126-242 | a run in which an account moves to its local follower, which then follows itself |
| `Relationships.Handler.Serve` | internal/activitypub/worker/relationships.go:60-867 | over any run of handlers a block in force excludes a follow, blocks join a local and a remote actor, acceptance is dated, and the accepted follows are exactly those consented to since they last began: by the local followee, by the signature of the remote one, or by a move that both its servers confirm of a source whose follow was consented to |
| `Receipts.ReceiptStore.Claim` | internal/store/mongo/activity_receipts.go:44-107 | granted exactly if there is no receipt or a lease of the same actor is over; an id of another actor is an error |
| `Receipts.ReceiptStore.Complete` | internal/store/mongo/activity_receipts.go:109-130 | takes effect exactly under the current token |
| `Receipts.ReceiptStore.Release` | internal/store/mongo/activity_receipts.go:132-141 | removes exactly a receipt that is being processed under the token |
| `Receipts.ReceiptStore.ProcessInbox` | internal/activitypub/worker/worker.go:736-779 | an activity is performed only under an own claim; success means an own completion; losses and other workers may come at any point |
| `Receipts.ReceiptStore.PerformClaimed` | internal/activitypub/worker/worker.go:760-787 | success is reported only after the receipt was completed under the token |
| `Receipts.LeasesNeverOverlap` | internal/store/mongo/activity_receipts.go:44-107 | a later claim of an activity means the earlier holder gave up, its lease was over, or its receipt was purged |
| `Receipts.NoReclaimBeforeRetention` | internal/store/mongo/activity_receipts.go:109-130 | a completed activity is claimed again only after a purge no earlier than its claim plus the retention |
| `Receipts.StaleHolderIsPowerless` | internal/store/mongo/activity_receipts.go:109-141 | after a successor claims, the earlier token completes and releases nothing |
| `Receipts.CompletedAtMostOnce` | internal/store/mongo/activity_receipts.go:109-130 | between two completions of an activity its receipt was purged after the retention, and the tokens differ |
| `Receipts.OneEnd` | internal/activitypub/worker/worker.go:768-777 | a claim ends in one way: a release after a completion whose answer was lost removes nothing |
| `Receipts.ClaimStands` | internal/store/mongo/activity_receipts.go:44-107 | until its lease has ended, a claim is held or completed |
| `Receipts.CompletionStands` | internal/store/mongo/activity_receipts.go:109-130 | a completion stands until the purge |
| `FanOut.Deliveries.DeliverNote` | internal/activitypub/worker/posts.go:800-887 | the inboxes enqueued are exactly those computed in one pass, each once; the delivery fails exactly if an actor that is named cannot be resolved |
| `FanOut.Deliveries.EnqueuePages` | internal/activitypub/worker/posts.go:807-857 | over all pages exactly the admitted relationships are addressed, also when the last page is full |
| `FanOut.Deliveries.Enqueue` | internal/activitypub/worker/posts.go:889-905 | an inbox is enqueued unless empty or already enqueued |
| `FanOut.Deliveries.DeliverSpecified` | internal/activitypub/worker/posts.go:760-794 | exactly the inboxes of the permitted recipients, each once, or failure if one of them has none |
| `FanOut.Deliveries.DeliverLifecycle` | internal/activitypub/worker/actor_commands.go:383-450 | a lifecycle activity reaches exactly the active remote ends of relationships in both directions, each inbox once |
| `FanOut.FollowerIsCovered` | internal/activitypub/worker/posts.go:826-848 | every active remote follower with an inbox is covered unless its host or the pair is blocked |
| `FanOut.OwnInboxIsCovered` | internal/activitypub/worker/posts.go:858-886 | a permitted direct recipient is sent the note to its own inbox exactly if it does not count as reached or somebody else is sent it there |
| `FanOut.ReachedIsCovered` | internal/activitypub/worker/posts.go:845-849 | a recipient that counts as reached is covered through a follow unless both inboxes stored with it are empty |
| `FanOut.MentionIsLost` | internal/activitypub/worker/posts.go:845-849 | a mention of a follower with an inbox whose two stored inboxes are empty reaches nobody |
| `FanOut.NothingElse` | internal/activitypub/worker/posts.go:800-887 | nobody but admitted followers and permitted recipients is addressed |
| `Lifecycle.SuspensionAtGate` | internal/activitypub/worker/worker.go:557-579 | the Delete of a suspension passes exactly while the actor is suspended since that time, and waits exactly while it is not suspended |
| `Lifecycle.UnsuspensionAtGate` | internal/activitypub/worker/worker.go:557-579 | its Undo passes exactly while the actor is not suspended, and waits exactly while that suspension is in force |
| `Lifecycle.DeletionAtGate` | internal/activitypub/worker/worker.go:557-579 | the final Delete is held back only by a suspension |
| `Lifecycle.OrdinaryAtGate` | internal/activitypub/worker/worker.go:557-579 | anything else is dropped exactly while the actor is suspended |
| `Lifecycle.SuspensionIdIsInjective` | internal/activitypub/actors/render.go:300-302 | ids of different suspensions differ |
| `Lifecycle.DeleteIdIsNoSuspension` | internal/activitypub/actors/render.go:272-302 | the id of the final Delete is no id of a suspension |
| `Lifecycle.DeletedSendsDelete` | internal/activitypub/worker/worker.go:557-579 | a deleted actor sends its final Delete and nothing else |
| `Lifecycle.Server.HandleDeliverTask` | internal/activitypub/worker/worker.go:545-634 | what is delivered passed the gate as the actor is now; waiting tasks stay, dropped ones go |
| `Lifecycle.Server.SetSuspended` | internal/store/mongo/actors.go:290-321 | a deleted actor and one already in the requested state are left alone |
| `Lifecycle.Server.MarkDeleted` | internal/store/mongo/actors.go:262-288 | deletion happens once |
| `Lifecycle.Server.DeleteActor` | internal/activitypub/worker/actor_commands.go:266-307 | an owned actor is marked deleted before its Delete is enqueued, once for each inbox its relationships reach; one already deleted stays as it is and its Delete is enqueued again; any other is an error |
| `Lifecycle.Server.SuspendActor` | internal/activitypub/worker/actor_commands.go:360-374 | the Delete that is enqueued carries the very time the suspension gets |
| `Lifecycle.Server.ResumeActor` | internal/activitypub/worker/actor_commands.go:336-358 | the Undo that is enqueued names the suspension that ends |
| `Lifecycle.Server.ApplyAccountLifecycle` | internal/activitypub/worker/actor_commands.go:309-381 | every owned actor that is not deleted is visited once although the listing shrinks while it is paged; all of them reach the goal, the count is that of the changed ones, and each announces its change once to each inbox its relationships reach |
| `Lifecycle.Server.Enqueue` | internal/activitypub/worker/actor_commands.go:383-450 | exactly the inboxes the two paged loops find get the activity, each once |
| `Lifecycle.Server.Serve` | internal/activitypub/worker/worker.go:545-634 | over any run: no ordinary delivery while suspended or deleted, deletion is final, and no Delete of a suspension follows its Undo |
| `Migration.NewMappings` | cmd/migrateids/main.go:211-251 | for any values, as long as there are not more of them than canonical ids: the plan covers exactly those that are not canonical; new ids are canonical, unused and different; object ids keep their text where it is free; an error exactly for blank or unsupported values |
| `Migration.PlanNeedsRoom` | cmd/migrateids/main.go:239-245 | more values than canonical ids cannot be planned for, so the bound is exact |
| `Migration.CountHexTexts` | cmd/migrateids/main.go:667-673 | there are 16 to the power of 24 canonical ids |
| `Migration.KeysTellApart` | cmd/migrateids/main.go:622-634 | plan keys tell values apart |
| `Migration.RenamingIsInjective` | cmd/migrateids/main.go:211-251 | no two ids are renamed to the same one |
| `Migration.SecondPlanIsEmpty` | cmd/migrateids/main.go:211-251 | planning again after the migration plans nothing |
| `Migration.Collection.RewriteReferences` | cmd/migrateids/main.go:317-351 | the unordered updates equal one simultaneous renaming of every reference |
| `Migration.ReferencesArePreserved` | cmd/migrateids/main.go:317-351 | a reference points at a document afterwards exactly if it did before |
| `Migration.Collection.RekeyCollection` | cmd/migrateids/main.go:353-399 | every document is found under its new id, changed only in the old ids it remembers, and no insertion fails |
| `Migration.Collection.ReplaceDocuments` | cmd/migrateids/main.go:517-548 | fails exactly if a new id is taken or given twice; else the documents are replaced |
| `Migration.NothingIsLost` | cmd/migrateids/main.go:353-399 | as many documents as before, all under canonical ids |
| `Migration.LookupByOldId` | cmd/migrateids/main.go:385-390 | looking up an old id matches exactly the documents that went by it |
| `Migration.OldIdIsUnambiguous` | cmd/migrateids/main.go:385-390 | an old id stays unambiguous exactly if it was not in use both as a text and as an object id |
| `ActorCache.CachedRepository.FindAnyByURI` | internal/cache/actor_repository.go:91-102 | answers as the repository |
| `ActorCache.CachedRepository.FindByURI` | internal/cache/actor_repository.go:83-89 | answers as the repository, suspended actors included |
| `ActorCache.CachedRepository.FindByPublicKeyID` | internal/cache/actor_repository.go:108-122 | an active actor with the key, none only if there is none |
| `ActorCache.KeyDecides` | internal/store/mongo/actors.go:476-481 | with unique keys every actor found by a key is the one the repository finds |
| `ActorCache.CachedRepository.UpsertRemoteActor` | internal/cache/actor_repository.go:124-136 | stores and answers as the repository and leaves no stale entry |
| `ActorCache.CachedRepository.AddRemoteFeaturedNote` | internal/cache/actor_repository.go:138-150 | pins once, up to the limit, as the repository does |
| `ActorCache.CachedRepository.RemoveRemoteFeaturedNote` | internal/cache/actor_repository.go:152-164 | unpins as the repository does |
| `ActorCache.CachedRepository.MarkRemoteActorDeleted` | internal/cache/actor_repository.go:166-177 | only remote actors are marked, and no entry of them is left |
| `ActorCache.CachedRepository.ChangeLocalActor` | internal/cache/actor_repository.go:63-77 | changes of local actors may go past the cache, since they are never in it |
| `ActorCache.CachedRepository.Evict` | internal/cache/actor_repository.go:13-18 | entries may vanish at any time |
| `ActorCache.LostInvalidation` | internal/cache/actor_repository.go:189-197 | were the invalidation lost, the cache would stay current exactly if the old key was not cached or is still the actor's |
| `Signature.SignatureRoundTrip` | internal/activitypub/signature/http_signature.go:64-101 | the printed header is parsed back exactly if the key id is not empty, neither begins nor ends with a quote, has evenly many of them and no comma outside of them |
| `Signature.CommaLosesKeyId` | internal/activitypub/signature/http_signature.go:180-202 | whatever follows it, a comma outside quotes keeps the key id from being read back |
| `Signature.QuoteFreeRoundTrip` | internal/activitypub/signature/http_signature.go:159-161 | for key ids without quotes nothing is lost, commas and spaces included |
| `Signature.SplitComma` | internal/activitypub/signature/http_signature.go:180-202 | the loop splits at the commas outside quotes |
| `Signature.ParseSignatureParams` | internal/activitypub/signature/http_signature.go:163-178 | every part needs an equals sign; the last value of a name counts |
| `Signature.UnquoteQuoted` | internal/activitypub/signature/http_signature.go:172-173 | trimming quotes undoes quoting exactly for values that do not begin or end with one |
| `Signature.SigningString` | internal/activitypub/signature/signing_string.go:15-39 | one line for each signed header, or nothing if one is missing |
| `Signature.SigningStringReads` | internal/activitypub/signature/signing_string.go:15-39 | the string gives back, line by line, the lower-case names and the values |
| `Signature.SigningStringIsUnambiguous` | internal/activitypub/signature/signing_string.go:15-39 | equal strings sign the same names with the same values, if no value holds a newline |
| `Signature.LinesAreRecovered` | internal/activitypub/signature/signing_string.go:15-39 | the lines signed can be told apart exactly if none has a newline in it |
| `Signature.NewlineForgesALine` | internal/activitypub/signature/signing_string.go:23-29 | a percent-encoded newline in the path makes signing one request read like signing another |
| `Signature.HeadersFromSigningString` | internal/activitypub/signature/http_signature.go:271-282 | the names of the lines, or an error exactly if a line has no separator |
| `RateLimit.TaskLimiter.Reserve` | internal/queue/limits.go:58-73 | a request is admitted exactly if fewer than the limit were counted in its second, else told how long to wait |
| `RateLimit.TaskLimiter.Wait` | internal/queue/limits.go:36-56 | the seconds tried are strictly later one after the other, from the running one on; success is an own admission in the last of them; giving up is after the deadline |
| `RateLimit.TaskLimiter.AtMostTwiceInAnySecond` | internal/queue/limits.go:58-73 | no interval of one second admits more than twice the limit |
| `RateLimit.SleepReachesNextSecond` | internal/queue/limits.go:65 | the delay ends within the first millisecond of the next second |
| `RateLimit.OutlivesItsSecond` | internal/queue/limits.go:63 | a counter does not expire within its own second |
| `RateLimit.WindowLimiter.Allow` | internal/ratelimit/redis.go:21-64 | allowed exactly up to the limit for each counter; the time to live never exceeds the window in whole milliseconds |
| `RateLimit.WindowLimiter.Burst` | internal/ratelimit/redis.go:21-31 | a window below a millisecond limits nothing |
| `RateLimit.WindowLimiter.AtMostTwiceInAnyWindow` | internal/ratelimit/redis.go:21-31 | from a millisecond on, no interval as long as the window in whole milliseconds admits more than twice the limit |
| `Questions.VisibilityRoundTrip` | internal/activitypub/notes/note.go:162-177 | exactly when a rendered audience is parsed back to its visibility |
| `Questions.RecipientsRoundTrip` | internal/activitypub/notes/note.go:179-196 | exactly when the recipients of a note for specified actors are parsed back, in order |
| `Questions.DirectAudienceURIs` | internal/activitypub/notes/note.go:179-196 | the direct recipients of all groups, each once, in order |
| `Questions.NewLocalPoll` | internal/activitypub/polls/poll.go:20-47 | accepted exactly with 2 to 10 trimmed, different choices of at most 50 characters and no end in the past |
| `Questions.ParseQuestion` | internal/activitypub/polls/poll.go:66-109 | the loop parses exactly the acceptable questions, with their end |
| `Questions.QuestionRoundTrip` | internal/activitypub/notes/render.go:73-98 | a rendered poll is parsed back, votes padded with zeros and its end cut to whole seconds, exactly if its choices are trimmed, different, not empty, and few and short enough, and its end is in a year of four digits |
| `Questions.LocalPollRoundTrip` | internal/activitypub/polls/poll.go:20-47 | a poll created here survives the trip exactly if its end is a whole second in a year of four digits |
| `Questions.ClockExists` | internal/activitypub/polls/poll.go:183-197 | there is a clock with the law the round trips assume |
| `Questions.LatePollIsLost` | internal/activitypub/polls/poll.go:37-43 | a poll that ends in the last second of 9999 five hours west of UTC is created here and cannot be read |

## Left out

- HTTP handlers, routing, streaming, configuration, the user interface, notifications, media and logging.
- Cryptography, base64, JSON, BSON, URL parsing, regular expressions and time formatting are functions of the environment with stated laws, or not part of the models.
- Failures of the store in the middle of a handler: in relationships, the migration, the cache and the account lifecycle the store is reliable; in resolving and in receipts writes may fail.
- Races between two store operations of one follow or block handler; receipts, resolving and the delivery gate are modelled with interleavings.
- Resolver.Federation.ResolveActor: says nothing of names, keys, addresses and the other profile data of an actor, only of what resolving depends on.
- Resolver.Federation.PerformAnnounce: the tests for blocks, visibility and timestamps are one condition chosen by the environment.
- Resolver.Federation.PerformCreate: whether a reply is a poll vote is chosen by the environment; votes and notifications are not modelled.
- Resolver.Federation.CreatePost: mentions, media, emoji and polls of a post are not modelled.
- Resolver.Federation.ResolveNoteValue: termination assumes that an actor's document names the URI it was requested by; for a server that names another one, only the lock bounds the recursion.
- Resolver.Federation.ResolvePost: a poll whose note is stored under the URI of a deleted one makes the program dereference a null result; here it ends as any note of a deleted URI does, with nothing.
- Resolver.Federation.FetchObject: redirects, each of which passes the same test on its target, are part of the answer.
- Relationships.Handler.RejectFollow: whether an inbox is stored with a follow does not change over time.
- Receipts.ReceiptStore.Claim: legacy receipts without a status are not modelled.
- Lifecycle.Server.HandleDeliverTask: the bookkeeping of remote instances is reduced to whether a delivery is skipped; legacy actors that are suspended without a time are excluded, since no operation makes them.
- Migration.Collection.RewriteReferences: one collection at a time; the backfilling of polls, votes and receipts and the audit record are not modelled.
- Migration.NewMappings: drawing an id is one step, however many draws it takes.
- ActorCache.CachedRepository.UpsertRemoteActor: ids of documents and times of fetching are not modelled; keys are taken to be unique after the update.
- Signature.SignatureRoundTrip: header names are tokens, and lower case is that of ASCII.
- Signature.NewlineForgesALine: one family of requests; which other newlines confuse two requests is not stated beyond `LinesAreRecovered`.
- RateLimit.TaskLimiter.Wait: the deadline stands for the cancellation of the context; the semaphores for concurrency are not modelled.
- Questions.ParseQuestion: updated vote counts are not modelled.
- Passkeys, account bootstrap, idempotency receipts of the API, antennas, instance metadata: not modelled.
