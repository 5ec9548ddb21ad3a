/** The audience of a note and the choices of a poll, rendered as ActivityPub and parsed back. */
module Questions {
  import opened Text

  // ---------------------------------------------------------------- audience

  datatype Visibility = Public | Home | Followers | Specified

  predicate IsPublic(id: string) {
    id == "https://www.w3.org/ns/activitystreams#Public" || id == "as:Public" || id == "Public"
  }

  predicate IsSlash(c: char) { c == '/' }

  /** The followers collection as the parser expects it; the renderer does not trim the actor's URI. */
  function FollowersOf(actorUri: string): string { TrimRight(actorUri, IsSlash) + "/followers" }

  function RenderAudience(actorUri: string, visibility: Visibility, mentions: seq<string>,
                          visibleTo: seq<string>): (seq<string>, seq<string>) {
    var public, followers := "https://www.w3.org/ns/activitystreams#Public", actorUri + "/followers";
    match visibility
    case Public => ([public], [followers])
    case Home => ([followers], [public])
    case Followers => ([followers], [])
    case Specified => (Recipients(mentions, visibleTo), [])
  }

  function Recipients(mentions: seq<string>, visibleTo: seq<string>): seq<string> {
    if visibleTo != [] then visibleTo else mentions
  }

  function VisibilityOf(actorUri: string, to: seq<string>, cc: seq<string>): Visibility {
    if exists id <- to :: IsPublic(id) then Public
    else if exists id <- cc :: IsPublic(id) then Home
    else if FollowersOf(actorUri) in to || FollowersOf(actorUri) in cc then Followers
    else Specified
  }

  /** An id that names an actor the note is addressed to. */
  predicate IsDirect(isHttps: string -> bool, actorUri: string, id: string) {
    id != "" && isHttps(id) && !IsPublic(id) && id != FollowersOf(actorUri)
  }

  /** The direct recipients in order of first appearance. */
  function Direct(isHttps: string -> bool, actorUri: string, ids: seq<string>): (r: seq<string>)
    ensures forall id :: id in r <==> id in ids && IsDirect(isHttps, actorUri, id)
  {
    if ids == [] then []
    else
      var before, last := Direct(isHttps, actorUri, ids[..|ids| - 1]), ids[|ids| - 1];
      if IsDirect(isHttps, actorUri, last) && last !in before then before + [last] else before
  }

  method DirectAudienceURIs(isHttps: string -> bool, actorUri: string, groups: seq<seq<string>>)
    returns (r: seq<string>)
    ensures r == Direct(isHttps, actorUri, Flattened(groups))
  {
    hide Direct, IsDirect;
    var seen: set<string> := {};
    r := [];
    NoDirect(isHttps, actorUri);
    for g := 0 to |groups|
      invariant r == Direct(isHttps, actorUri, Flattened(groups[..g])) && seen == set id | id in r
    {
      var ids := groups[g];
      assert Flattened(groups[..g]) + ids[..0] == Flattened(groups[..g]);
      for k := 0 to |ids|
        invariant r == Direct(isHttps, actorUri, Flattened(groups[..g]) + ids[..k]) && seen == set id | id in r
      {
        ghost var all := Flattened(groups[..g]) + ids[..k];
        assert Flattened(groups[..g]) + ids[..k + 1] == all + [ids[k]];
        DirectAppend(isHttps, actorUri, all, ids[k]);
        if IsDirect(isHttps, actorUri, ids[k]) && ids[k] !in seen {
          seen := seen + {ids[k]};
          r := r + [ids[k]];
        }
      }
      assert groups[..g + 1][..g] == groups[..g] && ids[..|ids|] == ids;
    }
    assert groups[..|groups|] == groups;
  }

  lemma NoDirect(isHttps: string -> bool, actorUri: string)
    ensures Direct(isHttps, actorUri, []) == []
  {
  }

  lemma DirectAppend(isHttps: string -> bool, actorUri: string, ids: seq<string>, id: string)
    ensures var before := Direct(isHttps, actorUri, ids);
            Direct(isHttps, actorUri, ids + [id]) ==
            if IsDirect(isHttps, actorUri, id) && id !in before then before + [id] else before
  {
    assert (ids + [id])[..|ids|] == ids;
  }

  function Flattened(groups: seq<seq<string>>): seq<string> {
    if groups == [] then [] else Flattened(groups[..|groups| - 1]) + groups[|groups| - 1]
  }

  lemma {:induction false} DirectKeepsAll(isHttps: string -> bool, actorUri: string, ids: seq<string>)
    requires forall k :: 0 <= k < |ids| ==> IsDirect(isHttps, actorUri, ids[k])
    requires Distinct(ids)
    ensures Direct(isHttps, actorUri, ids) == ids
  {
    hide IsDirect;
    if ids != [] {
      DirectKeepsAll(isHttps, actorUri, ids[..|ids| - 1]);
      assert ids == ids[..|ids| - 1] + [ids[|ids| - 1]];
    }
  }

  lemma DistinctMore(ids: seq<string>, id: string)
    requires Distinct(ids) && id !in ids
    ensures Distinct(ids + [id])
  {
  }

  lemma {:induction false} DirectIsDistinct(isHttps: string -> bool, actorUri: string, ids: seq<string>)
    ensures Distinct(Direct(isHttps, actorUri, ids))
  {
    hide IsDirect, Direct, Distinct;
    if ids == [] {
      NoDirect(isHttps, actorUri);
      NoneAreDistinct();
    } else {
      var rest, last := ids[..|ids| - 1], ids[|ids| - 1];
      assert ids == rest + [last];
      DirectIsDistinct(isHttps, actorUri, rest);
      DirectAppend(isHttps, actorUri, rest, last);
      if last !in Direct(isHttps, actorUri, rest) {
        DistinctMore(Direct(isHttps, actorUri, rest), last);
      }
    }
  }

  lemma NoneAreDistinct()
    ensures Distinct<string>([])
  {
  }

  lemma {:induction false} TrimRightIs(s: string, cut: char -> bool)
    ensures TrimRight(s, cut) == s <==> s == "" || !cut(s[|s| - 1])
    ensures |TrimRight(s, cut)| <= |s|
    decreases |s|
  {
    if s != "" && cut(s[|s| - 1]) {
      TrimRightIs(s[..|s| - 1], cut);
    }
  }

  lemma FollowersIsNotPublic(actorUri: string)
    ensures !IsPublic(actorUri + "/followers") && IsPublic("https://www.w3.org/ns/activitystreams#Public")
  {
    var id := actorUri + "/followers";
    assert id[|id| - 1] == 's';
  }

  lemma SameFollowers(actorUri: string)
    ensures actorUri + "/followers" == FollowersOf(actorUri) <==> actorUri == "" || actorUri[|actorUri| - 1] != '/'
  {
    TrimRightIs(actorUri, IsSlash);
    var a, b := actorUri + "/followers", FollowersOf(actorUri);
    assert a[..|a| - 10] == actorUri && b[..|b| - 10] == TrimRight(actorUri, IsSlash);
  }

  /** Exactly when a rendered audience is parsed back to the visibility it was rendered from: always for
      public and home; for followers unless the actor's URI ends in a slash; for specified actors unless
      one of them is the public or the followers collection. */
  lemma VisibilityRoundTrip(actorUri: string, visibility: Visibility, mentions: seq<string>, visibleTo: seq<string>)
    ensures var (to, cc) := RenderAudience(actorUri, visibility, mentions, visibleTo);
            VisibilityOf(actorUri, to, cc) == visibility <==>
            match visibility
            case Public => true
            case Home => true
            case Followers => actorUri == "" || actorUri[|actorUri| - 1] != '/'
            case Specified => forall id <- Recipients(mentions, visibleTo) ::
                  !IsPublic(id) && id != FollowersOf(actorUri)
  {
    hide IsPublic, FollowersOf;
    FollowersIsNotPublic(actorUri);
    SameFollowers(actorUri);
    var followers, public := actorUri + "/followers", "https://www.w3.org/ns/activitystreams#Public";
    match visibility
    case Public => assert public in [public];
    case Home => assert public in [public];
    case Followers => assert followers in [followers];
    case Specified =>
  }

  /** A note for specified actors gives back exactly its recipients, in order, if and only if they are
      different actors with secure URIs. */
  lemma RecipientsRoundTrip(isHttps: string -> bool, actorUri: string, mentions: seq<string>, visibleTo: seq<string>)
    ensures var (to, cc) := RenderAudience(actorUri, Specified, mentions, visibleTo);
            var r := Recipients(mentions, visibleTo);
            Direct(isHttps, actorUri, to + cc) == r <==>
            (forall k :: 0 <= k < |r| ==> IsDirect(isHttps, actorUri, r[k])) && Distinct(r)
  {
    hide IsDirect;
    var r := Recipients(mentions, visibleTo);
    assert r + [] == r;
    DirectIsDistinct(isHttps, actorUri, r);
    if (forall k :: 0 <= k < |r| ==> IsDirect(isHttps, actorUri, r[k])) && Distinct(r) {
      DirectKeepsAll(isHttps, actorUri, r);
    }
    if Direct(isHttps, actorUri, r) == r {
      forall k | 0 <= k < |r| ensures IsDirect(isHttps, actorUri, r[k]) {
        assert r[k] in Direct(isHttps, actorUri, r);
      }
    }
  }

  // ---------------------------------------------------------------- polls

  const MAX_CHOICES := 20
  const MAX_CHOICE_LENGTH := 256
  const MAX_LOCAL_CHOICES := 10
  const MAX_LOCAL_CHOICE_LENGTH := 50

  const SECOND := 1_000_000_000

  /** When the years 0 and 10000 begin, counted in nanoseconds from 1970 as all times are. */
  const YEAR_0 := -62_167_219_200 * SECOND
  const YEAR_10000 := 253_402_300_800 * SECOND

  /** The text form of RFC 3339 keeps whole seconds and has four digits for the year; a year that does not
      fit is written all the same, but not read. */
  datatype Clock = Clock(format: int -> string, parse: string -> Option<int>)
  {
    ghost predicate Lawful() {
      forall t: int :: format(t) != "" && parse(format(t)) == if IsWritable(t) then Some(WholeSeconds(t)) else None
    }
  }

  /** Such a clock there is: here seconds are counted in strokes. */
  lemma ClockExists()
    ensures exists clock: Clock :: clock.Lawful()
  {
    var format := (t: int) =>
      if IsWritable(t) then seq(1 + (t - YEAR_0) / SECOND, _ => '|') else "late";
    var parse := (s: string) =>
      if s != "" && s[0] == '|' then Some(YEAR_0 + (|s| - 1) * SECOND) else None;
    var clock := Clock(format, parse);
    hide IsWritable, WholeSeconds;
    forall t: int
      ensures clock.format(t) != "" &&
              clock.parse(clock.format(t)) == if IsWritable(t) then Some(WholeSeconds(t)) else None
    {
      if IsWritable(t) {
        SecondsCounted(t);
      }
    }
    assert clock.Lawful();
  }

  lemma SecondsCounted(t: int)
    requires IsWritable(t)
    ensures (t - YEAR_0) / SECOND >= 0 && YEAR_0 + (t - YEAR_0) / SECOND * SECOND == WholeSeconds(t)
  {
  }

  predicate IsWritable(t: int) { YEAR_0 <= t < YEAR_10000 }

  function WholeSeconds(t: int): int { t - t % SECOND }

  datatype Poll = Poll(choices: seq<string>, votes: seq<nat>, multiple: bool, expiresAt: Option<int>)

  /** An item of oneOf or anyOf: a choice with what it says of its votes, or something else. */
  datatype Item = Choice(name: string, votes: Option<nat>) | Malformed

  /** The two times are empty where the question has none. */
  datatype Question = Question(oneOf: Option<seq<Item>>, anyOf: Option<seq<Item>>, endTime: string, closed: string)

  function RenderChoices(poll: Poll): seq<Item> {
    seq(|poll.choices|, k requires 0 <= k < |poll.choices| =>
      Choice(poll.choices[k], Some(if k < |poll.votes| then poll.votes[k] else 0)))
  }

  /** The end is announced as `endTime` before it is reached and as `closed` after. */
  function RenderQuestion(clock: Clock, now: int, poll: Poll): Question {
    var choices := Some(RenderChoices(poll));
    var end := if poll.expiresAt.Some? then clock.format(poll.expiresAt.value) else "";
    var over := poll.expiresAt.Some? && poll.expiresAt.value <= now;
    Question(if poll.multiple then None else choices, if poll.multiple then choices else None,
             if over then "" else end, if over then end else "")
  }

  /** The end of a question, if it has one; None if it cannot be read. */
  function EndOf(clock: Clock, q: Question): Option<Option<int>> {
    var text := if q.endTime != "" then q.endTime else q.closed;
    if text == "" then Some(None)
    else
      var end := clock.parse(text);
      if end == None then None else Some(end)
  }

  predicate ValidName(name: string, max: nat) { name != "" && |name| <= max }

  function Trimmed(names: seq<string>): seq<string> {
    seq(|names|, k requires 0 <= k < |names| => TrimSpace(names[k]))
  }

  /** Names trimmed of white space, none empty or too long, no two alike. */
  predicate Acceptable(names: seq<string>, max: nat) {
    Distinct(Trimmed(names)) && forall k :: 0 <= k < |names| ==> ValidName(TrimSpace(names[k]), max)
  }

  method NewLocalPoll(choices: seq<string>, multiple: bool, expiresAt: Option<int>, now: int) returns (r: Option<Poll>)
    ensures r.Some? <==> 2 <= |choices| <= MAX_LOCAL_CHOICES && Acceptable(choices, MAX_LOCAL_CHOICE_LENGTH) &&
                         (expiresAt.Some? ==> expiresAt.value > now)
    ensures r.Some? ==> r.value == Poll(Trimmed(choices), seq(|choices|, _ => 0), multiple, expiresAt)
  {
    hide TrimSpace;
    if |choices| < 2 || |choices| > MAX_LOCAL_CHOICES {
      return None;
    }
    var normalized: seq<string>, seen: set<string> := [], {};
    for k := 0 to |choices|
      invariant normalized == Trimmed(choices[..k]) && seen == set c | c in normalized
      invariant Distinct(normalized) && forall j :: 0 <= j < k ==>
                ValidName(TrimSpace(choices[j]), MAX_LOCAL_CHOICE_LENGTH)
    {
      var choice := TrimSpace(choices[k]);
      if !ValidName(choice, MAX_LOCAL_CHOICE_LENGTH) {
        return None;
      }
      if choice in seen {
        var j :| 0 <= j < k && normalized[j] == choice;
        assert Trimmed(choices)[j] == Trimmed(choices)[k];
        return None;
      }
      assert choices[..k + 1] == choices[..k] + [choices[k]];
      seen, normalized := seen + {choice}, normalized + [choice];
    }
    assert choices[..|choices|] == choices;
    if expiresAt.Some? && expiresAt.value <= now {
      return None;
    }
    r := Some(Poll(normalized, seq(|normalized|, _ => 0), multiple, expiresAt));
  }

  function Names(items: seq<Item>): seq<string>
    requires forall k :: 0 <= k < |items| ==> items[k].Choice?
  {
    seq(|items|, k requires 0 <= k < |items| => items[k].name)
  }

  function Votes(items: seq<Item>): seq<nat>
    requires forall k :: 0 <= k < |items| ==> items[k].Choice?
  {
    seq(|items|, k requires 0 <= k < |items| => if items[k].votes.Some? then items[k].votes.value else 0)
  }

  predicate Readable(items: seq<Item>) {
    (forall k :: 0 <= k < |items| ==> items[k].Choice?) && Acceptable(Names(items), MAX_CHOICE_LENGTH)
  }

  function ItemsOf(q: Question): seq<Item> {
    if q.oneOf.Some? then q.oneOf.value else if q.anyOf.Some? then q.anyOf.value else []
  }

  /** Single choice if there is oneOf, else multiple choice; each choice trimmed and different. */
  function Parsed(clock: Clock, q: Question): Option<Poll> {
    var items := ItemsOf(q);
    if 1 <= |items| <= MAX_CHOICES && Readable(items) && EndOf(clock, q).Some?
    then Some(Poll(Trimmed(Names(items)), Votes(items), q.oneOf == None, EndOf(clock, q).value))
    else None
  }

  method ParseQuestion(clock: Clock, q: Question) returns (r: Option<Poll>)
    ensures r == Parsed(clock, q)
  {
    hide TrimSpace;
    var items := ItemsOf(q);
    if |items| == 0 || |items| > MAX_CHOICES {
      return None;
    }
    var choices: seq<string>, votes: seq<nat>, seen: set<string> := [], [], {};
    for k := 0 to |items|
      invariant Readable(items[..k]) && choices == Trimmed(Names(items[..k])) && votes == Votes(items[..k])
      invariant seen == set c | c in choices
    {
      if items[k].Malformed? {
        return None;
      }
      var name := TrimSpace(items[k].name);
      if !ValidName(name, MAX_CHOICE_LENGTH) || name in seen {
        Unreadable(items, k);
        return None;
      }
      ReadableMore(items, k);
      seen, choices := seen + {name}, choices + [name];
      votes := votes + [if items[k].votes.Some? then items[k].votes.value else 0];
    }
    assert items[..|items|] == items;
    var end := EndOf(clock, q);
    if end == None {
      return None;
    }
    r := Some(Poll(choices, votes, q.oneOf == None, end.value));
  }

  lemma Unreadable(items: seq<Item>, k: nat)
    requires k < |items| && items[k].Choice? && Readable(items[..k])
    requires !ValidName(TrimSpace(items[k].name), MAX_CHOICE_LENGTH) ||
             TrimSpace(items[k].name) in Trimmed(Names(items[..k]))
    ensures !Readable(items)
  {
    hide TrimSpace;
    if Readable(items) {
      assert Names(items)[k] == items[k].name;
      if ValidName(TrimSpace(items[k].name), MAX_CHOICE_LENGTH) {
        var j :| 0 <= j < k && Trimmed(Names(items[..k]))[j] == TrimSpace(items[k].name);
        NamesDiffer(items, j, k);
      }
    }
  }

  lemma NamesDiffer(items: seq<Item>, j: nat, k: nat)
    requires j < k < |items| && Readable(items)
    ensures TrimSpace(items[j].name) != TrimSpace(items[k].name)
  {
    hide TrimSpace;
    var names := Trimmed(Names(items));
    assert names[j] != names[k];
  }

  lemma ReadableMore(items: seq<Item>, k: nat)
    requires k < |items| && items[k].Choice? && Readable(items[..k])
    requires ValidName(TrimSpace(items[k].name), MAX_CHOICE_LENGTH) &&
             TrimSpace(items[k].name) !in Trimmed(Names(items[..k]))
    ensures Readable(items[..k + 1])
    ensures Trimmed(Names(items[..k + 1])) == Trimmed(Names(items[..k])) + [TrimSpace(items[k].name)]
    ensures Votes(items[..k + 1]) == Votes(items[..k]) + [if items[k].votes.Some? then items[k].votes.value else 0]
  {
    hide TrimSpace;
    assert items[..k + 1] == items[..k] + [items[k]];
    var names := Names(items[..k + 1]);
    assert names == Names(items[..k]) + [items[k].name];
    assert Trimmed(names) == Trimmed(Names(items[..k])) + [TrimSpace(items[k].name)];
  }

  /** The votes of a poll, with zeros for choices that have none yet. */
  function Padded(poll: Poll): seq<nat> {
    seq(|poll.choices|, k => if 0 <= k < |poll.votes| then poll.votes[k] else 0)
  }

  /** A time as its text form keeps it. */
  function Written(time: Option<int>): Option<int> {
    if time.Some? then Some(WholeSeconds(time.value)) else None
  }

  lemma EndRoundTrip(clock: Clock, now: int, poll: Poll)
    requires clock.Lawful()
    ensures EndOf(clock, RenderQuestion(clock, now, poll)) ==
            if poll.expiresAt.Some? && !IsWritable(poll.expiresAt.value) then None else Some(Written(poll.expiresAt))
  {
  }

  /** A rendered poll is parsed back, its votes padded with zeros and its end cut to whole seconds, exactly
      if its choices are few enough, trimmed, not empty or too long, and different, and its end is not in
      a year of more than four digits. */
  lemma QuestionRoundTrip(clock: Clock, now: int, poll: Poll)
    requires clock.Lawful()
    ensures Parsed(clock, RenderQuestion(clock, now, poll)) ==
              Some(Poll(poll.choices, Padded(poll), poll.multiple, Written(poll.expiresAt))) <==>
            1 <= |poll.choices| <= MAX_CHOICES && Distinct(poll.choices) &&
            (poll.expiresAt.Some? ==> IsWritable(poll.expiresAt.value)) &&
            forall k :: 0 <= k < |poll.choices| ==>
                  ValidName(poll.choices[k], MAX_CHOICE_LENGTH) && TrimSpace(poll.choices[k]) == poll.choices[k]
  {
    hide TrimSpace, EndOf, Clock.Lawful, Written, IsWritable;
    EndRoundTrip(clock, now, poll);
    var items := RenderChoices(poll);
    assert ItemsOf(RenderQuestion(clock, now, poll)) == items;
    assert Names(items) == poll.choices && Votes(items) == Padded(poll);
    if forall k :: 0 <= k < |poll.choices| ==> TrimSpace(poll.choices[k]) == poll.choices[k] {
      assert Trimmed(poll.choices) == poll.choices;
    } else {
      var k :| 0 <= k < |poll.choices| && TrimSpace(poll.choices[k]) != poll.choices[k];
      assert Trimmed(poll.choices)[k] != poll.choices[k];
    }
  }

  /** A poll that can be created here survives the trip exactly if its end is a whole second of a year of
      four digits. */
  lemma LocalPollRoundTrip(clock: Clock, now: int, choices: seq<string>, multiple: bool, expiresAt: Option<int>)
    requires clock.Lawful()
    requires 2 <= |choices| <= MAX_LOCAL_CHOICES && Acceptable(choices, MAX_LOCAL_CHOICE_LENGTH)
    ensures var poll := Poll(Trimmed(choices), seq(|choices|, _ => 0), multiple, expiresAt);
            Parsed(clock, RenderQuestion(clock, now, poll)) == Some(poll) <==>
            (expiresAt.Some? ==> expiresAt.value % SECOND == 0 && IsWritable(expiresAt.value))
  {
    hide TrimSpace, EndOf, ItemsOf, Readable, Clock.Lawful, IsWritable;
    var poll := Poll(Trimmed(choices), seq(|choices|, _ => 0), multiple, expiresAt);
    forall k | 0 <= k < |choices| ensures TrimSpace(poll.choices[k]) == poll.choices[k] {
      TrimTwice(choices[k]);
    }
    QuestionRoundTrip(clock, now, poll);
    EndRoundTrip(clock, now, poll);
    assert Padded(poll) == poll.votes;
  }

  /** The last second of 9999, five hours west of UTC: a poll may end then, and cannot be read. */
  const LATE := YEAR_10000 + (5 * 3600 - 1) * SECOND

  method LatePollIsLost(clock: Clock, now: int, choices: seq<string>, multiple: bool) returns (poll: Option<Poll>)
    requires clock.Lawful() && now < YEAR_10000
    requires 2 <= |choices| <= MAX_LOCAL_CHOICES && Acceptable(choices, MAX_LOCAL_CHOICE_LENGTH)
    ensures poll.Some? && poll.value.expiresAt == Some(LATE) && LATE % SECOND == 0
    ensures Parsed(clock, RenderQuestion(clock, now, poll.value)) == None
  {
    poll := NewLocalPoll(choices, multiple, Some(LATE), now);
    EndRoundTrip(clock, now, poll.value);
  }
}
