/** The note renderer: a single pass from MFM source to HTML, with nesting bounded by 20. */
module Mfm {
  import opened Text
  import opened Html
  import opened MfmDocument

  const MAX_NESTING: nat := 20

  /** The HTML of one construct, how much input it took and whether HTML alone loses it. */
  datatype Piece = Piece(html: string, consumed: nat, advanced: bool)

  function Budget(depth: nat): nat {
    if depth < MAX_NESTING then MAX_NESTING - depth else 0
  }

  /** A recognized construct takes at least one character and no more than there are. */
  predicate Fits(piece: Option<Piece>, input: string) {
    piece.Some? ==> 1 <= piece.value.consumed <= |input|
  }

  function Either(first: Option<Piece>, second: Option<Piece>): Option<Piece> {
    if first.Some? then first else second
  }

  // ---------------------------------------------------------------- scanners

  /** Position of the next character that may open a construct, at or after `start`. */
  function NextCandidate(input: string, start: nat): (r: nat)
    requires start <= |input|
    ensures start <= r <= |input|
    ensures forall k :: start <= k < r ==> input[k] !in "<>\\`*_~?[$@#:h\n"
    ensures r < |input| ==> input[r] in "<>\\`*_~?[$@#:h\n"
    decreases |input| - start
  {
    if start == |input| || input[start] in "<>\\`*_~?[$@#:h\n" then start else NextCandidate(input, start + 1)
  }

  /** The bracket that closes `$[`, counting nested brackets from `i` on; -1 when there is none. */
  function FunctionEndFrom(input: string, i: nat, level: nat): (r: int)
    requires 1 <= level && i <= |input|
    ensures r == -1 || (i <= r < |input| && input[r] == ']')
    decreases |input| - i
  {
    if i == |input| then -1
    else if input[i] == '[' then FunctionEndFrom(input, i + 1, level + 1)
    else if input[i] == ']' then
      if level == 1 then i else FunctionEndFrom(input, i + 1, level - 1)
    else FunctionEndFrom(input, i + 1, level)
  }

  function MatchingFunctionEnd(input: string): (r: int)
    requires 2 <= |input|
    ensures r == -1 || (2 <= r < |input| && input[r] == ']')
  {
    FunctionEndFrom(input, 2, 1)
  }

  predicate UrlStop(c: char) {
    c >= '\U{80}' || c in " \t\r\n<>\"'"
  }

  /** End of the run of URL characters in which every closing bracket has its opening one. */
  function UrlRun(input: string, end: nat, paren: nat, bracket: nat): (r: nat)
    requires end <= |input|
    ensures end <= r <= |input| && forall k :: end <= k < r ==> !UrlStop(input[k])
    decreases |input| - end
  {
    if end == |input| || UrlStop(input[end]) then end
    else if input[end] == '(' then UrlRun(input, end + 1, paren + 1, bracket)
    else if input[end] == ')' then
      if paren == 0 then end else UrlRun(input, end + 1, paren - 1, bracket)
    else if input[end] == '[' then UrlRun(input, end + 1, paren, bracket + 1)
    else if input[end] == ']' then
      if bracket == 0 then end else UrlRun(input, end + 1, paren, bracket - 1)
    else UrlRun(input, end + 1, paren, bracket)
  }

  /** Drops trailing characters of `cut` from `input[..end]`, not going below `low`. */
  function DropTrailing(input: string, low: nat, end: nat, cut: string): (r: nat)
    requires low <= end <= |input|
    ensures low <= r <= end && (forall k :: r <= k < end ==> input[k] in cut)
    ensures r == low || input[r - 1] !in cut
    decreases end
  {
    if low < end && input[end - 1] in cut then DropTrailing(input, low, end - 1, cut) else end
  }

  function BareUrlEnd(input: string): (r: nat)
    ensures r <= |input|
  {
    DropTrailing(input, 0, UrlRun(input, 0, 0, 0), ".,")
  }

  function AccountRun(input: string, start: nat): (r: nat)
    requires start <= |input|
    ensures start <= r <= |input| && (forall k :: start <= k < r ==> AccountChar(input[k]))
    ensures r < |input| ==> !AccountChar(input[r])
    decreases |input| - start
  {
    if start == |input| || !AccountChar(input[start]) then start else AccountRun(input, start + 1)
  }

  /** End of `@user` or `@user@host`; 0 when there is no mention. */
  function MentionEnd(input: string): (r: nat)
    requires input != "" && input[0] == '@'
    ensures r <= |input|
  {
    if |input| < 2 || input[1] in "-." then 0
    else
      var userEnd := AccountRun(input, 1);
      if userEnd < |input| && input[userEnd] == '@' then
        var hostStart := userEnd + 1;
        if input[userEnd - 1] in "-." || hostStart >= |input| || input[hostStart] in "-." then 0
        else
          var hostEnd := DropTrailing(input, hostStart, AccountRun(input, hostStart), "-.");
          if hostEnd == hostStart then 0 else hostEnd
      else
        var end := DropTrailing(input, 1, userEnd, "-.");
        if end == 1 then 0 else end
  }

  function HashtagEnd(input: string, i: nat): (r: nat)
    requires i <= |input|
    ensures i <= r <= |input| && (forall k :: i <= k < r ==> !HashtagStop(input[k]))
    ensures r < |input| ==> HashtagStop(input[r])
    decreases |input| - i
  {
    if i == |input| || HashtagStop(input[i]) then i else HashtagEnd(input, i + 1)
  }

  // ---------------------------------------------------------------- what the scanners find

  /** How many more opening than closing brackets. */
  function Excess(s: string, open: char, close: char): int {
    if s == "" then 0
    else (if s[0] == open then 1 else if s[0] == close then -1 else 0) + Excess(s[1..], open, close)
  }

  /** How many brackets are open after one more character. */
  function After(level: nat, c: char, open: char, close: char): nat
    requires c == close && c != open ==> level > 0
  {
    if c == open then level + 1 else if c == close then level - 1 else level
  }

  lemma ExcessOn(s: string, i: nat, k: nat, open: char, close: char)
    requires i < k <= |s|
    ensures Excess(s[i..k], open, close) ==
            (if s[i] == open then 1 else if s[i] == close then -1 else 0) + Excess(s[i + 1..k], open, close)
  {
    assert s[i..k][1..] == s[i + 1..k];
  }

  lemma {:induction false} FunctionEndMatches(input: string, i: nat, level: nat, k: nat)
    requires 1 <= level && i <= k < |input|
    ensures var r := FunctionEndFrom(input, i, level);
            var open := level + Excess(input[i..k + 1], '[', ']');
            (r == -1 || k < r ==> open > 0) && (k == r ==> open == 0)
    decreases |input| - i
  {
    ExcessOn(input, i, k + 1, '[', ']');
    if i < k && (input[i] != ']' || level > 1) {
      FunctionEndMatches(input, i + 1, After(level, input[i], '[', ']'), k);
    } else {
      assert i == k ==> input[i + 1..k + 1] == "";
    }
  }

  /** The bracket found is the first that closes the one of `$[`; there is none exactly if none does. */
  lemma BracketMatches(input: string)
    requires 2 <= |input|
    ensures var r := MatchingFunctionEnd(input);
            && (forall n :: 2 <= n <= |input| && (r == -1 || n <= r) ==> Excess(input[2..n], '[', ']') >= 0)
            && (r != -1 ==> Excess(input[2..r + 1], '[', ']') == -1)
  {
    var r := MatchingFunctionEnd(input);
    forall n | 2 <= n <= |input| && (r == -1 || n <= r) ensures Excess(input[2..n], '[', ']') >= 0 {
      if n > 2 {
        FunctionEndMatches(input, 2, 1, n - 1);
      } else {
        assert input[2..n] == "";
      }
    }
    if r != -1 {
      FunctionEndMatches(input, 2, 1, r);
    }
  }

  /** Why a run of URL characters ends. */
  predicate RunStops(input: string, start: nat, r: nat, paren: nat, bracket: nat)
    requires start <= r <= |input|
  {
    || r == |input| || UrlStop(input[r])
    || (input[r] == ')' && paren + Excess(input[start..r], '(', ')') == 0)
    || (input[r] == ']' && bracket + Excess(input[start..r], '[', ']') == 0)
  }

  lemma {:induction false} UrlRunStops(input: string, start: nat, paren: nat, bracket: nat)
    requires start <= |input|
    ensures RunStops(input, start, UrlRun(input, start, paren, bracket), paren, bracket)
    decreases |input| - start
  {
    var r := UrlRun(input, start, paren, bracket);
    if r > start {
      ExcessOn(input, start, r, '(', ')');
      ExcessOn(input, start, r, '[', ']');
      UrlRunStops(input, start + 1, After(paren, input[start], '(', ')'), After(bracket, input[start], '[', ']'));
    } else {
      assert input[start..r] == "";
    }
  }

  lemma {:induction false} UrlRunBalanced(input: string, start: nat, paren: nat, bracket: nat, k: nat)
    requires start <= |input| && start <= k <= UrlRun(input, start, paren, bracket)
    ensures paren + Excess(input[start..k], '(', ')') >= 0 && bracket + Excess(input[start..k], '[', ']') >= 0
    decreases |input| - start
  {
    if k > start {
      ExcessOn(input, start, k, '(', ')');
      ExcessOn(input, start, k, '[', ']');
      UrlRunBalanced(input, start + 1, After(paren, input[start], '(', ')'), After(bracket, input[start], '[', ']'), k);
    } else {
      assert input[start..k] == "";
    }
  }

  /** A bare URL is the longest run of URL characters in which no bracket is closed before it is opened,
      without the full stops and commas at its end. */
  lemma BareUrlIsLongest(input: string)
    ensures var end := BareUrlEnd(input);
            exists run :: end <= run <= |input| && RunStops(input, 0, run, 0, 0) &&
              (forall k :: 0 <= k < run ==> !UrlStop(input[k])) &&
              (forall k :: 0 <= k <= run ==>
                 Excess(input[0..k], '(', ')') >= 0 && Excess(input[0..k], '[', ']') >= 0) &&
              (forall k :: end <= k < run ==> input[k] in ".,") && (end == 0 || input[end - 1] !in ".,")
  {
    var run := UrlRun(input, 0, 0, 0);
    UrlRunStops(input, 0, 0, 0);
    forall k | 0 <= k <= run
      ensures Excess(input[0..k], '(', ')') >= 0 && Excess(input[0..k], '[', ']') >= 0
    {
      UrlRunBalanced(input, 0, 0, 0, k);
    }
  }

  /** What is found is an account; it is as long as it can be, but for dots and dashes at its end. */
  lemma MentionIsAccount(input: string)
    requires input != "" && input[0] == '@' && MentionEnd(input) != 0
    ensures var end := MentionEnd(input); end > 1 && Account(input[..end])
    ensures var end := MentionEnd(input);
            exists run :: end <= run <= |input| && (forall k :: end <= k < run ==> input[k] in "-.") &&
                          (run == |input| || !AccountChar(input[run]))
  {
    var end, userEnd := MentionEnd(input), AccountRun(input, 1);
    var acct := input[..end];
    if userEnd < |input| && input[userEnd] == '@' {
      assert acct[1..userEnd] == input[1..userEnd] && acct[userEnd + 1..] == input[userEnd + 1..end];
      assert AccountName(acct[userEnd + 1..]) && (userEnd == 1 || AccountName(acct[1..userEnd]));
    } else {
      assert acct[1..] == input[1..end];
      assert AccountName(acct[1..]);
    }
  }

  /** Two at signs and a host are a mention, though of nobody. */
  lemma MentionOfNobody(host: string)
    requires AccountName(host)
    ensures MentionEnd("@@" + host) == |host| + 2
  {
    var input := "@@" + host;
    assert AccountRun(input, 1) == 1;
    assert AccountRun(input, 2) == |input| by {
      assert forall k :: 2 <= k < |input| ==> input[k] == host[k - 2];
    }
  }

  // ---------------------------------------------------------------- constructs without nesting

  function LineEnd(s: string): (r: nat)
    ensures r <= |s| && (r < |s| ==> s[r] == '\n') && '\n' !in s[..r]
  {
    var end := IndexChar(s, '\n');
    if end == -1 then |s| else end
  }

  /** Offset of the first line at or after `offset` that starts with three backquotes, or -1. */
  function ClosingFence(input: string, offset: nat): (r: int)
    requires offset <= |input|
    ensures r == -1 || (offset <= r < |input| && "```" <= input[r..])
    decreases |input| - offset
  {
    if offset == |input| then -1
    else
      var end := LineEnd(input[offset..]);
      if "```" <= TrimSuffix(input[offset..offset + end], "\r") then offset
      else ClosingFence(input, if offset + end < |input| then offset + end + 1 else offset + end)
  }

  function BlockCode(input: string): (r: Option<Piece>)
    ensures Fits(r, input)
  {
    var first := IndexChar(input, '\n');
    if !("```" <= input) || first == -1 then None
    else
      var closing := ClosingFence(input, first + 1);
      if closing == -1 then None
      else
        var code := FenceText(input[first + 1..closing]);
        Some(Piece(Element("pre", Element("code", EscapeHTML(code))), closing + LineEnd(input[closing..]), true))
  }

  function MathBlock(input: string): (r: Option<Piece>)
    ensures Fits(r, input)
  {
    if !("\\[" <= input) then None
    else
      var end := Index(input[2..], "\\]");
      if end == -1 then None
      else
        var after := end + 4;
        if after == |input| || "\n" <= input[after..] || "\r\n" <= input[after..] then
          Some(Piece(Element("pre", Element("code", EscapeHTML(TrimSpace(input[2..2 + end])))), after, true))
        else None
  }

  /** The first search suffix from the `i`-th on that ends `line` after a query. */
  function SearchWith(env: Env, line: string, lineEnd: nat, i: nat): (r: Option<Piece>)
    requires i <= SEARCH_SUFFIX_COUNT
    ensures r.Some? ==> r.value.consumed == lineEnd && line != ""
    decreases SEARCH_SUFFIX_COUNT - i
  {
    if i == SEARCH_SUFFIX_COUNT then None
    else
      var n := |SearchSuffixAt(i)|;
      if |line| > n && FoldsTo(line[|line| - n..], i) then
        Some(Piece(Anchor(SearchHref(env, line[..|line| - n]), "", EscapeHTML(line)), lineEnd, true))
      else SearchWith(env, line, lineEnd, i + 1)
  }

  function SearchBlock(env: Env, input: string): (r: Option<Piece>)
    ensures Fits(r, input)
  {
    SearchWith(env, TrimSuffix(input[..LineEnd(input)], "\r"), LineEnd(input), 0)
  }

  function InlineLiteral(input: string): (r: Option<Piece>)
    ensures Fits(r, input)
  {
    if !("<plain>" <= input) then None
    else
      var end := Index(input[7..], "</plain>");
      if end == -1 then None
      else Some(Piece(Element("span", RenderText(input[7..7 + end])), end + 15, true))
  }

  function InlineCode(input: string, open: string, close: string): (r: Option<Piece>)
    requires open != ""
    ensures Fits(r, input)
  {
    if !(open <= input) then None
    else
      var end := Index(input[|open|..], close);
      if end <= 0 || ContainsAny(input[|open|..|open| + end], "\r\n") then None
      else
        Some(Piece(Element("code", EscapeHTML(input[|open|..|open| + end])), |open| + end + |close|, true))
  }

  function InlineAngled(env: Env, input: string): (r: Option<Piece>)
    ensures Fits(r, input)
  {
    if !("<http://" <= input) && !("<https://" <= input) then None
    else
      var end := IndexChar(input, '>');
      if end <= 1 || ContainsAny(input[1..end], " \t\r\n") then None
      else
        match env.SafeRemoteURL(input[1..end])
        case Some(href) => Some(Piece(Anchor(href, "", EscapeHTML(input[1..end])), end + 1, false))
        case None => None
  }

  function InlineBare(env: Env, input: string): (r: Option<Piece>)
    ensures Fits(r, input)
  {
    if !HttpUrl(input) then None
    else
      var end := BareUrlEnd(input);
      if end == 0 then None
      else
        match env.SafeRemoteURL(input[..end])
        case Some(href) => Some(Piece(Anchor(href, "", EscapeHTML(input[..end])), end, false))
        case None => None
  }

  function InlineMention(env: Env, input: string): (r: Option<Piece>)
    ensures Fits(r, input)
  {
    if input == "" || input[0] != '@' then None
    else
      var end := MentionEnd(input);
      if end <= 1 then None else Some(Piece(MentionHtml(env, input[..end]), end, false))
  }

  function InlineHashtag(env: Env, input: string): (r: Option<Piece>)
    ensures Fits(r, input)
  {
    if input == "" || input[0] != '#' then None
    else
      var end := HashtagEnd(input, 1);
      if end <= 1 || OnlyDigits(env, input[1..end]) then None
      else
        var tag := input[1..end];
        Some(Piece(Anchor(TagHref(env, tag), " rel=\"tag\"", "#" + EscapeHTML(tag)), end, false))
  }

  function InlineEmoji(input: string): (r: Option<Piece>)
    ensures Fits(r, input)
  {
    if input == "" || input[0] != ':' then None
    else
      var colon := IndexChar(input[1..], ':');
      if colon <= 0 then None
      else
        var end := colon + 1;
        var name := input[1..end];
        if EmojiName(name) && (end + 1 == |input| || !AsciiAlphaNumeric(input[end + 1])) then
          Some(Piece("\U{200B}:" + EscapeHTML(name) + ":\U{200B}", end + 1, false))
        else None
  }

  // ---------------------------------------------------------------- the renderer

  function CenterBlock(env: Env, input: string, depth: nat): (r: Option<Piece>)
    requires depth < MAX_NESTING
    ensures Fits(r, input)
    decreases Budget(depth), |input|, 0
  {
    if !("<center>" <= input) then None
    else
      var end := Index(input[8..], "</center>");
      if end == -1 then None
      else
        var content := TrimSpace(input[8..8 + end]);
        Some(Piece(CenterHtml(Render(env, content, depth + 1).0), end + 17, true))
  }

  /** Collects quoted lines from `consumed` on: the text without markers, and where it ends. */
  function QuoteLines(input: string, consumed: nat, content: string): (r: (string, nat))
    requires consumed <= |input|
    ensures consumed <= r.1 <= |input|
    ensures consumed < |input| && input[consumed] == '>' ==> consumed < r.1
    decreases |input| - consumed
  {
    if consumed == |input| then (content, consumed)
    else
      var end := LineEnd(input[consumed..]);
      var line := TrimSuffix(input[consumed..consumed + end], "\r");
      if !(">" <= line) then (content, consumed)
      else
        var text := if " " <= line[1..] then line[2..] else line[1..];
        var next := (if content != "" then content + "\n" else content) + text;
        if consumed + end < |input| then QuoteLines(input, consumed + end + 1, next)
        else (next, consumed + end)
  }

  function QuoteBlock(env: Env, input: string, depth: nat): (r: Option<Piece>)
    requires depth < MAX_NESTING
    ensures Fits(r, input)
    decreases Budget(depth), |input|, 0
  {
    if input == "" || input[0] != '>' then None
    else
      var (content, consumed) := QuoteLines(input, 0, "");
      if consumed == 0 then None
      else Some(Piece(Element("blockquote", Render(env, content, depth + 1).0), consumed, true))
  }

  function Block(env: Env, input: string, depth: nat): (r: Option<Piece>)
    requires depth < MAX_NESTING
    ensures Fits(r, input)
    decreases Budget(depth), |input|, 1
  {
    Either(BlockCode(input),
    Either(MathBlock(input),
    Either(CenterBlock(env, input, depth),
    Either(QuoteBlock(env, input, depth),
           SearchBlock(env, input)))))
  }

  /** Length of the content between the delimiters of `style` at the start of `input`, or -1. */
  function ContentLength(input: string, style: Style): (n: int)
    ensures n == -1 || (0 <= n && style.open <= input && At(input[|style.open|..], style.close, n))
  {
    if style.open <= input then Index(input[|style.open|..], style.close) else -1
  }

  /** The first style from the `i`-th on whose delimiters enclose admissible content here. */
  function InlineStyled(env: Env, input: string, depth: nat, i: nat): (r: Option<Piece>)
    requires depth < MAX_NESTING && i <= STYLE_COUNT
    ensures Fits(r, input)
    decreases Budget(depth), |input|, 0, STYLE_COUNT - i
  {
    if i == STYLE_COUNT then None
    else
      var style := StyleAt(i);
      var open, n := |style.open|, ContentLength(input, style);
      if n == -1 || !Admissible(i, input[open..open + n]) then InlineStyled(env, input, depth, i + 1)
      else
        Some(Piece(Element(style.tag, Render(env, input[open..open + n], depth + 1).0),
                   open + n + |style.close|, true))
  }

  function InlineLink(env: Env, input: string, depth: nat): (r: Option<Piece>)
    requires depth < MAX_NESTING
    ensures Fits(r, input)
    decreases Budget(depth), |input|, 0
  {
    if !("?[" <= input) && !("[" <= input) then None
    else
      var prefix := if "?[" <= input then 2 else 1;
      var captionLength := Index(input[prefix..], "](");
      if captionLength <= 0 then None
      else
        var captionEnd := captionLength + prefix;
        var urlEnd := IndexChar(input[captionEnd + 2..], ')');
        if urlEnd == -1 then None
        else
          var caption := Render(env, input[prefix..captionEnd], depth + 1).0;
          Some(Piece(LinkHtml(env, caption, input[captionEnd + 2..captionEnd + 2 + urlEnd]),
                     captionEnd + 3 + urlEnd, true))
  }

  function RenderFunction(env: Env, name: string, content: string, depth: nat): (r: string)
    requires depth < MAX_NESTING
    decreases Budget(depth), 0, 0
  {
    var words := Fields(content);
    if name == "unixtime" && words != [] && env.unixTime(words[0]).Some? then
      TimeHtml(env.unixTime(words[0]).value)
    else if name == "ruby" && |words| >= 2 then
      RubyHtml(Render(env, TrimSpace(BeforeLastWord(content)), depth + 1).0, LastWord(content))
    else Element("i", Render(env, content, depth + 1).0)
  }

  function InlineFunction(env: Env, input: string, depth: nat): (r: Option<Piece>)
    requires depth < MAX_NESTING
    ensures Fits(r, input)
    decreases Budget(depth), |input|, 0
  {
    if !("$[" <= input) then None
    else
      var end := MatchingFunctionEnd(input);
      if end == -1 then None
      else
        var raw := input[2..end];
        var space := IndexAny(raw, " \t\r\n");
        if space <= 0 || TrimSpace(raw[space..]) == "" then None
        else
          var name := FunctionName(env, raw[..space]);
          Some(Piece(RenderFunction(env, name, TrimLeft(raw[space..], FunctionSpace), depth), end + 1, true))
  }

  function Inline(env: Env, input: string, depth: nat): (r: Option<Piece>)
    requires depth < MAX_NESTING
    ensures Fits(r, input)
    decreases Budget(depth), |input|, 1
  {
    Either(InlineLiteral(input),
    Either(InlineStyled(env, input, depth, 0),
    Either(InlineCode(input, "`", "`"),
    Either(InlineCode(input, "\\(", "\\)"),
    Either(InlineLink(env, input, depth),
    Either(InlineFunction(env, input, depth),
           InlineToken(env, input)))))))
  }

  function InlineToken(env: Env, input: string): (r: Option<Piece>)
    ensures Fits(r, input)
  {
    Either(InlineAngled(env, input),
    Either(InlineBare(env, input),
    Either(InlineMention(env, input),
    Either(InlineHashtag(env, input),
           InlineEmoji(input)))))
  }

  predicate LineStart(input: string, i: nat)
    requires i < |input|
  {
    i == 0 || input[i - 1] == '\n'
  }

  /** A mention, hashtag or emoji code does not start inside a word. */
  predicate Eligible(input: string, i: nat)
    requires i < |input|
  {
    !(i > 0 && input[i] in "@#:" && AsciiAlphaNumeric(input[i - 1]))
  }

  /** The construct the renderer recognizes at position `i`, if any. */
  function Construct(env: Env, input: string, i: nat, depth: nat): (r: Option<Piece>)
    requires depth < MAX_NESTING && i < |input|
    ensures r.Some? ==> 1 <= r.value.consumed <= |input| - i
    decreases Budget(depth), |input| - i, 2
  {
    var block := if LineStart(input, i) then Block(env, input[i..], depth) else None;
    if block.Some? then block
    else if Eligible(input, i) then Inline(env, input[i..], depth)
    else None
  }

  /** What the renderer emits at position `i`: a construct, or text up to the next candidate. */
  function NextPiece(env: Env, input: string, i: nat, depth: nat): (piece: Piece)
    requires depth < MAX_NESTING && i < |input|
    ensures 1 <= piece.consumed <= |input| - i
    decreases Budget(depth), |input| - i, 3
  {
    match Construct(env, input, i, depth)
    case Some(piece) => piece
    case None =>
      var end := NextCandidate(input, i + 1);
      Piece(RenderText(input[i..end]), end - i, false)
  }

  function RenderFrom(env: Env, input: string, i: nat, depth: nat): (r: (string, bool))
    requires depth < MAX_NESTING && i <= |input|
    decreases Budget(depth), |input| - i, 4
  {
    if i == |input| then ("", false)
    else
      var piece := NextPiece(env, input, i, depth);
      var (html, advanced) := RenderFrom(env, input, i + piece.consumed, depth);
      (piece.html + html, piece.advanced || advanced)
  }

  function Render(env: Env, input: string, depth: nat): (r: (string, bool))
    decreases Budget(depth), |input|, 5
  {
    if depth >= MAX_NESTING then (RenderText(input), false) else RenderFrom(env, input, 0, depth)
  }

  // ---------------------------------------------------------------- every output is the print of a document

  /** `node` accounts for the recognized construct `piece` at the start of `input`. */
  predicate Explains(env: Env, node: Node, piece: Piece, input: string, depth: nat) {
    && Valid(env, node) && Height(node) <= Budget(depth)
    && piece.consumed <= |input| && Source(node) == input[..piece.consumed]
    && Print(env, node) == piece.html && Advanced(node) == piece.advanced
  }

  /** `doc` accounts for all of `input`, rendered as `html`. */
  predicate ExplainsAll(env: Env, doc: seq<Node>, html: string, input: string, depth: nat) {
    ValidAll(env, doc) && HeightAll(doc) <= Budget(depth) && SourceAll(doc) == input && PrintAll(env, doc) == html
  }

  lemma Enclosed(input: string, open: string, close: string, end: nat)
    requires open <= input && At(input[|open|..], close, end)
    ensures |open| + end + |close| <= |input|
    ensures input[..|open| + end + |close|] == open + input[|open|..|open| + end] + close
  {
    var tail := input[|open|..];
    assert tail[end..end + |close|] == input[|open| + end..|open| + end + |close|];
    assert input[..|open| + end + |close|]
        == input[..|open|] + input[|open|..|open| + end] + input[|open| + end..|open| + end + |close|];
  }

  lemma FenceSource(input: string, first: nat, closing: nat, end: nat)
    requires "```" <= input && 3 <= first < closing <= end <= |input| && input[first] == '\n'
    ensures Source(Fence(input[3..first], input[first + 1..closing], input[closing..end])) == input[..end]
  {
    Joined(input, 3, first);
    Joined(input, first, first + 1);
    assert input[first..first + 1] == "\n";
    Joined(input, first + 1, closing);
    Joined(input, closing, end);
  }

  lemma FenceExplains(env: Env, input: string, first: nat, closing: nat, end: nat, depth: nat)
    requires "```" <= input && 3 <= first < closing <= end <= |input| && input[first] == '\n'
    requires '\n' !in input[3..first] && "```" <= input[closing..end] && '\n' !in input[closing..end]
    ensures Explains(env, Fence(input[3..first], input[first + 1..closing], input[closing..end]),
                     Piece(Element("pre", Element("code", EscapeHTML(FenceText(input[first + 1..closing])))), end,
                           true),
                     input, depth)
  {
    hide Element, FenceText, EscapeHTML, Source;
    FenceSource(input, first, closing, end);
  }

  lemma BlockCodeDoc(env: Env, input: string, depth: nat) returns (node: Node)
    requires BlockCode(input).Some?
    ensures Explains(env, node, BlockCode(input).value, input, depth)
  {
    hide ClosingFence, FenceText, Element, EscapeHTML, Explains, LineEnd;
    var first := IndexChar(input, '\n');
    var closing := ClosingFence(input, first + 1);
    var length := LineEnd(input[closing..]);
    FenceClosing(input, first);
    assert input[closing..][..length] == input[closing..closing + length];
    FenceExplains(env, input, first, closing, closing + length, depth);
    node := Fence(input[3..first], input[first + 1..closing], input[closing..closing + length]);
  }

  lemma PrefixBefore(prefix: string, s: string, end: nat)
    requires prefix <= s && end <= |s| && (end < |s| ==> s[end] !in prefix)
    ensures prefix <= s[..end]
  {
    assert forall k :: 0 <= k < |prefix| ==> s[k] == prefix[k] && prefix[k] in prefix;
  }

  lemma FenceClosing(input: string, first: nat)
    requires "```" <= input && first < |input| && input[first] == '\n' && ClosingFence(input, first + 1) != -1
    ensures 3 <= first
    ensures var rest := input[ClosingFence(input, first + 1)..]; "```" <= rest[..LineEnd(rest)]
  {
    PrefixBefore("```", input, first);
    var rest := input[ClosingFence(input, first + 1)..];
    PrefixBefore("```", rest, LineEnd(rest));
  }

  lemma MathBlockDoc(env: Env, input: string, depth: nat) returns (node: Node)
    requires MathBlock(input).Some?
    ensures Explains(env, node, MathBlock(input).value, input, depth)
  {
    hide Element, EscapeHTML, TrimSpace;
    var end := Index(input[2..], "\\]");
    Enclosed(input, "\\[", "\\]", end);
    node := Formula(input[2..2 + end]);
  }

  lemma SearchExplains(env: Env, line: string, end: string, n: nat, form: nat, input: string, depth: nat)
    requires n < |line| && form < SEARCH_SUFFIX_COUNT && FoldsTo(line[|line| - n..], form)
    requires (end == "" || end == "\r") && line + end <= input
    ensures Explains(env, Search(line[..|line| - n], line[|line| - n..], form, end),
                     Piece(Anchor(SearchHref(env, line[..|line| - n]), "", EscapeHTML(line)), |line + end|, true),
                     input, depth)
  {
    hide Anchor, SearchHref, EscapeHTML, FoldsTo;
    assert line[..|line| - n] + line[|line| - n..] == line;
  }

  lemma SearchDoc(env: Env, input: string, depth: nat) returns (node: Node)
    requires SearchBlock(env, input).Some?
    ensures Explains(env, node, SearchBlock(env, input).value, input, depth)
  {
    hide Anchor, SearchHref, EscapeHTML, FoldsTo, Explains, LineEnd;
    var whole := input[..LineEnd(input)];
    var line := TrimSuffix(whole, "\r");
    var n, form := SearchSplit(env, line, LineEnd(input), 0);
    var end := whole[|line|..];
    assert line + end == whole;
    SearchExplains(env, line, end, n, form, input, depth);
    node := Search(line[..|line| - n], line[|line| - n..], form, end);
  }

  lemma {:induction false} SearchSplit(env: Env, line: string, lineEnd: nat, i: nat) returns (n: nat, form: nat)
    requires i <= SEARCH_SUFFIX_COUNT && SearchWith(env, line, lineEnd, i).Some?
    ensures n < |line| && form < SEARCH_SUFFIX_COUNT && FoldsTo(line[|line| - n..], form)
    ensures SearchWith(env, line, lineEnd, i).value
         == Piece(Anchor(SearchHref(env, line[..|line| - n]), "", EscapeHTML(line)), lineEnd, true)
    decreases SEARCH_SUFFIX_COUNT - i
  {
    hide SearchSuffixAt, FoldsTo, ToLower, SearchHref, Anchor, EscapeHTML;
    n, form := |SearchSuffixAt(i)|, i;
    if !(|line| > n && FoldsTo(line[|line| - n..], i)) {
      n, form := SearchSplit(env, line, lineEnd, i + 1);
    }
  }

  lemma InlineLiteralDoc(env: Env, input: string, depth: nat) returns (node: Node)
    requires InlineLiteral(input).Some?
    ensures Explains(env, node, InlineLiteral(input).value, input, depth)
  {
    hide Element, RenderText;
    var end := Index(input[7..], "</plain>");
    Enclosed(input, "<plain>", "</plain>", end);
    node := Literal(input[7..7 + end]);
  }

  lemma InlineCodeDoc(env: Env, input: string, open: string, close: string, depth: nat) returns (node: Node)
    requires (open == close == "`") || (open == "\\(" && close == "\\)")
    requires InlineCode(input, open, close).Some?
    ensures Explains(env, node, InlineCode(input, open, close).value, input, depth)
  {
    var end := Index(input[|open|..], close);
    Enclosed(input, open, close, end);
    node := Code(open, close, input[|open|..|open| + end]);
  }

  lemma InlineAngledDoc(env: Env, input: string, depth: nat) returns (node: Node)
    requires InlineAngled(env, input).Some?
    ensures Explains(env, node, InlineAngled(env, input).value, input, depth)
  {
    var end := IndexChar(input, '>');
    var url := input[1..end];
    node := Url(url, true);
    assert input[..end + 1] == "<" + url + ">";
    UrlInBrackets(input, end);
  }

  lemma UrlInBrackets(input: string, end: nat)
    requires "<http://" <= input || "<https://" <= input
    requires end < |input| && input[end] == '>' && forall k :: 0 <= k < end ==> input[k] != '>'
    ensures 1 <= end && HttpUrl(input[1..end])
  {
    var opening := if "<http://" <= input then "<http://" else "<https://";
    PrefixBefore(opening, input, end);
    assert input[1..end][..|opening| - 1] == input[1..|opening|] == opening[1..];
    assert opening[1..] == if "<http://" <= input then "http://" else "https://";
  }

  lemma {:induction false} UrlRunPast(input: string, start: nat, end: nat, paren: nat, bracket: nat)
    requires start <= end <= |input|
    requires forall k :: start <= k < end ==> !UrlStop(input[k]) && input[k] !in "()[]"
    ensures UrlRun(input, start, paren, bracket) == UrlRun(input, end, paren, bracket)
    decreases end - start
  {
    if start < end {
      UrlRunPast(input, start + 1, end, paren, bracket);
    }
  }

  lemma SchemeInUrl(input: string)
    requires HttpUrl(input)
    ensures HttpUrl(input[..BareUrlEnd(input)])
  {
    var n := if "http://" <= input then 7 else 8;
    var scheme := if "http://" <= input then "http://" else "https://";
    assert forall k :: 0 <= k < n ==> input[k] == scheme[k];
    assert forall k :: 0 <= k < n ==> !UrlStop(scheme[k]) && scheme[k] !in "()[]";
    UrlRunPast(input, 0, n, 0, 0);
    assert input[n - 1] == '/';
    assert input[..BareUrlEnd(input)][..n] == input[..n] == scheme;
  }

  lemma InlineBareDoc(env: Env, input: string, depth: nat) returns (node: Node)
    requires InlineBare(env, input).Some?
    ensures Explains(env, node, InlineBare(env, input).value, input, depth)
  {
    var end := BareUrlEnd(input);
    node := Url(input[..end], false);
    SchemeInUrl(input);
  }

  lemma InlineTokenDoc(env: Env, input: string, depth: nat) returns (node: Node)
    requires InlineToken(env, input).Some?
    ensures Explains(env, node, InlineToken(env, input).value, input, depth)
  {
    hide Anchor, EscapeHTML, MentionEnd, HashtagEnd, TagHref, MentionHtml;
    if InlineAngled(env, input).Some? {
      node := InlineAngledDoc(env, input, depth);
    } else if InlineBare(env, input).Some? {
      node := InlineBareDoc(env, input, depth);
    } else if InlineMention(env, input).Some? {
      node := Mention(input[..MentionEnd(input)]);
      MentionIsAccount(input);
    } else if InlineHashtag(env, input).Some? {
      var end := HashtagEnd(input, 1);
      node := Hashtag(input[1..end]);
      assert input[..end] == "#" + input[1..end];
      assert TagName(env, input[1..end]);
    } else {
      node := InlineEmojiDoc(env, input, depth);
    }
  }

  lemma InlineEmojiDoc(env: Env, input: string, depth: nat) returns (node: Node)
    requires InlineEmoji(input).Some?
    ensures Explains(env, node, InlineEmoji(input).value, input, depth)
  {
    var end := IndexChar(input[1..], ':') + 1;
    node := Emoji(input[1..end]);
    assert input[..end + 1] == ":" + input[1..end] + ":";
  }

  // ------------------------------------------------ constructs with content

  lemma CenterExplains(env: Env, kids: seq<Node>, html: string, input: string, end: nat, depth: nat)
    requires depth < MAX_NESTING && "<center>" <= input && At(input[8..], "</center>", end)
    requires ExplainsAll(env, kids, html, TrimSpace(input[8..8 + end]), depth + 1)
    ensures Explains(env, Center(input[8..8 + end], kids), Piece(CenterHtml(html), end + 17, true), input, depth)
  {
    hide CenterHtml, TrimSpace, Render, EscapeHTML;
    Enclosed(input, "<center>", "</center>", end);
  }

  lemma CenterDoc(env: Env, input: string, depth: nat) returns (node: Node)
    requires depth < MAX_NESTING && CenterBlock(env, input, depth).Some?
    ensures Explains(env, node, CenterBlock(env, input, depth).value, input, depth)
    decreases Budget(depth), |input|, 0
  {
    hide CenterHtml, TrimSpace, Render, Explains, ExplainsAll;
    var end := Index(input[8..], "</center>");
    var content := TrimSpace(input[8..8 + end]);
    var kids := RenderDoc(env, content, depth + 1);
    CenterExplains(env, kids, Render(env, content, depth + 1).0, input, end, depth);
    node := Center(input[8..8 + end], kids);
  }

  lemma QuoteDoc(env: Env, input: string, depth: nat) returns (node: Node)
    requires depth < MAX_NESTING && QuoteBlock(env, input, depth).Some?
    ensures Explains(env, node, QuoteBlock(env, input, depth).value, input, depth)
    decreases Budget(depth), |input|, 0
  {
    hide Element, ExplainsAll, QuoteLines, Render;
    var (content, consumed) := QuoteLines(input, 0, "");
    var lines := QuoteLinesDoc(input, 0, "");
    var kids := RenderDoc(env, content, depth + 1);
    node := Quote(lines, kids);
  }

  /** The first quoted line at `consumed`, cut the way `QuoteLines` reads it. */
  lemma FirstQuoteLine(input: string, consumed: nat, content: string) returns (line: QuoteLine)
    requires consumed < |input|
    requires var end := LineEnd(input[consumed..]); ">" <= TrimSuffix(input[consumed..consumed + end], "\r")
    ensures QuoteLineValid(line)
    ensures var end := LineEnd(input[consumed..]);
            var next := consumed + end + if consumed + end < |input| then 1 else 0;
            var inner := (if content != "" then content + "\n" else content) + line.text;
            && line.marker + line.text + line.end == input[consumed..next]
            && QuoteLines(input, consumed, content) == QuoteLines(input, next, inner)
  {
    hide LineEnd, TrimSuffix;
    var end := consumed + LineEnd(input[consumed..]);
    assert input[consumed..][..end - consumed] == input[consumed..end];
    var body := TrimSuffix(input[consumed..end], "\r");
    var next := if end < |input| then end + 1 else end;
    var marker := if " " <= body[1..] then "> " else ">";
    QuoteLineCut(input, consumed, end, body, next);
    assert body == marker + body[|marker|..];
    line := QuoteLine(marker, body[|marker|..], input[consumed + |body|..next]);
  }

  lemma QuoteLineCut(input: string, consumed: nat, end: nat, body: string, next: nat)
    requires consumed <= end <= next <= |input| && '\n' !in input[consumed..][..end - consumed]
    requires end < |input| ==> input[consumed..][end - consumed] == '\n'
    requires body == TrimSuffix(input[consumed..end], "\r")
    requires next == (if end < |input| then end + 1 else end)
    ensures '\n' !in body && |body| <= end - consumed
    ensures body + input[consumed + |body|..next] == input[consumed..next]
    ensures input[consumed + |body|..next] in ["", "\r", "\n", "\r\n"]
  {
    var line := input[consumed..end];
    assert input[consumed..][..end - consumed] == line;
    assert body == line[..|body|];
    var rest := input[consumed + |body|..next];
    assert rest == line[|body|..] + input[end..next];
    assert input[end..next] == "" || input[end..next] == "\n";
    assert line[|body|..] == "" || line[|body|..] == "\r";
    if line[|body|..] == "" {
      assert rest == input[end..next];
    } else if input[end..next] == "" {
      assert rest == "\r";
    } else {
      assert rest == "\r\n";
    }
  }

  lemma {:induction false} QuoteLinesDoc(input: string, consumed: nat, content: string) returns (lines: seq<QuoteLine>)
    requires consumed <= |input|
    ensures var (text, end) := QuoteLines(input, consumed, content);
            SourceLines(lines) == input[consumed..end] && Unquoted(lines, content) == text
    ensures forall line :: line in lines ==> QuoteLineValid(line)
    decreases |input| - consumed
  {
    hide LineEnd, TrimSuffix, QuoteLineValid;
    lines := [];
    if consumed < |input| {
      var end := LineEnd(input[consumed..]);
      if ">" <= TrimSuffix(input[consumed..consumed + end], "\r") {
        var next := consumed + end + if consumed + end < |input| then 1 else 0;
        var first := FirstQuoteLine(input, consumed, content);
        var inner := (if content != "" then content + "\n" else content) + first.text;
        var rest := QuoteLinesDoc(input, next, inner);
        lines := [first] + rest;
        assert lines[1..] == rest;
        var stop := QuoteLines(input, next, inner).1;
        assert input[consumed..next] + input[next..stop] == input[consumed..stop];
      }
    }
  }

  lemma StyledExplains(env: Env, i: nat, kids: seq<Node>, html: string, input: string, end: nat, depth: nat)
    requires depth < MAX_NESTING && i < STYLE_COUNT && StyleAt(i).open <= input
    requires At(input[|StyleAt(i).open|..], StyleAt(i).close, end)
    requires var content := input[|StyleAt(i).open|..|StyleAt(i).open| + end];
             Admissible(i, content) && ExplainsAll(env, kids, html, content, depth + 1)
    ensures Explains(env, Styled(i, kids),
                     Piece(Element(StyleAt(i).tag, html), |StyleAt(i).open| + end + |StyleAt(i).close|, true),
                     input, depth)
  {
    hide StyleAt, Admissible, Element;
    Enclosed(input, StyleAt(i).open, StyleAt(i).close, end);
  }

  lemma StyledDoc(env: Env, input: string, depth: nat, i: nat) returns (node: Node)
    requires depth < MAX_NESTING && i <= STYLE_COUNT && InlineStyled(env, input, depth, i).Some?
    ensures Explains(env, node, InlineStyled(env, input, depth, i).value, input, depth)
    decreases Budget(depth), |input|, 0, STYLE_COUNT - i
  {
    hide StyleAt, Admissible, Element, Explains, ExplainsAll, Render, ContentLength;
    var style := StyleAt(i);
    var open, n := |style.open|, ContentLength(input, style);
    if n == -1 || !Admissible(i, input[open..open + n]) {
      node := StyledDoc(env, input, depth, i + 1);
    } else {
      var content := input[open..open + n];
      var kids := RenderDoc(env, content, depth + 1);
      StyledExplains(env, i, kids, Render(env, content, depth + 1).0, input, n, depth);
      node := Styled(i, kids);
    }
  }

  lemma LinkSource(opening: string, kids: seq<Node>, input: string, length: nat, urlEnd: nat)
    requires opening <= input && At(input[|opening|..], "](", length)
    requires var url := |opening| + length + 2; url + urlEnd < |input| && input[url + urlEnd] == ')'
    requires SourceAll(kids) == input[|opening|..|opening| + length]
    ensures var url := |opening| + length + 2;
            Source(Link(opening, kids, input[url..url + urlEnd])) == input[..url + urlEnd + 1]
  {
    Enclosed(input, opening, "](", length);
    var url := |opening| + length + 2;
    Joined(input, url, url + urlEnd);
    Joined(input, url + urlEnd, url + urlEnd + 1);
  }

  lemma LinkExplains(env: Env, opening: string, kids: seq<Node>, html: string, input: string,
                     length: nat, urlEnd: nat, depth: nat)
    requires depth < MAX_NESTING && (opening == "[" || opening == "?[") && opening <= input
    requires length > 0 && At(input[|opening|..], "](", length)
    requires var url := |opening| + length + 2;
             url + urlEnd < |input| && input[url + urlEnd] == ')' && ')' !in input[url..url + urlEnd]
    requires ExplainsAll(env, kids, html, input[|opening|..|opening| + length], depth + 1)
    ensures var url := |opening| + length + 2;
            Explains(env, Link(opening, kids, input[url..url + urlEnd]),
                     Piece(LinkHtml(env, html, input[url..url + urlEnd]), url + urlEnd + 1, true), input, depth)
  {
    hide LinkHtml, Source, At;
    LinkSource(opening, kids, input, length, urlEnd);
  }

  /** Where a link is cut into caption and address. */
  lemma LinkShape(env: Env, input: string, depth: nat) returns (opening: string, length: nat, urlEnd: nat)
    requires depth < MAX_NESTING && InlineLink(env, input, depth).Some?
    ensures (opening == "[" || opening == "?[") && opening <= input && length > 0
    ensures At(input[|opening|..], "](", length)
    ensures var url := |opening| + length + 2;
            && url + urlEnd < |input| && input[url + urlEnd] == ')' && ')' !in input[url..url + urlEnd]
            && InlineLink(env, input, depth).value ==
               Piece(LinkHtml(env, Render(env, input[|opening|..|opening| + length], depth + 1).0,
                   input[url..url + urlEnd]),
                     url + urlEnd + 1, true)
  {
    hide LinkHtml, Render, At;
    opening := if "?[" <= input then "?[" else "[";
    length := Index(input[|opening|..], "](");
    urlEnd := IndexChar(input[|opening| + length + 2..], ')');
    var url := |opening| + length + 2;
    assert input[url..][..urlEnd] == input[url..url + urlEnd];
  }

  lemma LinkDoc(env: Env, input: string, depth: nat) returns (node: Node)
    requires depth < MAX_NESTING && InlineLink(env, input, depth).Some?
    ensures Explains(env, node, InlineLink(env, input, depth).value, input, depth)
    decreases Budget(depth), |input|, 0
  {
    hide InlineLink, LinkHtml, Explains, ExplainsAll, Render, SourceAll;
    var opening, length, urlEnd := LinkShape(env, input, depth);
    var url := |opening| + length + 2;
    var kids := RenderDoc(env, input[|opening|..|opening| + length], depth + 1);
    LinkExplains(env, opening, kids, Render(env, input[|opening|..|opening| + length], depth + 1).0, input, length,
        urlEnd, depth);
    node := Link(opening, kids, input[url..url + urlEnd]);
  }

  lemma FunctionSource(input: string, end: nat, space: nat, form: Form)
    requires "$[" <= input && 2 <= end < |input| && input[end] == ']' && space <= end - 2
    ensures Source(Function(input[2..2 + space], input[2 + space..end], form)) == input[..end + 1]
  {
    Joined(input, 2, 2 + space);
    Joined(input, 2 + space, end);
    Joined(input, end, end + 1);
  }

  lemma FunctionExplains(env: Env, input: string, end: nat, space: nat, form: Form, depth: nat)
    requires "$[" <= input && 2 <= end < |input| && input[end] == ']' && 0 < space < end - 2
    requires FunctionSpace(input[2 + space]) && ValidForm(env, form)
    requires FormFits(env, input[2..2 + space], TrimLeft(input[2 + space..end], FunctionSpace), form)
    requires FormHeight(form) <= Budget(depth)
    ensures Explains(env, Function(input[2..2 + space], input[2 + space..end], form),
                     Piece(PrintForm(env, form), end + 1, true), input, depth)
  {
    hide FormFits, ValidForm, PrintForm, TrimLeft, HeightAll, Source, FunctionSpace;
    FunctionSource(input, end, space, form);
  }

  lemma FunctionDoc(env: Env, input: string, depth: nat) returns (node: Node)
    requires depth < MAX_NESTING && InlineFunction(env, input, depth).Some?
    ensures Explains(env, node, InlineFunction(env, input, depth).value, input, depth)
    decreases Budget(depth), |input|, 0
  {
    hide FormFits, ValidForm, PrintForm, RenderFunction, FormHeight, Explains;
    var end := MatchingFunctionEnd(input);
    var raw := input[2..end];
    var space := IndexAny(raw, " \t\r\n");
    assert raw[..space] == input[2..2 + space] && raw[space..] == input[2 + space..end];
    var form := FormDoc(env, raw[..space], TrimLeft(raw[space..], FunctionSpace), depth);
    FunctionExplains(env, input, end, space, form, depth);
    node := Function(raw[..space], raw[space..], form);
  }

  function FormHeight(form: Form): nat {
    Height(Function("", "", form))
  }

  lemma FormDoc(env: Env, header: string, content: string, depth: nat) returns (form: Form)
    requires depth < MAX_NESTING
    ensures ValidForm(env, form) && FormFits(env, header, content, form)
    ensures PrintForm(env, form) == RenderFunction(env, FunctionName(env, header), content, depth)
    ensures FormHeight(form) <= Budget(depth)
    decreases Budget(depth), 0, 0
  {
    hide TimeHtml, RubyHtml, Element, TrimSpace, BeforeLastWord, LastWord, Render, Fields;
    var name, words := FunctionName(env, header), Fields(content);
    if name == "unixtime" && words != [] && env.unixTime(words[0]).Some? {
      form := Time(env.unixTime(words[0]).value);
    } else if name == "ruby" && |words| >= 2 {
      var base := RenderDoc(env, TrimSpace(BeforeLastWord(content)), depth + 1);
      form := Ruby(base, LastWord(content));
    } else {
      var kids := RenderDoc(env, content, depth + 1);
      form := Italic(kids);
    }
  }

  lemma BlockDoc(env: Env, input: string, depth: nat) returns (node: Node)
    requires depth < MAX_NESTING && Block(env, input, depth).Some?
    ensures Explains(env, node, Block(env, input, depth).value, input, depth)
    decreases Budget(depth), |input|, 1
  {
    if BlockCode(input).Some? {
      node := BlockCodeDoc(env, input, depth);
    } else if MathBlock(input).Some? {
      node := MathBlockDoc(env, input, depth);
    } else if CenterBlock(env, input, depth).Some? {
      node := CenterDoc(env, input, depth);
    } else if QuoteBlock(env, input, depth).Some? {
      node := QuoteDoc(env, input, depth);
    } else {
      node := SearchDoc(env, input, depth);
    }
  }

  lemma InlineDoc(env: Env, input: string, depth: nat) returns (node: Node)
    requires depth < MAX_NESTING && Inline(env, input, depth).Some?
    ensures Explains(env, node, Inline(env, input, depth).value, input, depth)
    decreases Budget(depth), |input|, 1
  {
    if InlineLiteral(input).Some? {
      node := InlineLiteralDoc(env, input, depth);
    } else if InlineStyled(env, input, depth, 0).Some? {
      node := StyledDoc(env, input, depth, 0);
    } else if InlineCode(input, "`", "`").Some? {
      node := InlineCodeDoc(env, input, "`", "`", depth);
    } else if InlineCode(input, "\\(", "\\)").Some? {
      node := InlineCodeDoc(env, input, "\\(", "\\)", depth);
    } else if InlineLink(env, input, depth).Some? {
      node := LinkDoc(env, input, depth);
    } else if InlineFunction(env, input, depth).Some? {
      node := FunctionDoc(env, input, depth);
    } else {
      node := InlineTokenDoc(env, input, depth);
    }
  }

  lemma ConstructDoc(env: Env, input: string, i: nat, depth: nat) returns (node: Node)
    requires depth < MAX_NESTING && i < |input| && Construct(env, input, i, depth).Some?
    ensures Explains(env, node, Construct(env, input, i, depth).value, input[i..], depth)
    decreases Budget(depth), |input| - i, 2
  {
    if LineStart(input, i) && Block(env, input[i..], depth).Some? {
      node := BlockDoc(env, input[i..], depth);
    } else {
      node := InlineDoc(env, input[i..], depth);
    }
  }

  lemma ConsDoc(env: Env, node: Node, rest: seq<Node>, html: string, input: string, depth: nat)
    requires Valid(env, node) && Height(node) <= Budget(depth)
    requires Source(node) <= input && ExplainsAll(env, rest, html, input[|Source(node)|..], depth)
    ensures ExplainsAll(env, [node] + rest, Print(env, node) + html, input, depth)
    ensures AdvancedAny([node] + rest) <==> Advanced(node) || AdvancedAny(rest)
  {
    hide Source, Print, Valid, Height, Advanced;
    assert ([node] + rest)[1..] == rest;
    assert Source(node) + input[|Source(node)|..] == input;
  }

  lemma WordsNode(env: Env, text: string)
    ensures Valid(env, Words(text)) && Height(Words(text)) == 0 && !Advanced(Words(text))
    ensures Source(Words(text)) == text && Print(env, Words(text)) == RenderText(text)
  {
  }

  lemma PieceDoc(env: Env, input: string, i: nat, depth: nat) returns (node: Node)
    requires depth < MAX_NESTING && i < |input|
    ensures Explains(env, node, NextPiece(env, input, i, depth), input[i..], depth)
    decreases Budget(depth), |input| - i, 3
  {
    if Construct(env, input, i, depth).Some? {
      node := ConstructDoc(env, input, i, depth);
    } else {
      var end := NextCandidate(input, i + 1);
      node := Words(input[i..end]);
      WordsNode(env, input[i..end]);
      assert input[i..][..end - i] == input[i..end];
    }
  }

  lemma {:induction false} RenderFromDoc(env: Env, input: string, i: nat, depth: nat) returns (doc: seq<Node>)
    requires depth < MAX_NESTING && i <= |input|
    ensures ExplainsAll(env, doc, RenderFrom(env, input, i, depth).0, input[i..], depth)
    ensures AdvancedAny(doc) <==> RenderFrom(env, input, i, depth).1
    decreases Budget(depth), |input| - i, 4
  {
    hide NextPiece;
    if i == |input| {
      doc := [];
    } else {
      var node := PieceDoc(env, input, i, depth);
      var next := i + NextPiece(env, input, i, depth).consumed;
      var rest := RenderFromDoc(env, input, next, depth);
      assert input[i..] == input[i..next] + input[next..];
      ConsDoc(env, node, rest, RenderFrom(env, input, next, depth).0, input[i..], depth);
      doc := [node] + rest;
    }
  }

  /** Every rendering is the print of a document whose source is exactly the input. */
  lemma {:induction false} RenderDoc(env: Env, input: string, depth: nat) returns (doc: seq<Node>)
    ensures ExplainsAll(env, doc, Render(env, input, depth).0, input, depth)
    ensures AdvancedAny(doc) <==> Render(env, input, depth).1
    decreases Budget(depth), |input|, 5
  {
    if depth >= MAX_NESTING {
      doc := [Words(input)];
      assert SourceAll(doc) == input + "" == input;
      assert PrintAll(env, doc) == RenderText(input) + "" == RenderText(input);
    } else {
      doc := RenderFromDoc(env, input, 0, depth);
      assert input[0..] == input;
    }
  }

  // ---------------------------------------------------------------- the properties of a note body

  /** For every input there is a document, nested at most 20 deep, whose source is exactly the
      input, whose print is the output, and which a strict reader of the output sees: balanced
      known elements, every special character escaped, every link http or https. */
  lemma RenderingIsFaithful(env: Env, input: string)
    requires env.Lawful()
    ensures exists doc ::
              && ExplainsAll(env, doc, Render(env, input, 0).0, input, 0)
              && (AdvancedAny(doc) <==> Render(env, input, 0).1)
              && Reads(Render(env, input, 0).0, EventsAll(env, doc))
  {
    var doc := RenderDoc(env, input, 0);
    ReadDocument(env, doc, [], []);
    assert [] + EventsAll(env, doc) == EventsAll(env, doc);
  }

  /** Without advanced syntax and CR, the visible text is the input node by node: only brackets
      around a URL disappear and only zero-width spaces around emoji codes are added. */
  lemma SimpleTextIsRecovered(env: Env, input: string)
    requires env.Lawful() && !Render(env, input, 0).1 && '\r' !in input
    ensures exists doc, log ::
              && ValidAll(env, doc) && SourceAll(doc) == input && !AdvancedAny(doc)
              && Reads(Render(env, input, 0).0, log) && Shown(log) == VisibleAll(doc)
  {
    var doc := RenderDoc(env, input, 0);
    ReadDocument(env, doc, [], []);
    SimpleDocumentShows(env, doc);
    var log := EventsAll(env, doc);
    assert [] + log == log;
    assert Reads(Render(env, input, 0).0, log);
  }

  lemma CodesHaveColons(env: Env, node: Node)
    requires Valid(env, node) && Visible(node) != Source(node)
    ensures exists k :: 0 <= k < |Source(node)| && Source(node)[k] == ':'
  {
    if node.Emoji? {
      assert Source(node)[0] == ':';
    } else {
      SchemeHasColon(node.url);
      var k :| 0 <= k < |node.url| && node.url[k] == ':';
      assert Source(node)[if node.angled then k + 1 else k] == ':';
    }
  }

  lemma NodeUnchanged(env: Env, node: Node)
    requires Valid(env, node) && ':' !in Source(node)
    ensures Visible(node) == Source(node)
  {
    if Visible(node) != Source(node) {
      CodesHaveColons(env, node);
    }
  }

  lemma {:induction false} NoCodesNoChange(env: Env, doc: seq<Node>)
    requires ValidAll(env, doc) && ':' !in SourceAll(doc)
    ensures VisibleAll(doc) == SourceAll(doc)
  {
    if doc != [] {
      assert SourceAll(doc) == Source(doc[0]) + SourceAll(doc[1..]);
      NodeUnchanged(env, doc[0]);
      NoCodesNoChange(env, doc[1..]);
    }
  }

  lemma SchemeHasColon(url: string)
    requires HttpUrl(url)
    ensures ':' in url
  {
    if "http://" <= url {
      assert url[4] == "http://"[4];
    } else {
      assert url[5] == "https://"[5];
    }
  }

  /** Text without colons, CR and advanced syntax is shown exactly as it was written. */
  lemma PlainTextIsExact(env: Env, input: string)
    requires env.Lawful() && !Render(env, input, 0).1 && '\r' !in input && ':' !in input
    ensures exists log :: Reads(Render(env, input, 0).0, log) && Shown(log) == input
  {
    SimpleTextIsRecovered(env, input);
    var doc, log :| ValidAll(env, doc) && SourceAll(doc) == input && !AdvancedAny(doc)
                 && Reads(Render(env, input, 0).0, log) && Shown(log) == VisibleAll(doc);
    NoCodesNoChange(env, doc);
  }
}
