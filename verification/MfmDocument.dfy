/** The syntax tree behind a note body: its MFM source, the HTML it prints to and what a reader
    of that HTML sees. The renderer itself never builds this tree; `Mfm` proves that it behaves
    as if it did. */
module MfmDocument {
  import opened Text
  import opened Html

  /** URL parsing, URL escaping, case mapping and time formatting are the environment's. */
  datatype Env = Env(
    publicURL: string,
    allowUnsafe: bool,
    isAllowedURL: (string, bool) -> bool,
    safeURL: string -> Option<string>,
    pathEscape: string -> string,
    queryEscape: string -> string,
    unixTime: string -> Option<string>,
    isDigit: char -> bool,
    lower: string -> string)
  {
    /** What the environment owes: links are http(s), and a formatted time needs no escaping. */
    ghost predicate Lawful() {
      && HttpUrl(publicURL)
      && (forall raw :: safeURL(raw).Some? ==> HttpUrl(safeURL(raw).value))
      && (forall word :: unixTime(word).Some? ==> EscapeHTML(unixTime(word).value) == unixTime(word).value)
    }

    function SafeRemoteURL(raw: string): Option<string> {
      if isAllowedURL(raw, allowUnsafe) then safeURL(raw) else None
    }
  }

  /** A delimiter pair and the element it becomes. */
  datatype Style = Style(open: string, close: string, tag: string)

  const STYLE_COUNT: nat := 10

  /** The styles in the order in which they are tried. */
  function StyleAt(i: nat): (style: Style)
    requires i < STYLE_COUNT
    ensures style.open != ""
  {
    match i
    case 0 => Style("<small>", "</small>", "small")
    case 1 => Style("<b>", "</b>", "b")
    case 2 => Style("<i>", "</i>", "i")
    case 3 => Style("<s>", "</s>", "del")
    case 4 => Style("***", "***", "i")
    case 5 => Style("**", "**", "b")
    case 6 => Style("__", "__", "b")
    case 7 => Style("~~", "~~", "del")
    case 8 => Style("*", "*", "i")
    case _ => Style("_", "_", "i")
  }

  /** Styles that enclose anything, nothing but plain words, or one line without the delimiter. */
  predicate Admissible(i: nat, content: string)
    requires i < STYLE_COUNT
  {
    if i <= 3 then true
    else if i >= 8 then AsciiSpan(content)
    else content != "" && (i == 7 ==> !ContainsAny(content, "~\r\n"))
  }

  /** One quoted line: the marker, the text after it and the line end. */
  datatype QuoteLine = QuoteLine(marker: string, text: string, end: string)

  datatype Node =
    | Words(text: string)
    | Styled(style: nat, kids: seq<Node>)
    | Literal(text: string)
    | Code(open: string, close: string, text: string)
    | Link(opening: string, caption: seq<Node>, url: string)
    | Function(header: string, rest: string, form: Form)
    | Url(url: string, angled: bool)
    | Mention(acct: string)
    | Hashtag(tag: string)
    | Emoji(name: string)
    | Fence(info: string, code: string, closing: string)
    | Formula(text: string)
    | Center(text: string, kids: seq<Node>)
    | Quote(lines: seq<QuoteLine>, kids: seq<Node>)
    | Search(query: string, suffix: string, suffixForm: nat, end: string)

  datatype Form = Time(stamp: string) | Ruby(base: seq<Node>, reading: string) | Italic(kids: seq<Node>)

  // ---------------------------------------------------------------- source text

  function Source(node: Node): string {
    match node
    case Words(text) => text
    case Styled(style, kids) =>
      if style < STYLE_COUNT then StyleAt(style).open + SourceAll(kids) + StyleAt(style).close else ""
    case Literal(text) => "<plain>" + text + "</plain>"
    case Code(open, close, text) => open + text + close
    case Link(opening, caption, url) => opening + SourceAll(caption) + "](" + url + ")"
    case Function(header, rest, _) => "$[" + header + rest + "]"
    case Url(url, angled) => if angled then "<" + url + ">" else url
    case Mention(acct) => acct
    case Hashtag(tag) => "#" + tag
    case Emoji(name) => ":" + name + ":"
    case Fence(info, code, closing) => "```" + info + "\n" + code + closing
    case Formula(text) => "\\[" + text + "\\]"
    case Center(text, _) => "<center>" + text + "</center>"
    case Quote(lines, _) => SourceLines(lines)
    case Search(query, suffix, _, end) => query + suffix + end
  }

  function SourceAll(doc: seq<Node>): string {
    if doc == [] then "" else Source(doc[0]) + SourceAll(doc[1..])
  }

  function SourceLines(lines: seq<QuoteLine>): string {
    if lines == [] then "" else lines[0].marker + lines[0].text + lines[0].end + SourceLines(lines[1..])
  }

  /** The quoted text: lines joined by newlines, except that leading empty lines leave nothing. */
  function Unquoted(lines: seq<QuoteLine>, content: string): string {
    if lines == [] then content
    else Unquoted(lines[1..], (if content != "" then content + "\n" else content) + lines[0].text)
  }

  const SEARCH_SUFFIX_COUNT: nat := 4

  function SearchSuffixAt(i: nat): string
    requires i < SEARCH_SUFFIX_COUNT
  {
    match i
    case 0 => " [Search]"
    case 1 => " [検索]"
    case 2 => " Search"
    case _ => " 検索"
  }

  /** `s` is the search suffix `i`. Case is ignored; only ASCII letters have a variant of the same
      encoded length. */
  predicate FoldsTo(s: string, i: nat)
    requires i < SEARCH_SUFFIX_COUNT
  {
    ToLower(s) == ToLower(SearchSuffixAt(i))
  }

  predicate FunctionSpace(c: char) {
    c in " \t\r\n"
  }

  function FunctionName(env: Env, header: string): string {
    var dot := IndexChar(header, '.');
    env.lower(if dot == -1 then header else header[..dot])
  }

  predicate AsciiSpan(s: string) {
    s != "" && forall k :: 0 <= k < |s| ==> AsciiAlphaNumeric(s[k]) || s[k] == ' ' || s[k] == '\t'
  }

  /** The shape `form` of a function call, as its name and arguments demand. */
  predicate FormFits(env: Env, header: string, content: string, form: Form) {
    var name, words := FunctionName(env, header), Fields(content);
    var time := name == "unixtime" && words != [] && env.unixTime(words[0]).Some?;
    var ruby := name == "ruby" && |words| >= 2;
    match form
    case Time(stamp) => time && env.unixTime(words[0]) == Some(stamp)
    case Ruby(base, reading) =>
      ruby && reading == LastWord(content) && SourceAll(base) == TrimSpace(BeforeLastWord(content))
    case Italic(kids) => !time && !ruby && SourceAll(kids) == content
  }

  predicate QuoteLineValid(line: QuoteLine) {
    (line.marker == ">" || line.marker == "> ") && '\n' !in line.text && line.end in ["", "\r", "\n", "\r\n"]
  }

  predicate AccountChar(c: char) {
    AsciiAlphaNumeric(c) || c == '_' || c == '-' || c == '.'
  }

  predicate AccountName(s: string) {
    s != "" && s[0] !in "-." && s[|s| - 1] !in "-." && forall k :: 0 <= k < |s| ==> AccountChar(s[k])
  }

  /** `@user`, `@user@host` or, as the user may be missing before a host, `@@host`. */
  predicate Account(acct: string) {
    acct != "" && acct[0] == '@' &&
    (AccountName(acct[1..]) ||
     exists n :: 1 <= n < |acct| && acct[n] == '@' && (n == 1 || AccountName(acct[1..n])) && AccountName(acct[n + 1..]))
  }

  predicate HashtagStop(c: char) {
    IsSpace(c) || c in ".,!?'\"#:/<>【】()「」（）[]"
  }

  predicate OnlyDigits(env: Env, s: string) {
    s != "" && forall k :: 0 <= k < |s| ==> env.isDigit(s[k])
  }

  predicate TagName(env: Env, tag: string) {
    tag != "" && !OnlyDigits(env, tag) && forall k :: 0 <= k < |tag| ==> !HashtagStop(tag[k])
  }

  predicate EmojiName(s: string) {
    s != "" && forall k :: 0 <= k < |s| ==> AsciiAlphaNumeric(s[k]) || s[k] in "_+-"
  }

  predicate Valid(env: Env, node: Node) {
    match node
    case Words(_) | Literal(_) | Formula(_) => true
    case Styled(style, kids) => style < STYLE_COUNT && Admissible(style, SourceAll(kids)) && ValidAll(env, kids)
    case Code(open, close, text) =>
      ((open == close == "`") || (open == "\\(" && close == "\\)")) && text != "" && !ContainsAny(text, "\r\n")
    case Link(opening, caption, url) =>
      (opening == "[" || opening == "?[") && caption != [] && ')' !in url && ValidAll(env, caption)
    case Function(header, rest, form) =>
      && header != "" && rest != "" && FunctionSpace(rest[0]) && ValidForm(env, form)
      && FormFits(env, header, TrimLeft(rest, FunctionSpace), form)
    case Url(url, _) => HttpUrl(url) && env.SafeRemoteURL(url).Some?
    case Mention(acct) => Account(acct)
    case Hashtag(tag) => TagName(env, tag)
    case Emoji(name) => EmojiName(name)
    case Fence(info, code, closing) => '\n' !in info && "```" <= closing && '\n' !in closing
    case Center(text, kids) => SourceAll(kids) == TrimSpace(text) && ValidAll(env, kids)
    case Quote(lines, kids) =>
      && lines != [] && SourceAll(kids) == Unquoted(lines, "") && ValidAll(env, kids)
      && forall line :: line in lines ==> QuoteLineValid(line)
    case Search(query, suffix, form, end) =>
      query != "" && form < SEARCH_SUFFIX_COUNT && FoldsTo(suffix, form) && (end == "" || end == "\r")
  }

  predicate ValidAll(env: Env, doc: seq<Node>) {
    doc == [] || (Valid(env, doc[0]) && ValidAll(env, doc[1..]))
  }

  predicate ValidForm(env: Env, form: Form) {
    match form
    case Time(_) => true
    case Ruby(base, _) => ValidAll(env, base)
    case Italic(kids) => ValidAll(env, kids)
  }

  /** Syntax that HTML alone cannot give back. */
  predicate Advanced(node: Node) {
    !(node.Words? || node.Url? || node.Mention? || node.Hashtag? || node.Emoji?)
  }

  predicate AdvancedAny(doc: seq<Node>) {
    doc != [] && (Advanced(doc[0]) || AdvancedAny(doc[1..]))
  }

  function Max(a: nat, b: nat): nat {
    if a < b then b else a
  }

  function Height(node: Node): nat {
    match node
    case Styled(_, kids) => 1 + HeightAll(kids)
    case Link(_, caption, _) => 1 + HeightAll(caption)
    case Center(_, kids) => 1 + HeightAll(kids)
    case Quote(_, kids) => 1 + HeightAll(kids)
    case Function(_, _, Ruby(base, _)) => 1 + HeightAll(base)
    case Function(_, _, Italic(kids)) => 1 + HeightAll(kids)
    case _ => 0
  }

  function HeightAll(doc: seq<Node>): nat {
    if doc == [] then 0 else Max(Height(doc[0]), HeightAll(doc[1..]))
  }

  // ---------------------------------------------------------------- printed HTML

  function Element(tag: string, inner: string): string {
    "<" + tag + ">" + inner + ("</" + tag + ">")
  }

  function Anchor(href: string, extra: string, inner: string): string {
    "<" + ("a href=\"" + (EscapeHTML(href) + "\"" + extra)) + ">" + inner + ("</" + "a" + ">")
  }

  function CenterHtml(inner: string): string {
    "<" + StartTag("div") + ">" + inner + ("</" + "div" + ">")
  }

  function TimeHtml(stamp: string): string {
    "<" + ("time datetime=\"" + (stamp + "\"")) + ">" + stamp + ("</" + "time" + ">")
  }

  function RubyHtml(base: string, reading: string): string {
    Element("ruby", base + (Element("rp", "(") + (Element("rt", EscapeHTML(reading)) + Element("rp", ")"))))
  }

  function LinkHtml(env: Env, caption: string, url: string): string {
    match env.SafeRemoteURL(url)
    case Some(href) => Anchor(href, "", caption)
    case None => "[" + (caption + ("](" + (EscapeHTML(url) + ")")))
  }

  function MentionHtml(env: Env, acct: string): string {
    match env.safeURL(env.publicURL + "/" + acct)
    case Some(href) => Anchor(href, " class=\"u-url mention\"", EscapeHTML(acct))
    case None => EscapeHTML(acct)
  }

  function TagHref(env: Env, tag: string): string {
    env.publicURL + "/tags/" + env.pathEscape(tag)
  }

  function SearchHref(env: Env, query: string): string {
    "https://www.google.com/search?q=" + ReplaceAll(env.queryEscape(query), "+", "%20")
  }

  function EmojiText(name: string): string {
    "\U{200B}:" + name + ":\U{200B}"
  }

  /** The code of a fence without the line end before the closing line. */
  function FenceText(code: string): string {
    TrimSuffix(TrimSuffix(code, "\n"), "\r")
  }

  function Print(env: Env, node: Node): string {
    match node
    case Words(text) => RenderText(text)
    case Styled(style, kids) => if style < STYLE_COUNT then Element(StyleAt(style).tag, PrintAll(env, kids)) else ""
    case Literal(text) => Element("span", RenderText(text))
    case Code(_, _, text) => Element("code", EscapeHTML(text))
    case Link(_, caption, url) => LinkHtml(env, PrintAll(env, caption), url)
    case Function(_, _, form) => PrintForm(env, form)
    case Url(url, _) =>
      (match env.SafeRemoteURL(url) case Some(href) => Anchor(href, "", EscapeHTML(url)) case None => "")
    case Mention(acct) => MentionHtml(env, acct)
    case Hashtag(tag) => Anchor(TagHref(env, tag), " rel=\"tag\"", "#" + EscapeHTML(tag))
    case Emoji(name) => "\U{200B}:" + EscapeHTML(name) + ":\U{200B}"
    case Fence(_, code, _) => Element("pre", Element("code", EscapeHTML(FenceText(code))))
    case Formula(text) => Element("pre", Element("code", EscapeHTML(TrimSpace(text))))
    case Center(_, kids) => CenterHtml(PrintAll(env, kids))
    case Quote(_, kids) => Element("blockquote", PrintAll(env, kids))
    case Search(query, suffix, _, _) => Anchor(SearchHref(env, query), "", EscapeHTML(query + suffix))
  }

  function PrintForm(env: Env, form: Form): string {
    match form
    case Time(stamp) => TimeHtml(stamp)
    case Ruby(base, reading) => RubyHtml(PrintAll(env, base), reading)
    case Italic(kids) => Element("i", PrintAll(env, kids))
  }

  function PrintAll(env: Env, doc: seq<Node>): string {
    if doc == [] then "" else Print(env, doc[0]) + PrintAll(env, doc[1..])
  }

  // ---------------------------------------------------------------- what a reader sees

  function In(tag: string, events: seq<Event>): seq<Event> {
    [Open(tag, "", "")] + events + [Close(tag)]
  }

  function Linked(href: string, extra: string, events: seq<Event>): seq<Event> {
    [Open("a", href, extra)] + events + [Close("a")]
  }

  function Events(env: Env, node: Node): seq<Event> {
    match node
    case Words(text) => Glyphs(Newlines(text))
    case Styled(style, kids) => if style < STYLE_COUNT then In(StyleAt(style).tag, EventsAll(env, kids)) else []
    case Literal(text) => In("span", Glyphs(Newlines(text)))
    case Code(_, _, text) => In("code", Glyphs(text))
    case Link(_, caption, url) =>
      (match env.SafeRemoteURL(url)
       case Some(href) => Linked(href, "", EventsAll(env, caption))
       case None => Glyphs("[") + (EventsAll(env, caption) + Glyphs("](" + (url + ")"))))
    case Function(_, _, form) => EventsForm(env, form)
    case Url(url, _) =>
      (match env.SafeRemoteURL(url) case Some(href) => Linked(href, "", Glyphs(url)) case None => [])
    case Mention(acct) =>
      (match env.safeURL(env.publicURL + "/" + acct)
       case Some(href) => Linked(href, " class=\"u-url mention\"", Glyphs(acct))
       case None => Glyphs(acct))
    case Hashtag(tag) => Linked(TagHref(env, tag), " rel=\"tag\"", Glyphs("#" + tag))
    case Emoji(name) => Glyphs(EmojiText(name))
    case Fence(_, code, _) => In("pre", In("code", Glyphs(FenceText(code))))
    case Formula(text) => In("pre", In("code", Glyphs(TrimSpace(text))))
    case Center(_, kids) => In("div", EventsAll(env, kids))
    case Quote(_, kids) => In("blockquote", EventsAll(env, kids))
    case Search(query, suffix, _, _) => Linked(SearchHref(env, query), "", Glyphs(query + suffix))
  }

  function EventsForm(env: Env, form: Form): seq<Event> {
    match form
    case Time(stamp) => [Open("time", stamp, "")] + Glyphs(stamp) + [Close("time")]
    case Ruby(base, reading) =>
      In("ruby", EventsAll(env, base) + (In("rp", Glyphs("(")) + (In("rt", Glyphs(reading)) + In("rp", Glyphs(")")))))
    case Italic(kids) => In("i", EventsAll(env, kids))
  }

  function EventsAll(env: Env, doc: seq<Node>): seq<Event> {
    if doc == [] then [] else Events(env, doc[0]) + EventsAll(env, doc[1..])
  }

  // ---------------------------------------------------------------- the HTML is read back

  /** `html` reads as `events` after `log`, inside the elements `open`. */
  predicate ReadsAs(html: string, events: seq<Event>, open: seq<string>, log: seq<Event>) {
    Run(html, Reader(InText, open, log)) == Reader(InText, open, log + events)
  }

  lemma ReadPair(a: string, b: string, first: seq<Event>, second: seq<Event>, open: seq<string>, log: seq<Event>)
    requires ReadsAs(a, first, open, log) && ReadsAs(b, second, open, log + first)
    ensures ReadsAs(a + b, first + second, open, log)
  {
    RunAppend(a, b, first, second, open, log);
  }

  lemma ReadElement(tag: string, inner: string, events: seq<Event>, open: seq<string>, log: seq<Event>)
    requires PlainTag(tag)
    requires ReadsAs(inner, events, [tag] + open, log + [Open(tag, "", "")])
    ensures ReadsAs(Element(tag, inner), In(tag, events), open, log)
  {
    PlainTagPair(tag);
    RunElement(tag, tag, "", "", inner, events, open, log);
  }

  lemma ReadAnchor(href: string, extra: string, inner: string, events: seq<Event>, open: seq<string>, log: seq<Event>)
    requires HttpUrl(href) && LinkExtra(extra)
    requires ReadsAs(inner, events, ["a"] + open, log + [Open("a", href, extra)])
    ensures ReadsAs(Anchor(href, extra, inner), Linked(href, extra, events), open, log)
  {
    NoAngleBrackets(href, extra);
    LinkTag(href, extra);
    EndTagName("a");
    RunElement("a href=\"" + (EscapeHTML(href) + "\"" + extra), "a", href, extra, inner, events, open, log);
  }

  lemma ReadAnchorText(href: string, extra: string, text: string, open: seq<string>, log: seq<Event>)
    requires HttpUrl(href) && LinkExtra(extra)
    ensures ReadsAs(Anchor(href, extra, EscapeHTML(text)), Linked(href, extra, Glyphs(text)), open, log)
  {
    RunEscaped(text, ["a"] + open, log + [Open("a", href, extra)]);
    ReadAnchor(href, extra, EscapeHTML(text), Glyphs(text), open, log);
  }

  lemma CenterTag()
    ensures ReadTag(StartTag("div")) == Start("div", "", "")
    ensures '<' !in StartTag("div") && '>' !in StartTag("div")
  {
    var buf := StartTag("div");
    assert buf == "div style=\"" + "text-align:" + " center;\"";
    assert '<' !in "div style=\"" && '<' !in "text-align:" && '<' !in " center;\"";
    assert '>' !in "div style=\"" && '>' !in "text-align:" && '>' !in " center;\"";
  }

  lemma ReadCenter(inner: string, events: seq<Event>, open: seq<string>, log: seq<Event>)
    requires ReadsAs(inner, events, ["div"] + open, log + [Open("div", "", "")])
    ensures ReadsAs(CenterHtml(inner), In("div", events), open, log)
  {
    CenterTag();
    EndTagName("div");
    RunElement(StartTag("div"), "div", "", "", inner, events, open, log);
  }

  lemma TimeTagBuffer(stamp: string)
    requires EscapeHTML(stamp) == stamp
    ensures var buf := "time datetime=\"" + (stamp + "\"");
            '<' !in buf && '>' !in buf && ReadTag(buf) == Start("time", stamp, "")
  {
    EscapedIsSafe(stamp);
    assert '<' !in "time datetime=\"" && '>' !in "time datetime=\"";
    TimeTag(stamp);
  }

  lemma ReadTimeElement(stamp: string, open: seq<string>, log: seq<Event>)
    requires EscapeHTML(stamp) == stamp
    ensures ReadsAs(TimeHtml(stamp), [Open("time", stamp, "")] + Glyphs(stamp) + [Close("time")], open, log)
  {
    TimeTagBuffer(stamp);
    EndTagName("time");
    RunEscaped(stamp, ["time"] + open, log + [Open("time", stamp, "")]);
    RunElement("time datetime=\"" + (stamp + "\""), "time", stamp, "", stamp, Glyphs(stamp), open, log);
  }

  lemma ReadBrackets(caption: string, url: string, events: seq<Event>, open: seq<string>, log: seq<Event>)
    requires ReadsAs(caption, events, open, log + Glyphs("["))
    ensures ReadsAs("[" + (caption + ("](" + (EscapeHTML(url) + ")"))),
                    Glyphs("[") + (events + Glyphs("](" + (url + ")"))), open, log)
  {
    EscapeAround("](", url, ")");
    RunEscaped("[", open, log);
    RunEscaped("](" + (url + ")"), open, log + Glyphs("[") + events);
    assert EscapeHTML("[") == "[";
    ReadPair(caption, "](" + (EscapeHTML(url) + ")"), events, Glyphs("](" + (url + ")")), open, log + Glyphs("["));
    ReadPair("[", caption + ("](" + (EscapeHTML(url) + ")")), Glyphs("["), events
        + Glyphs("](" + (url + ")")), open, log);
  }

  lemma {:induction false} EscapeConcat(a: string, b: string)
    ensures EscapeHTML(a + b) == EscapeHTML(a) + EscapeHTML(b)
  {
    if a == "" {
      assert a + b == b;
    } else {
      assert (a + b)[1..] == a[1..] + b;
      EscapeConcat(a[1..], b);
    }
  }

  lemma {:induction false} EscapePlain(s: string)
    requires forall k :: 0 <= k < |s| ==> s[k] !in "&<>\"'"
    ensures EscapeHTML(s) == s
  {
    if s != "" {
      EscapePlain(s[1..]);
      assert [s[0]] + s[1..] == s;
    }
  }

  lemma EscapeAround(before: string, s: string, after: string)
    requires forall k :: 0 <= k < |before| ==> before[k] !in "&<>\"'"
    requires forall k :: 0 <= k < |after| ==> after[k] !in "&<>\"'"
    ensures EscapeHTML(before + (s + after)) == before + (EscapeHTML(s) + after)
  {
    EscapePlain(before);
    EscapePlain(after);
    EscapeConcat(before, s + after);
    EscapeConcat(s, after);
  }

  lemma ReadRuby(base: string, reading: string, events: seq<Event>, open: seq<string>, log: seq<Event>)
    requires ReadsAs(base, events, ["ruby"] + open, log + [Open("ruby", "", "")])
    ensures ReadsAs(RubyHtml(base, reading),
                    In("ruby", events + (In("rp", Glyphs("(")) + (In("rt", Glyphs(reading)) + In("rp", Glyphs(")"))))),
                    open, log)
  {
    var inside, start := ["ruby"] + open, log + [Open("ruby", "", "")] + events;
    var left, middle, right := In("rp", Glyphs("(")), In("rt", Glyphs(reading)), In("rp", Glyphs(")"));
    EscapePlain("(");
    EscapePlain(")");
    ReadElementText("rp", "(", inside, start);
    ReadElementText("rt", reading, inside, start + left);
    ReadElementText("rp", ")", inside, start + left + middle);
    var html := Element("rt", EscapeHTML(reading)) + Element("rp", ")");
    ReadPair(Element("rt", EscapeHTML(reading)), Element("rp", ")"), middle, right, inside, start + left);
    ReadPair(Element("rp", "("), html, left, middle + right, inside, start);
    ReadPair(base, Element("rp", "(") + html, events, left + (middle + right), inside, log + [Open("ruby", "", "")]);
    ReadElement("ruby", base + (Element("rp", "(") + html), events + (left + (middle + right)), open, log);
  }

  lemma ReadElementText(tag: string, text: string, open: seq<string>, log: seq<Event>)
    requires PlainTag(tag)
    ensures ReadsAs(Element(tag, EscapeHTML(text)), In(tag, Glyphs(text)), open, log)
  {
    RunEscaped(text, [tag] + open, log + [Open(tag, "", "")]);
    ReadElement(tag, EscapeHTML(text), Glyphs(text), open, log);
  }

  lemma ReadPre(text: string, open: seq<string>, log: seq<Event>)
    ensures ReadsAs(Element("pre", Element("code", EscapeHTML(text))), In("pre", In("code", Glyphs(text))), open, log)
  {
    ReadElementText("code", text, ["pre"] + open, log + [Open("pre", "", "")]);
    ReadElement("pre", Element("code", EscapeHTML(text)), In("code", Glyphs(text)), open, log);
  }

  lemma ReadHashtag(env: Env, tag: string, open: seq<string>, log: seq<Event>)
    requires env.Lawful()
    ensures ReadsAs(Print(env, Hashtag(tag)), Events(env, Hashtag(tag)), open, log)
  {
    EscapePlain("#");
    EscapeConcat("#", tag);
    var href := TagHref(env, tag);
    assert env.publicURL <= href;
    assert HttpUrl(href);
    ReadAnchorText(href, " rel=\"tag\"", "#" + tag, open, log);
  }

  lemma ReadEmoji(env: Env, name: string, open: seq<string>, log: seq<Event>)
    ensures ReadsAs(Print(env, Emoji(name)), Events(env, Emoji(name)), open, log)
  {
    EscapeAround("\U{200B}:", name, ":\U{200B}");
    assert "\U{200B}:" + (name + ":\U{200B}") == EmojiText(name);
    assert "\U{200B}:" + (EscapeHTML(name) + ":\U{200B}") == Print(env, Emoji(name));
    RunEscaped(EmojiText(name), open, log);
  }

  lemma ReadMention(env: Env, acct: string, open: seq<string>, log: seq<Event>)
    requires env.Lawful()
    ensures ReadsAs(MentionHtml(env, acct), Events(env, Mention(acct)), open, log)
  {
    match env.safeURL(env.publicURL + "/" + acct)
    case Some(href) => ReadAnchorText(href, " class=\"u-url mention\"", acct, open, log);
    case None => RunEscaped(acct, open, log);
  }

  lemma ReadLinkNode(env: Env, caption: seq<Node>, url: string, open: seq<string>, log: seq<Event>)
    requires env.Lawful() && ValidAll(env, caption)
    ensures ReadsAs(LinkHtml(env, PrintAll(env, caption), url), Events(env, Link("[", caption, url)), open, log)
    decreases caption, 1
  {
    match env.SafeRemoteURL(url)
    case Some(href) =>
      ReadDocument(env, caption, ["a"] + open, log + [Open("a", href, "")]);
      ReadAnchor(href, "", PrintAll(env, caption), EventsAll(env, caption), open, log);
    case None =>
      ReadDocument(env, caption, open, log + Glyphs("["));
      ReadBrackets(PrintAll(env, caption), url, EventsAll(env, caption), open, log);
  }

  lemma ReadForm(env: Env, form: Form, open: seq<string>, log: seq<Event>)
    requires env.Lawful() && ValidForm(env, form)
    requires form.Time? ==> EscapeHTML(form.stamp) == form.stamp
    ensures ReadsAs(PrintForm(env, form), EventsForm(env, form), open, log)
    decreases form
  {
    match form
    case Time(stamp) => ReadTimeElement(stamp, open, log);
    case Ruby(base, reading) =>
      ReadDocument(env, base, ["ruby"] + open, log + [Open("ruby", "", "")]);
      ReadRuby(PrintAll(env, base), reading, EventsAll(env, base), open, log);
    case Italic(kids) => ReadKids(env, "i", kids, open, log);
  }

  lemma ReadKids(env: Env, tag: string, kids: seq<Node>, open: seq<string>, log: seq<Event>)
    requires env.Lawful() && ValidAll(env, kids) && PlainTag(tag)
    ensures ReadsAs(Element(tag, PrintAll(env, kids)), In(tag, EventsAll(env, kids)), open, log)
    decreases kids, 1
  {
    ReadDocument(env, kids, [tag] + open, log + [Open(tag, "", "")]);
    ReadElement(tag, PrintAll(env, kids), EventsAll(env, kids), open, log);
  }

  lemma StyleTag(style: nat)
    requires style < STYLE_COUNT
    ensures PlainTag(StyleAt(style).tag)
  {
  }

  lemma ReadLiteral(text: string, open: seq<string>, log: seq<Event>)
    ensures ReadsAs(Element("span", RenderText(text)), In("span", Glyphs(Newlines(text))), open, log)
  {
    RunRenderText(text, ["span"] + open, log + [Open("span", "", "")]);
    ReadElement("span", RenderText(text), Glyphs(Newlines(text)), open, log);
  }

  lemma SearchHrefIsHttp(env: Env, query: string)
    ensures HttpUrl(SearchHref(env, query))
  {
    var href := SearchHref(env, query);
    var base := "https://www.google.com/search?q=";
    assert href[..|base|] == base;
    assert base[..8] == "https://";
    assert href[..8] == base[..8];
  }

  lemma ReadSearch(env: Env, query: string, suffix: string, open: seq<string>, log: seq<Event>)
    ensures ReadsAs(Anchor(SearchHref(env, query), "", EscapeHTML(query + suffix)),
                    Linked(SearchHref(env, query), "", Glyphs(query + suffix)), open, log)
  {
    hide Anchor, Linked, ReadsAs;
    SearchHrefIsHttp(env, query);
    ReadAnchorText(SearchHref(env, query), "", query + suffix, open, log);
  }

  predicate Leaf(node: Node) {
    !(node.Styled? || node.Link? || node.Function? || node.Center? || node.Quote?)
  }

  lemma ReadLeaf(env: Env, node: Node, open: seq<string>, log: seq<Event>)
    requires env.Lawful() && Valid(env, node) && Leaf(node)
    ensures ReadsAs(Print(env, node), Events(env, node), open, log)
  {
    hide Element, Anchor, FenceText, TrimSpace, SearchHref, EscapeHTML, Glyphs, MentionHtml, RenderText, Newlines,
        Run, In, Linked, HttpUrl;
    match node
    case Words(text) => RunRenderText(text, open, log);
    case Literal(text) => ReadLiteral(text, open, log);
    case Code(_, _, text) => ReadElementText("code", text, open, log);
    case Url(url, _) => ReadAnchorText(env.SafeRemoteURL(url).value, "", url, open, log);
    case Mention(acct) => ReadMention(env, acct, open, log);
    case Hashtag(tag) => ReadHashtag(env, tag, open, log);
    case Emoji(name) => ReadEmoji(env, name, open, log);
    case Fence(_, code, _) => ReadPre(FenceText(code), open, log);
    case Formula(text) => ReadPre(TrimSpace(text), open, log);
    case Search(query, suffix, _, _) => ReadSearch(env, query, suffix, open, log);
  }

  lemma {:induction false} ReadNode(env: Env, node: Node, open: seq<string>, log: seq<Event>)
    requires env.Lawful() && Valid(env, node)
    ensures ReadsAs(Print(env, node), Events(env, node), open, log)
    decreases node
  {
    match node
    case Styled(style, kids) => StyleTag(style); ReadKids(env, StyleAt(style).tag, kids, open, log);
    case Link(_, caption, url) => ReadLinkNode(env, caption, url, open, log);
    case Function(_, _, form) => ReadForm(env, form, open, log);
    case Center(_, kids) =>
      ReadDocument(env, kids, ["div"] + open, log + [Open("div", "", "")]);
      ReadCenter(PrintAll(env, kids), EventsAll(env, kids), open, log);
    case Quote(_, kids) => ReadKids(env, "blockquote", kids, open, log);
    case _ => ReadLeaf(env, node, open, log);
  }

  /** The print of any valid document is accepted by the reader, which sees exactly its events. */
  lemma {:induction false} ReadDocument(env: Env, doc: seq<Node>, open: seq<string>, log: seq<Event>)
    requires env.Lawful() && ValidAll(env, doc)
    ensures ReadsAs(PrintAll(env, doc), EventsAll(env, doc), open, log)
    decreases doc, 0
  {
    if doc == [] {
      assert log + EventsAll(env, doc) == log;
    } else {
      ReadNode(env, doc[0], open, log);
      ReadDocument(env, doc[1..], open, log + Events(env, doc[0]));
      ReadPair(Print(env, doc[0]), PrintAll(env, doc[1..]), Events(env, doc[0]), EventsAll(env, doc[1..]), open, log);
    }
  }

  // ---------------------------------------------------------------- visible text

  /** What simple syntax shows: the source, without the brackets of a URL and with zero-width
      spaces around an emoji code. */
  function Visible(node: Node): string {
    match node
    case Url(url, _) => url
    case Emoji(name) => EmojiText(name)
    case _ => Source(node)
  }

  function VisibleAll(doc: seq<Node>): string {
    if doc == [] then "" else Visible(doc[0]) + VisibleAll(doc[1..])
  }

  lemma {:induction false} ShownConcat(a: seq<Event>, b: seq<Event>)
    ensures Shown(a + b) == Shown(a) + Shown(b)
  {
    if a == [] {
      assert a + b == b;
    } else {
      assert (a + b)[0] == a[0] && (a + b)[1..] == a[1..] + b;
      ShownConcat(a[1..], b);
      var first := if a[0].Glyph? then [a[0].c] else "";
      Associative(first, Shown(a[1..]), Shown(b));
    }
  }

  lemma {:induction false} ShownGlyphs(s: string)
    ensures Shown(Glyphs(s)) == s
  {
    if s != "" {
      assert ([Glyph(s[0])] + Glyphs(s[1..]))[1..] == Glyphs(s[1..]);
      ShownGlyphs(s[1..]);
      assert [s[0]] + s[1..] == s;
    }
  }

  lemma ShownLinked(href: string, extra: string, text: string)
    ensures Shown(Linked(href, extra, Glyphs(text))) == text
  {
    ShownGlyphs(text);
    ShownConcat([Open("a", href, extra)] + Glyphs(text), [Close("a")]);
    ShownConcat([Open("a", href, extra)], Glyphs(text));
    assert Shown([Close("a")]) == "" && Shown([Open("a", href, extra)]) == "";
  }

  lemma {:induction false} NewlinesWithoutCr(s: string)
    requires '\r' !in s
    ensures Newlines(s) == s
  {
    if s != "" {
      NewlinesWithoutCr(s[1..]);
      assert [s[0]] + s[1..] == s;
    }
  }

  lemma SimpleNodeShows(env: Env, node: Node)
    requires Valid(env, node) && !Advanced(node) && '\r' !in Source(node)
    ensures Shown(Events(env, node)) == Visible(node)
  {
    match node
    case Words(text) => NewlinesWithoutCr(text); ShownGlyphs(text);
    case Url(url, _) => ShownLinked(env.SafeRemoteURL(url).value, "", url);
    case Mention(acct) =>
      ShownGlyphs(acct);
      if env.safeURL(env.publicURL + "/" + acct).Some? {
        ShownLinked(env.safeURL(env.publicURL + "/" + acct).value, " class=\"u-url mention\"", acct);
      }
    case Hashtag(tag) => ShownLinked(TagHref(env, tag), " rel=\"tag\"", "#" + tag);
    case Emoji(name) => ShownGlyphs(EmojiText(name));
  }

  /** A document of simple syntax shows its own source, node by node. */
  lemma {:induction false} SimpleDocumentShows(env: Env, doc: seq<Node>)
    requires ValidAll(env, doc) && !AdvancedAny(doc) && '\r' !in SourceAll(doc)
    ensures Shown(EventsAll(env, doc)) == VisibleAll(doc)
  {
    if doc != [] {
      SimpleNodeShows(env, doc[0]);
      SimpleDocumentShows(env, doc[1..]);
      ShownConcat(Events(env, doc[0]), EventsAll(env, doc[1..]));
    }
  }
}
