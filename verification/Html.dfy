/** An independent reader for the HTML fragment the renderer may emit: a push-down automaton that
    consumes one character at a time and rejects unknown tags, unescaped characters, unknown
    entities, mismatched end tags and links that are not http or https. */
module Html {
  import opened Text

  /** What a reader sees: characters (a line break is a newline) and well-nested elements. */
  datatype Event = Glyph(c: char) | Open(tag: string, value: string, extra: string) | Close(tag: string)

  datatype Mode = InText | InTag(buf: string) | InEntity(name: string)

  datatype Reader = Rejected | Reader(mode: Mode, open: seq<string>, log: seq<Event>)

  datatype Tag = BadTag | LineBreak | Start(tag: string, value: string, extra: string) | End(tag: string)

  /** Elements that are written without attributes. */
  predicate PlainTag(tag: string) {
    || tag == "small" || tag == "b" || tag == "i" || tag == "del" || tag == "span" || tag == "code"
    || tag == "pre" || tag == "blockquote" || tag == "ruby" || tag == "rp" || tag == "rt"
  }

  /** What may follow the address of a link. */
  predicate LinkExtra(extra: string) {
    extra == "" || extra == " class=\"u-url mention\"" || extra == " rel=\"tag\""
  }

  /** The start tag of an element without an address: only a centred block has an attribute. */
  function StartTag(tag: string): string {
    if tag == "div" then "div style=\"text-align: center;\"" else tag
  }

  predicate HttpUrl(s: string) {
    "http://" <= s || "https://" <= s
  }

  function EntityChar(name: string): Option<char> {
    if name == "amp" then Some('&')
    else if name == "lt" then Some('<')
    else if name == "gt" then Some('>')
    else if name == "quot" then Some('"')
    else if name == "#39" then Some('\'')
    else None
  }

  /** The meaning of an attribute value; none when a special character is not escaped. */
  function Decode(s: string): Option<string> {
    if s == "" then Some("")
    else if s[0] in "<>\"'" then None
    else if s[0] == '&' then
      var end := IndexChar(s, ';');
      if end == -1 then None
      else
        match (EntityChar(s[1..end]), Decode(s[end + 1..]))
        case (Some(c), Some(rest)) => Some([c] + rest)
        case _ => None
    else
      match Decode(s[1..])
      case Some(rest) => Some([s[0]] + rest)
      case None => None
  }

  function ReadAttribute(tag: string, rest: string): Tag {
    var end := IndexChar(rest, '"');
    if end == -1 then BadTag
    else
      match Decode(rest[..end])
      case Some(value) => Start(tag, value, rest[end + 1..])
      case None => BadTag
  }

  function ReadTag(buf: string): Tag {
    if buf == StartTag("div") then Start("div", "", "")
    else if buf == "br /" then LineBreak
    else if PlainTag(buf) then Start(buf, "", "")
    else if "/" <= buf then End(buf[1..])
    else if "a href=\"" <= buf then
      var tag := ReadAttribute("a", buf[8..]);
      if tag.Start? && HttpUrl(tag.value) && LinkExtra(tag.extra) then tag else BadTag
    else if "time datetime=\"" <= buf then
      var tag := ReadAttribute("time", buf[15..]);
      if tag.Start? && tag.extra == "" then tag else BadTag
    else BadTag
  }

  function EndTag(buf: string, open: seq<string>, log: seq<Event>): Reader {
    match ReadTag(buf)
    case BadTag => Rejected
    case LineBreak => Reader(InText, open, log + [Glyph('\n')])
    case Start(tag, value, extra) => Reader(InText, [tag] + open, log + [Open(tag, value, extra)])
    case End(tag) =>
      if open != [] && open[0] == tag then Reader(InText, open[1..], log + [Close(tag)]) else Rejected
  }

  function Step(r: Reader, c: char): Reader {
    if r.Rejected? then Rejected
    else
      match r.mode
      case InText =>
        if c == '<' then r.(mode := InTag(""))
        else if c == '&' then r.(mode := InEntity(""))
        else if c in ">\"'" then Rejected
        else r.(log := r.log + [Glyph(c)])
      case InTag(buf) =>
        if c == '>' then EndTag(buf, r.open, r.log)
        else if c == '<' then Rejected
        else r.(mode := InTag(buf + [c]))
      case InEntity(name) =>
        if c == ';' then
          match EntityChar(name)
          case Some(decoded) => Reader(InText, r.open, r.log + [Glyph(decoded)])
          case None => Rejected
        else r.(mode := InEntity(name + [c]))
  }

  function Run(s: string, r: Reader): Reader {
    if s == "" then r else Run(s[1..], Step(r, s[0]))
  }

  /** The whole of `html` is accepted, every element closed, and reads as `log`. */
  predicate Reads(html: string, log: seq<Event>) {
    Run(html, Reader(InText, [], [])) == Reader(InText, [], log)
  }

  function Glyphs(s: string): seq<Event> {
    if s == "" then [] else [Glyph(s[0])] + Glyphs(s[1..])
  }

  /** The characters a reader sees, without the elements around them. */
  function Shown(log: seq<Event>): string {
    if log == [] then ""
    else (if log[0].Glyph? then [log[0].c] else "") + Shown(log[1..])
  }

  function EscapeChar(c: char): string {
    if c == '&' then "&amp;"
    else if c == '<' then "&lt;"
    else if c == '>' then "&gt;"
    else if c == '"' then "&quot;"
    else if c == '\'' then "&#39;"
    else [c]
  }

  function EscapeHTML(value: string): string {
    if value == "" then "" else EscapeChar(value[0]) + EscapeHTML(value[1..])
  }

  function RenderText(value: string): string {
    ReplaceAll(ReplaceAll(ReplaceAll(EscapeHTML(value), "\r\n", "\n"), "\r", "\n"), "\n", "<br />")
  }

  /** Line ends as `RenderText` shows them: CRLF and lone CR both become one newline. */
  function Newlines(s: string): string {
    if s == "" then ""
    else if "\r\n" <= s then "\n" + Newlines(s[2..])
    else (if s[0] == '\r' then "\n" else [s[0]]) + Newlines(s[1..])
  }

  // ---------------------------------------------------------------- runs compose

  lemma {:induction false} RunConcat(a: string, b: string, r: Reader)
    ensures Run(a + b, r) == Run(b, Run(a, r))
  {
    if a == "" {
      assert a + b == b;
    } else {
      assert (a + b)[1..] == a[1..] + b;
      RunConcat(a[1..], b, Step(r, a[0]));
    }
  }

  lemma {:induction false} RunTagBody(seen: string, buf: string, open: seq<string>, log: seq<Event>)
    requires '<' !in buf && '>' !in buf
    ensures Run(buf + ">", Reader(InTag(seen), open, log)) == EndTag(seen + buf, open, log)
    decreases |buf|
  {
    if buf == "" {
      assert buf + ">" == ">" && seen + buf == seen;
      assert Run(">"[1..], Step(Reader(InTag(seen), open, log), '>')) == EndTag(seen, open, log);
    } else {
      assert (buf + ">")[1..] == buf[1..] + ">";
      assert seen + [buf[0]] + buf[1..] == seen + buf;
      RunTagBody(seen + [buf[0]], buf[1..], open, log);
    }
  }

  lemma RunTag(buf: string, open: seq<string>, log: seq<Event>)
    requires '<' !in buf && '>' !in buf
    ensures Run("<" + buf + ">", Reader(InText, open, log)) == EndTag(buf, open, log)
  {
    assert ("<" + buf + ">")[1..] == buf + ">";
    RunTagBody("", buf, open, log);
    assert "" + buf == buf;
  }

  lemma {:induction false} RunEntityBody(seen: string, name: string, open: seq<string>, log: seq<Event>)
    requires ';' !in name
    requires EntityChar(seen + name).Some?
    ensures Run(name + ";", Reader(InEntity(seen), open, log))
         == Reader(InText, open, log + [Glyph(EntityChar(seen + name).value)])
    decreases |name|
  {
    if name == "" {
      assert name + ";" == ";" && seen + name == seen;
      assert Run(";"[1..], Step(Reader(InEntity(seen), open, log), ';'))
          == Step(Reader(InEntity(seen), open, log), ';');
    } else {
      assert (name + ";")[1..] == name[1..] + ";";
      assert seen + [name[0]] + name[1..] == seen + name;
      RunEntityBody(seen + [name[0]], name[1..], open, log);
    }
  }

  /** The name of the entity that stands for a special character. */
  function EntityName(c: char): (name: string)
    requires c in "&<>\"'"
    ensures EscapeChar(c) == "&" + name + ";" && ';' !in name && EntityChar(name) == Some(c)
  {
    if c == '&' then "amp" else if c == '<' then "lt" else if c == '>' then "gt"
    else if c == '"' then "quot" else "#39"
  }

  lemma RunEscapeChar(c: char, open: seq<string>, log: seq<Event>)
    ensures Run(EscapeChar(c), Reader(InText, open, log)) == Reader(InText, open, log + [Glyph(c)])
  {
    if c in "&<>\"'" {
      var name := EntityName(c);
      assert ("&" + name + ";")[1..] == name + ";";
      assert "" + name == name;
      RunEntityBody("", name, open, log);
    } else {
      assert [c][1..] == "";
    }
  }

  /** Two pieces that read as events read, one after the other, as both. */
  lemma RunAppend(a: string, b: string, first: seq<Event>, second: seq<Event>, open: seq<string>, log: seq<Event>)
    requires Run(a, Reader(InText, open, log)) == Reader(InText, open, log + first)
    requires Run(b, Reader(InText, open, log + first)) == Reader(InText, open, log + first + second)
    ensures Run(a + b, Reader(InText, open, log)) == Reader(InText, open, log + (first + second))
  {
    RunConcat(a, b, Reader(InText, open, log));
    assert log + first + second == log + (first + second);
  }

  lemma {:induction false} RunEscaped(s: string, open: seq<string>, log: seq<Event>)
    ensures Run(EscapeHTML(s), Reader(InText, open, log)) == Reader(InText, open, log + Glyphs(s))
    decreases |s|
  {
    if s == "" {
      assert log + Glyphs(s) == log;
    } else {
      RunEscapeChar(s[0], open, log);
      RunEscaped(s[1..], open, log + [Glyph(s[0])]);
      RunAppend(EscapeChar(s[0]), EscapeHTML(s[1..]), [Glyph(s[0])], Glyphs(s[1..]), open, log);
    }
  }

  // ---------------------------------------------------------------- attribute values

  lemma DecodeEntity(name: string, c: char, rest: string)
    requires ';' !in name && EntityChar(name) == Some(c)
    ensures Decode("&" + name + ";" + rest)
         == match Decode(rest) case Some(t) => Some([c] + t) case None => None
  {
    var all := "&" + name + ";" + rest;
    assert all[|name| + 1] == ';';
    assert forall k :: 0 <= k < |name| ==> all[k + 1] == name[k] != ';';
    assert IndexChar(all, ';') == |name| + 1;
    assert all[1..|name| + 1] == name && all[|name| + 2..] == rest;
  }

  lemma {:induction false} DecodeEscaped(s: string)
    ensures Decode(EscapeHTML(s)) == Some(s)
  {
    hide EntityChar;
    if s != "" {
      var rest := EscapeHTML(s[1..]);
      DecodeEscaped(s[1..]);
      if s[0] in "&<>\"'" {
        DecodeEntity(EntityName(s[0]), s[0], rest);
      } else {
        assert ([s[0]] + rest)[1..] == rest;
      }
      assert [s[0]] + s[1..] == s;
    }
  }

  lemma EscapedCharIsSafe(c: char)
    ensures forall k :: 0 <= k < |EscapeChar(c)| ==> EscapeChar(c)[k] !in "<>\"'"
  {
  }

  lemma {:induction false} EscapedIsSafe(s: string)
    ensures forall k :: 0 <= k < |EscapeHTML(s)| ==> EscapeHTML(s)[k] !in "<>\"'"
  {
    if s != "" {
      EscapedIsSafe(s[1..]);
      EscapedCharIsSafe(s[0]);
    }
  }

  lemma ReadEscapedAttribute(tag: string, value: string, extra: string)
    ensures ReadAttribute(tag, EscapeHTML(value) + "\"" + extra) == Start(tag, value, extra)
  {
    EscapedIsSafe(value);
    DecodeEscaped(value);
    var escaped := EscapeHTML(value);
    var rest := escaped + "\"" + extra;
    assert rest[|escaped|] == '"';
    assert forall k :: 0 <= k < |escaped| ==> rest[k] == escaped[k] && escaped[k] in escaped;
    assert IndexChar(rest, '"') == |escaped|;
    assert rest[..|escaped|] == escaped && rest[|escaped| + 1..] == extra;
  }

  // ---------------------------------------------------------------- text with line breaks

  /** What `RenderText` makes of one character that is not CR. */
  function LineChar(c: char): string {
    if c == '\n' then "<br />" else EscapeChar(c)
  }

  function Lines(s: string): string {
    if s == "" then "" else LineChar(s[0]) + Lines(s[1..])
  }

  lemma {:induction false} ReplacePast(p: string, s: string, from: string, to: string)
    requires from != "" && from[0] !in p
    ensures ReplaceAll(p + s, from, to) == p + ReplaceAll(s, from, to)
  {
    if p == "" {
      assert p + s == s;
    } else {
      assert (p + s)[0] == p[0] && (p + s)[1..] == p[1..] + s;
      ReplacePast(p[1..], s, from, to);
      if |p + s| < |from| {
        assert |s| < |from|;
      } else {
        assert !(from <= p + s);
        assert [p[0]] + (p[1..] + ReplaceAll(s, from, to)) == p + ReplaceAll(s, from, to);
      }
    }
  }

  lemma ReplaceCrLf(rest: string)
    ensures ReplaceAll("\r\n" + rest, "\r\n", "\n") == "\n" + ReplaceAll(rest, "\r\n", "\n")
  {
    assert ("\r\n" + rest)[2..] == rest;
  }

  lemma EscapeFirst(s: string)
    requires s == "" || s[0] != '\n'
    ensures !("\n" <= EscapeHTML(s))
  {
    if s != "" {
      assert EscapeHTML(s)[0] == EscapeChar(s[0])[0];
    }
  }

  /** The two passes of `RenderText` over line ends, applied to escaped text. */
  function Unified(s: string): string {
    ReplaceAll(ReplaceAll(s, "\r\n", "\n"), "\r", "\n")
  }

  lemma EscapeCons(c: char, rest: string)
    ensures EscapeHTML([c] + rest) == EscapeChar(c) + EscapeHTML(rest)
  {
    assert ([c] + rest)[1..] == rest;
  }

  lemma EscapeNewline(rest: string)
    ensures EscapeHTML("\n" + rest) == "\n" + EscapeHTML(rest)
  {
    EscapeCons('\n', rest);
  }

  lemma EscapeReturn(rest: string)
    ensures EscapeHTML("\r" + rest) == "\r" + EscapeHTML(rest)
  {
    EscapeCons('\r', rest);
  }

  lemma EscapeCrLf(rest: string)
    ensures EscapeHTML("\r\n" + rest) == "\r\n" + EscapeHTML(rest)
  {
    EscapeCons('\n', rest);
    EscapeCons('\r', "\n" + rest);
    assert "\r" + ("\n" + rest) == "\r\n" + rest;
    assert "\r" + ("\n" + EscapeHTML(rest)) == "\r\n" + EscapeHTML(rest);
  }

  lemma UnifiedCrLf(rest: string)
    ensures Unified("\r\n" + rest) == "\n" + Unified(rest)
  {
    ReplaceCrLf(rest);
    ReplacePast("\n", ReplaceAll(rest, "\r\n", "\n"), "\r", "\n");
  }

  lemma UnifiedLoneCr(rest: string)
    requires !("\n" <= rest)
    ensures Unified("\r" + rest) == "\n" + Unified(rest)
  {
    if rest != "" {
      assert ("\r" + rest)[1] == rest[0] && ("\r" + rest)[1..] == rest;
    }
    var once := ReplaceAll(rest, "\r\n", "\n");
    assert ReplaceAll("\r" + rest, "\r\n", "\n") == "\r" + once;
    assert ("\r" + once)[1..] == once;
  }

  lemma UnifiedOther(c: char, rest: string)
    requires c != '\r'
    ensures Unified(EscapeChar(c) + rest) == EscapeChar(c) + Unified(rest)
  {
    assert '\r' !in EscapeChar(c);
    ReplacePast(EscapeChar(c), rest, "\r\n", "\n");
    ReplacePast(EscapeChar(c), ReplaceAll(rest, "\r\n", "\n"), "\r", "\n");
  }

  lemma UnifiedEmpty(s: string)
    requires s == ""
    ensures Unified(EscapeHTML(s)) == EscapeHTML(Newlines(s))
  {
  }

  lemma {:induction false} CarriageReturnsGone(s: string)
    ensures Unified(EscapeHTML(s)) == EscapeHTML(Newlines(s))
    decreases |s|
  {
    hide Unified, EscapeChar;
    if s == "" {
      UnifiedEmpty(s);
    } else if "\r\n" <= s {
      CarriageReturnsGone(s[2..]);
      assert s == "\r\n" + s[2..];
      EscapeCrLf(s[2..]);
      UnifiedCrLf(EscapeHTML(s[2..]));
      EscapeNewline(Newlines(s[2..]));
    } else if s[0] == '\r' {
      CarriageReturnsGone(s[1..]);
      assert s == "\r" + s[1..];
      EscapeReturn(s[1..]);
      EscapeFirst(s[1..]);
      UnifiedLoneCr(EscapeHTML(s[1..]));
      EscapeNewline(Newlines(s[1..]));
    } else {
      CarriageReturnsGone(s[1..]);
      UnifiedOther(s[0], EscapeHTML(s[1..]));
      EscapeCons(s[0], Newlines(s[1..]));
    }
  }

  lemma {:induction false} BreaksInserted(s: string)
    ensures ReplaceAll(EscapeHTML(s), "\n", "<br />") == Lines(s)
  {
    if s != "" {
      BreaksInserted(s[1..]);
      var rest := EscapeHTML(s[1..]);
      if s[0] == '\n' {
        assert ("\n" + rest)[1..] == rest;
      } else {
        assert '\n' !in EscapeChar(s[0]);
        ReplacePast(EscapeChar(s[0]), rest, "\n", "<br />");
      }
    }
  }

  lemma {:induction false} RunLines(s: string, open: seq<string>, log: seq<Event>)
    ensures Run(Lines(s), Reader(InText, open, log)) == Reader(InText, open, log + Glyphs(s))
    decreases |s|
  {
    if s == "" {
      assert log + Glyphs(s) == log;
    } else {
      if s[0] == '\n' {
        assert "<br />" == "<" + "br /" + ">";
        RunTag("br /", open, log);
      } else {
        RunEscapeChar(s[0], open, log);
      }
      RunLines(s[1..], open, log + [Glyph(s[0])]);
      RunAppend(LineChar(s[0]), Lines(s[1..]), [Glyph(s[0])], Glyphs(s[1..]), open, log);
    }
  }

  /** Rendered text is read back as the text itself, with line ends as newlines. */
  lemma RunRenderText(s: string, open: seq<string>, log: seq<Event>)
    ensures Run(RenderText(s), Reader(InText, open, log)) == Reader(InText, open, log + Glyphs(Newlines(s)))
  {
    CarriageReturnsGone(s);
    BreaksInserted(Newlines(s));
    RunLines(Newlines(s), open, log);
  }

  // ---------------------------------------------------------------- elements

  lemma RunThree(a: string, b: string, c: string, r: Reader)
    ensures Run(a + b + c, r) == Run(c, Run(b, Run(a, r)))
  {
    RunConcat(a + b, c, r);
    RunConcat(a, b, r);
  }

  /** An element whose content reads as `events` reads as those events between its tags. */
  lemma RunElement(buf: string, tag: string, value: string, extra: string, inner: string,
                   events: seq<Event>, open: seq<string>, log: seq<Event>)
    requires '<' !in buf && '>' !in buf && '<' !in tag && '>' !in tag
    requires ReadTag(buf) == Start(tag, value, extra)
    requires ReadTag("/" + tag) == End(tag)
    requires var start := log + [Open(tag, value, extra)];
             Run(inner, Reader(InText, [tag] + open, start)) == Reader(InText, [tag] + open, start + events)
    ensures Run("<" + buf + ">" + inner + ("</" + tag + ">"), Reader(InText, open, log))
         == Reader(InText, open, log + ([Open(tag, value, extra)] + events + [Close(tag)]))
  {
    hide ReadTag, Run;
    var start := log + [Open(tag, value, extra)];
    RunThree("<" + buf + ">", inner, "</" + tag + ">", Reader(InText, open, log));
    RunTag(buf, open, log);
    assert "</" + tag + ">" == "<" + ("/" + tag) + ">";
    RunTag("/" + tag, [tag] + open, start + events);
    assert ([tag] + open)[1..] == open;
    assert start + events + [Close(tag)] == log + ([Open(tag, value, extra)] + events + [Close(tag)]);
  }

  lemma PlainTagsAreNames(tag: string)
    requires PlainTag(tag)
    ensures tag != "" && tag != "br /" && '<' !in tag && '>' !in tag && ' ' !in tag && '/' !in tag
  {
  }

  lemma EndTagName(tag: string)
    ensures ReadTag("/" + tag) == End(tag)
  {
    var buf := "/" + tag;
    assert buf[0] == '/' && buf[1..] == tag;
    if PlainTag(buf) { PlainTagsAreNames(buf); }
    assert "/" <= buf;
  }

  lemma PlainTagPair(tag: string)
    requires PlainTag(tag)
    ensures '<' !in tag && '>' !in tag
    ensures ReadTag(tag) == Start(tag, "", "") && ReadTag("/" + tag) == End(tag)
  {
    PlainTagsAreNames(tag);
    EndTagName(tag);
  }

  lemma NoAngleBrackets(href: string, extra: string)
    requires LinkExtra(extra)
    ensures var buf := "a href=\"" + (EscapeHTML(href) + "\"" + extra);
            '<' !in buf && '>' !in buf
  {
    EscapedIsSafe(href);
    assert '<' !in extra && '>' !in extra;
    assert '<' !in "a href=\"" && '>' !in "a href=\"";
  }

  /** The buffer of a link's start tag, and what the reader makes of it. */
  lemma LinkTag(href: string, extra: string)
    requires HttpUrl(href) && LinkExtra(extra)
    ensures ReadTag("a href=\"" + (EscapeHTML(href) + "\"" + extra)) == Start("a", href, extra)
  {
    var rest := EscapeHTML(href) + "\"" + extra;
    ReadEscapedAttribute("a", href, extra);
    ReadLink(rest);
  }

  lemma ReadLink(rest: string)
    ensures ReadTag("a href=\"" + rest)
         == var tag := ReadAttribute("a", rest);
            if tag.Start? && HttpUrl(tag.value) && LinkExtra(tag.extra) then tag else BadTag
  {
    var buf := "a href=\"" + rest;
    assert buf[8..] == rest && buf[..8] == "a href=\"";
    assert buf[0] == 'a' && buf[1] == ' ';
    if PlainTag(buf) { PlainTagsAreNames(buf); }
  }

  lemma ReadTime(rest: string)
    ensures ReadTag("time datetime=\"" + rest)
         == var tag := ReadAttribute("time", rest); if tag.Start? && tag.extra == "" then tag else BadTag
  {
    hide ReadAttribute;
    var buf := "time datetime=\"" + rest;
    assert buf[15..] == rest && buf[..15] == "time datetime=\"";
    assert buf[0] == 't' && buf[4] == ' ';
    if PlainTag(buf) { PlainTagsAreNames(buf); }
  }

  lemma TimeTag(stamp: string)
    ensures ReadTag("time datetime=\"" + (EscapeHTML(stamp) + "\"")) == Start("time", stamp, "")
  {
    ReadTime(EscapeHTML(stamp) + "\"");
    assert EscapeHTML(stamp) + "\"" + "" == EscapeHTML(stamp) + "\"";
    ReadEscapedAttribute("time", stamp, "");
  }
}
