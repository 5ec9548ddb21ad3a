/** HTTP signatures (sections 2.3 and 4.1 of draft-cavage-http-signatures-12): the Signature header is
    printed and parsed back, and the string that is signed says unambiguously what was signed. */
module Signature {
  import opened Text

  /** Base64, as far as the header relies on it. */
  datatype Codec = Codec(encode: seq<bv8> -> string, decode: string -> Option<seq<bv8>>)
  {
    ghost predicate Lawful() {
      forall bytes :: decode(encode(bytes)) == Some(bytes) && '\"' !in encode(bytes) && ',' !in encode(bytes) &&
          (bytes != [] ==> encode(bytes) != "")
    }
  }

  datatype HttpSignature = HttpSignature(keyId: string, algorithm: string, headers: seq<string>, signature: seq<bv8>)

  predicate IsQuote(c: char) { c == '\"' }

  function Quoted(s: string): string { "\"" + s + "\"" }

  function Join(items: seq<string>, separator: string): string {
    if items == [] then "" else if |items| == 1 then items[0] else items[0] + separator + Join(items[1..], separator)
  }

  function LowerAll(items: seq<string>): seq<string> {
    seq(|items|, k requires 0 <= k < |items| => ToLower(items[k]))
  }

  function Parameter(name: string, value: string): string { name + "=" + Quoted(value) }

  function Printed(keyId: string, names: string, bytes: string): string {
    Parameter("keyId", keyId) + "," + Parameter("algorithm", "rsa-sha256") + "," + Parameter("headers", names) + "," +
    Parameter("signature", bytes)
  }

  function SignatureHeader(codec: Codec, keyId: string, headers: seq<string>, signature: seq<bv8>): string {
    Printed(keyId, Join(headers, " "), codec.encode(signature))
  }

  // ---------------------------------------------------------------- parsing

  /** The parts between commas outside quotes; `current` is the part read so far. */
  function SplitFrom(s: string, inQuote: bool, current: string): seq<string> {
    if s == "" then [current]
    else if s[0] == '\"' then SplitFrom(s[1..], !inQuote, current + [s[0]])
    else if s[0] == ',' && !inQuote then [current] + SplitFrom(s[1..], false, "")
    else SplitFrom(s[1..], inQuote, current + [s[0]])
  }

  method SplitComma(value: string) returns (parts: seq<string>)
    ensures parts == SplitFrom(value, false, "")
  {
    parts := [];
    var current, inQuote := "", false;
    for k := 0 to |value|
      invariant SplitFrom(value, false, "") == parts + SplitFrom(value[k..], inQuote, current)
    {
      assert value[k..][0] == value[k] && value[k..][1..] == value[k + 1..];
      if value[k] == '\"' {
        inQuote := !inQuote;
        current := current + [value[k]];
      } else if value[k] == ',' && !inQuote {
        var rest := SplitFrom(value[k + 1..], false, "");
        assert parts + ([current] + rest) == parts + [current] + rest;
        parts, current := parts + [current], "";
      } else {
        current := current + [value[k]];
      }
    }
    assert value[|value|..] == "";
    parts := parts + [current];
  }

  function Unquote(s: string): string { TrimRight(TrimLeft(s, IsQuote), IsQuote) }

  /** The name and value of one part; it needs an equals sign. */
  function ParameterOf(part: string): Option<(string, string)> {
    var trimmed := TrimSpace(part);
    var cut := IndexChar(trimmed, '=');
    if cut == -1 then None
    else Some((TrimSpace(trimmed[..cut]), Unquote(TrimSpace(trimmed[cut + 1..]))))
  }

  /** All parameters, the last of a name counting. */
  function Parameters(parts: seq<string>): Option<map<string, string>> {
    if parts == [] then Some(map[])
    else
      var before, last := Parameters(parts[..|parts| - 1]), ParameterOf(parts[|parts| - 1]);
      if before == None || last == None then None
      else if last.value.0 == "" then before
      else Some(before.value[last.value.0 := last.value.1])
  }

  lemma {:induction false} ParametersFail(parts: seq<string>, k: nat)
    requires k < |parts| && Parameters(parts[..k + 1]) == None
    ensures Parameters(parts) == None
    decreases |parts| - k
  {
    if k + 1 < |parts| {
      assert parts[..k + 2][..k + 1] == parts[..k + 1];
      ParametersFail(parts, k + 1);
    } else {
      assert parts[..k + 1] == parts;
    }
  }

  method ParseSignatureParams(header: string) returns (r: Option<map<string, string>>)
    ensures r == Parameters(SplitFrom(header, false, ""))
  {
    var parts := SplitComma(header);
    var params: map<string, string> := map[];
    for k := 0 to |parts|
      invariant Parameters(parts[..k]) == Some(params)
    {
      assert parts[..k + 1][..k] == parts[..k];
      var parameter := ParameterOf(parts[k]);
      if parameter == None {
        ParametersFail(parts, k);
        return None;
      }
      if parameter.value.0 != "" {
        params := params[parameter.value.0 := parameter.value.1];
      }
    }
    assert parts[..|parts|] == parts;
    r := Some(params);
  }

  function Get(params: map<string, string>, name: string): string {
    if name in params then params[name] else ""
  }

  function SignatureOf(codec: Codec, params: map<string, string>): Option<HttpSignature> {
    var keyId := if Get(params, "keyId") != "" then Get(params, "keyId") else Get(params, "keyid");
    var headers := Fields(Get(params, "headers"));
    var bytes := codec.decode(Get(params, "signature"));
    if keyId == "" || Get(params, "algorithm") == "" || headers == [] || Get(params, "signature") == "" ||
        bytes == None then None
    else Some(HttpSignature(keyId, ToLower(Get(params, "algorithm")), LowerAll(headers), bytes.value))
  }

  function ParseHeader(codec: Codec, header: string): Option<HttpSignature> {
    var params := Parameters(SplitFrom(header, false, ""));
    if params == None then None else SignatureOf(codec, params.value)
  }

  // ---------------------------------------------------------------- print and parse

  /** No comma stands outside quotes, starting inside or outside of them. */
  predicate Contained(s: string, inQuote: bool) {
    s == "" || (if s[0] == '\"' then Contained(s[1..], !inQuote)
        else (s[0] == ',' ==> inQuote) && Contained(s[1..], inQuote))
  }

  /** Whether reading `s` ends inside quotes. */
  predicate EndsInQuote(s: string, inQuote: bool) {
    if s == "" then inQuote else EndsInQuote(s[1..], if s[0] == '\"' then !inQuote else inQuote)
  }

  lemma {:induction false} SplitPast(s: string, rest: string, inQuote: bool, current: string)
    requires Contained(s, inQuote)
    ensures SplitFrom(s + rest, inQuote, current) == SplitFrom(rest, EndsInQuote(s, inQuote), current + s)
    decreases |s|
  {
    if s == "" {
      assert s + rest == rest && current + s == current;
    } else {
      assert (s + rest)[1..] == s[1..] + rest && (s + rest)[0] == s[0];
      assert current + [s[0]] + s[1..] == current + s;
      SplitPast(s[1..], rest, if s[0] == '\"' then !inQuote else inQuote, current + [s[0]]);
    }
  }

  lemma {:induction false} QuoteFree(s: string, inQuote: bool)
    requires '\"' !in s && (inQuote || ',' !in s)
    ensures Contained(s, inQuote) && EndsInQuote(s, inQuote) == inQuote
  {
    if s != "" {
      QuoteFree(s[1..], inQuote);
    }
  }

  lemma {:induction false} ScanConcat(a: string, b: string, inQuote: bool)
    ensures Contained(a + b, inQuote) <==> Contained(a, inQuote) && Contained(b, EndsInQuote(a, inQuote))
    ensures EndsInQuote(a + b, inQuote) == EndsInQuote(b, EndsInQuote(a, inQuote))
  {
    if a == "" {
      assert a + b == b;
    } else {
      assert (a + b)[1..] == a[1..] + b;
      ScanConcat(a[1..], b, if a[0] == '\"' then !inQuote else inQuote);
    }
  }

  /** A printed parameter is read past as one part; `odd` says that a quote in the value is left open. */
  lemma ParameterScan(name: string, value: string, inQuote: bool)
    requires '\"' !in name && ',' !in name && Contained(value, !inQuote)
    ensures Contained(Parameter(name, value), inQuote)
    ensures EndsInQuote(Parameter(name, value), inQuote) == !EndsInQuote(value, !inQuote)
  {
    QuoteFree(name + "=", inQuote);
    ScanConcat("\"", value + "\"", inQuote);
    ScanConcat(value, "\"", !inQuote);
    assert Quoted(value) == "\"" + (value + "\"");
    ScanConcat(name + "=", Quoted(value), inQuote);
  }

  lemma {:induction false} TrimLeftKeeps(s: string, cut: char -> bool)
    requires s == "" || !cut(s[0])
    ensures TrimLeft(s, cut) == s
  {
  }

  lemma TrimSpaceKeeps(s: string)
    requires s != "" && !IsSpace(s[0]) && !IsSpace(s[|s| - 1])
    ensures TrimSpace(s) == s
  {
    hide IsSpace;
    TrimLeftKeeps(s, IsSpace);
  }

  /** Trimming quotes undoes quoting exactly for what does not itself begin or end with a quote. */
  lemma UnquoteQuoted(s: string)
    ensures Unquote(Quoted(s)) == s <==> s == "" || (s[0] != '\"' && s[|s| - 1] != '\"')
  {
    var q := Quoted(s);
    assert q[1..] == s + "\"";
    TrimLeftEnds(q, IsQuote);
    TrimRightEnds(TrimLeft(q, IsQuote), IsQuote);
    if s == "" {
      assert TrimLeft(q, IsQuote) == TrimLeft(s + "\"", IsQuote) == TrimLeft("", IsQuote);
    } else if s[0] != '\"' {
      assert TrimLeft(q, IsQuote) == s + "\"";
      assert (s + "\"")[..|s|] == s;
    }
  }

  /** A part is cut at its first equals sign. */
  lemma PartRead(name: string, tail: string)
    requires name != "" && '=' !in name && forall k :: 0 <= k < |name| ==> !IsSpace(name[k])
    requires tail != "" && !IsSpace(tail[|tail| - 1])
    ensures ParameterOf(name + "=" + tail) == Some((name, Unquote(TrimSpace(tail))))
  {
    hide IsSpace;
    var part := name + "=" + tail;
    assert part[|part| - 1] == tail[|tail| - 1] && part[0] == name[0];
    TrimSpaceKeeps(part);
    assert part[..|name|] == name && part[|name|] == '=' && part[|name| + 1..] == tail;
    assert forall k :: 0 <= k < |name| ==> part[k] == name[k] && name[k] in name;
    assert IndexChar(part, '=') == |name|;
    TrimSpaceKeeps(name);
  }

  lemma QuoteIsNoSpace()
    ensures !IsSpace('\"')
  {
  }

  /** What a printed parameter is read as. */
  lemma ParameterRead(name: string, value: string)
    requires name != "" && '=' !in name && forall k :: 0 <= k < |name| ==> !IsSpace(name[k])
    ensures ParameterOf(Parameter(name, value)) == Some((name, Unquote(Quoted(value))))
  {
    hide IsSpace, ParameterOf, Unquote, TrimSpace;
    QuoteIsNoSpace();
    var tail := Quoted(value);
    assert tail[|tail| - 1] == '\"' && tail[0] == '\"';
    PartRead(name, tail);
    TrimSpaceKeeps(tail);
  }

  /** A header name as HTTP allows it, as far as it matters here. */
  predicate IsToken(s: string) {
    s != "" && '\"' !in s && ',' !in s && forall k :: 0 <= k < |s| ==> !IsSpace(s[k])
  }

  lemma {:induction false} WordOf(word: string, rest: string)
    requires (forall k :: 0 <= k < |word| ==> !IsSpace(word[k])) && (rest == "" || IsSpace(rest[0]))
    ensures WordEnd(word + rest) == |word|
  {
    hide IsSpace;
    if word == "" {
      assert word + rest == rest;
    } else {
      assert (word + rest)[1..] == word[1..] + rest;
      WordOf(word[1..], rest);
    }
  }

  lemma SpaceIsSpace()
    ensures IsSpace(' ')
  {
  }

  lemma FieldsWord(word: string, rest: string)
    requires IsToken(word) && (rest == "" || IsSpace(rest[0]))
    ensures Fields(word + rest) == [word] + Fields(rest)
  {
    hide IsSpace;
    var all := word + rest;
    WordOf(word, rest);
    assert all[0] == word[0] && all[..|word|] == word && all[|word|..] == rest;
  }

  lemma FieldsSpace(rest: string)
    ensures Fields(" " + rest) == Fields(rest)
  {
    SpaceIsSpace();
    assert (" " + rest)[1..] == rest;
  }

  lemma {:induction false} FieldsOfJoin(words: seq<string>)
    requires forall w <- words :: IsToken(w)
    ensures Fields(Join(words, " ")) == words
  {
    hide IsSpace, IsToken, Fields;
    SpaceIsSpace();
    if words == [] {
      NoFields();
    } else if |words| == 1 {
      FieldsWord(words[0], "");
      NoFields();
      assert words[0] + "" == words[0];
    } else {
      FieldsOfJoin(words[1..]);
      var rest := " " + Join(words[1..], " ");
      assert Join(words, " ") == words[0] + rest;
      FieldsWord(words[0], rest);
      FieldsSpace(Join(words[1..], " "));
    }
  }

  lemma NoFields()
    ensures Fields("") == []
  {
  }

  lemma {:induction false} JoinIsPlain(words: seq<string>)
    requires forall w <- words :: IsToken(w)
    ensures var s := Join(words, " "); '\"' !in s && ',' !in s && (words != [] ==> s != "")
  {
    hide IsSpace;
    if words != [] {
      assert words[0] in words && IsToken(words[0]);
    }
    if |words| > 1 {
      JoinIsPlain(words[1..]);
      assert Join(words, " ") == words[0] + " " + Join(words[1..], " ");
    }
  }

  /** One printed parameter and the comma after it. */
  lemma SplitOne(part: string, rest: string)
    requires Contained(part, false) && !EndsInQuote(part, false)
    ensures SplitFrom(part + "," + rest, false, "") == [part] + SplitFrom(rest, false, "")
  {
    assert part + "," + rest == part + ("," + rest);
    SplitPast(part, "," + rest, false, "");
    assert "" + part == part && ("," + rest)[1..] == rest;
  }

  lemma SplitLast(part: string)
    requires Contained(part, false)
    ensures SplitFrom(part, false, "") == [part]
  {
    assert part + "" == part && "" + part == part;
    SplitPast(part, "", false, "");
  }

  lemma SplitFour(a: string, b: string, c: string, d: string)
    requires Contained(a, false) && !EndsInQuote(a, false) && Contained(b, false) && !EndsInQuote(b, false)
    requires Contained(c, false) && !EndsInQuote(c, false) && Contained(d, false)
    ensures SplitFrom(a + "," + b + "," + c + "," + d, false, "") == [a, b, c, d]
  {
    hide SplitFrom, Contained, EndsInQuote;
    assert a + "," + b + "," + c + "," + d == a + "," + (b + "," + (c + "," + d));
    SplitOne(a, b + "," + (c + "," + d));
    SplitOne(b, c + "," + d);
    SplitOne(c, d);
    SplitLast(d);
  }

  lemma FourParameters(a: string, b: string, c: string, d: string)
    requires ParameterOf(a).Some? && ParameterOf(a).value.0 == "keyId" && ParameterOf(b).Some? &&
             ParameterOf(b).value.0 == "algorithm"
    requires ParameterOf(c).Some? && ParameterOf(c).value.0 == "headers" && ParameterOf(d).Some? &&
             ParameterOf(d).value.0 == "signature"
    ensures Parameters([a, b, c, d]) ==
            Some(map["keyId" := ParameterOf(a).value.1, "algorithm" := ParameterOf(b).value.1,
                     "headers" := ParameterOf(c).value.1, "signature" := ParameterOf(d).value.1])
  {
    hide ParameterOf;
    assert [a, b, c, d][..3] == [a, b, c] && [a, b, c][..2] == [a, b] && [a, b][..1] == [a] && [a][..0] == [];
    assert Parameters([a]) == Some(map["keyId" := ParameterOf(a).value.1]);
    assert Parameters([a, b]) == Some(map["keyId" := ParameterOf(a).value.1, "algorithm" := ParameterOf(b).value.1]);
    assert Parameters([a, b, c]) == Some(map["keyId" := ParameterOf(a).value.1, "algorithm" := ParameterOf(b).value.1,
                                             "headers" := ParameterOf(c).value.1]);
  }

  lemma PlainParameter(name: string, value: string)
    requires '\"' !in name && ',' !in name && '\"' !in value && ',' !in value
    ensures Contained(Parameter(name, value), false) && !EndsInQuote(Parameter(name, value), false)
    ensures Contained(Parameter(name, value), true) && EndsInQuote(Parameter(name, value), true)
  {
    QuoteFree(value, true);
    QuoteFree(value, false);
    ParameterScan(name, value, false);
    ParameterScan(name, value, true);
  }

  /** An even number of quotes in the key id: four parts, each read by itself. */
  lemma SplitPrinted(keyId: string, names: string, bytes: string)
    requires Contained(keyId, true) && EndsInQuote(keyId, true)
    requires '\"' !in names && ',' !in names && '\"' !in bytes && ',' !in bytes
    ensures SplitFrom(Printed(keyId, names, bytes), false, "") ==
            [Parameter("keyId", keyId), Parameter("algorithm", "rsa-sha256"), Parameter("headers", names),
                Parameter("signature", bytes)]
  {
    hide SplitFrom, Contained, EndsInQuote, Parameter;
    ParameterScan("keyId", keyId, false);
    PlainParameter("algorithm", "rsa-sha256");
    PlainParameter("headers", names);
    PlainParameter("signature", bytes);
    SplitFour(Parameter("keyId", keyId), Parameter("algorithm", "rsa-sha256"), Parameter("headers", names),
        Parameter("signature", bytes));
  }

  predicate Reads(params: map<string, string>, keyId: string, names: string, bytes: string) {
    Get(params, "keyId") == keyId && Get(params, "keyid") == "" && Get(params, "algorithm") == "rsa-sha256" &&
    Get(params, "headers") == names && Get(params, "signature") == bytes
  }

  lemma GetFour(keyId: string, names: string, bytes: string)
    ensures Reads(map["keyId" := keyId, "algorithm" := "rsa-sha256", "headers" := names, "signature" := bytes],
            keyId, names, bytes)
  {
    assert "keyid"[3] == 'i' && "keyId"[3] == 'I';
  }

  lemma ReadPrinted(keyId: string, names: string, bytes: string)
    requires Contained(keyId, true) && EndsInQuote(keyId, true)
    requires '\"' !in names && ',' !in names && '\"' !in bytes && ',' !in bytes
    ensures var params := Parameters(SplitFrom(Printed(keyId, names, bytes), false, ""));
            params.Some? && Reads(params.value, Unquote(Quoted(keyId)), names, bytes)
  {
    hide SplitFrom, Contained, EndsInQuote, Parameter, Parameters, ParameterOf, Unquote, Printed;
    SplitPrinted(keyId, names, bytes);
    ReadNames(keyId, names, bytes);
    FourParameters(Parameter("keyId", keyId), Parameter("algorithm", "rsa-sha256"), Parameter("headers", names),
        Parameter("signature", bytes));
    UnquoteQuoted("rsa-sha256");
    UnquoteQuoted(names);
    UnquoteQuoted(bytes);
    GetFour(Unquote(Quoted(keyId)), names, bytes);
  }

  lemma CodecRoundTrip(codec: Codec, signature: seq<bv8>)
    requires codec.Lawful()
    ensures var text := codec.encode(signature);
            codec.decode(text) == Some(signature) && '\"' !in text && ',' !in text && (signature != [] ==> text != "")
  {
  }

  lemma SignatureRead(codec: Codec, params: map<string, string>, keyId: string, headers: seq<string>, names: string,
                      signature: seq<bv8>, bytes: string)
    requires Reads(params, keyId, names, bytes) && Fields(names) == headers != [] &&
             codec.decode(bytes) == Some(signature) && bytes != ""
    ensures SignatureOf(codec, params) ==
            if keyId == "" then None else Some(HttpSignature(keyId, "rsa-sha256", LowerAll(headers), signature))
  {
    hide Fields, Get, LowerAll, ToLower;
    LowerAlgorithm();
  }

  lemma ReadFour(codec: Codec, keyId: string, headers: seq<string>, signature: seq<bv8>)
    requires codec.Lawful() && headers != [] && (forall h <- headers :: IsToken(h)) && signature != []
    requires Contained(keyId, true) && EndsInQuote(keyId, true)
    ensures ParseHeader(codec, SignatureHeader(codec, keyId, headers, signature)) ==
            if Unquote(Quoted(keyId)) == "" then None
            else Some(HttpSignature(Unquote(Quoted(keyId)), "rsa-sha256", LowerAll(headers), signature))
  {
    hide IsToken, SplitFrom, Contained, EndsInQuote, Unquote, Join, Fields, Printed, Parameters, Get, LowerAll,
        Quoted, SignatureOf, Reads;
    hide Codec.Lawful;
    var names, bytes := Join(headers, " "), codec.encode(signature);
    JoinIsPlain(headers);
    CodecRoundTrip(codec, signature);
    ReadPrinted(keyId, names, bytes);
    FieldsOfJoin(headers);
    SignatureRead(codec, Parameters(SplitFrom(Printed(keyId, names, bytes), false, "")).value,
        Unquote(Quoted(keyId)), headers, names,
                  signature, bytes);
  }

  lemma LowerKeeps(s: string)
    requires forall k :: 0 <= k < |s| ==> !('A' <= s[k] <= 'Z')
    ensures ToLower(s) == s
  {
  }

  lemma LowerAlgorithm()
    ensures ToLower("rsa-sha256") == "rsa-sha256"
  {
    hide ToLower;
    LowerKeeps("rsa-sha256");
  }

  lemma ReadNames(keyId: string, names: string, bytes: string)
    ensures ParameterOf(Parameter("keyId", keyId)) == Some(("keyId", Unquote(Quoted(keyId))))
    ensures ParameterOf(Parameter("algorithm", "rsa-sha256")) == Some(("algorithm", Unquote(Quoted("rsa-sha256"))))
    ensures ParameterOf(Parameter("headers", names)) == Some(("headers", Unquote(Quoted(names))))
    ensures ParameterOf(Parameter("signature", bytes)) == Some(("signature", Unquote(Quoted(bytes))))
  {
    hide ParameterOf, Parameter, Unquote;
    ParameterRead("keyId", keyId);
    ParameterRead("algorithm", "rsa-sha256");
    ParameterRead("headers", names);
    ParameterRead("signature", bytes);
  }

  /** An odd number: the quote left open swallows every comma after it, and nothing but a key id is found. */
  lemma ReadOne(codec: Codec, keyId: string, headers: seq<string>, signature: seq<bv8>)
    requires codec.Lawful() && forall h <- headers :: IsToken(h)
    requires Contained(keyId, true) && !EndsInQuote(keyId, true)
    ensures ParseHeader(codec, SignatureHeader(codec, keyId, headers, signature)) == None
  {
    hide IsToken, SplitFrom, Join, IsSpace;
    var names, bytes := Join(headers, " "), codec.encode(signature);
    JoinIsPlain(headers);
    var whole := SignatureHeader(codec, keyId, headers, signature);
    OneOpenQuote(keyId, names, bytes);
    SplitLast(whole);
    OnlyKeyId(keyId, names, bytes);
    assert [whole][..0] == [];
    assert Parameters([whole]).Some? ==> "algorithm" !in Parameters([whole]).value;
  }

  lemma OneOpenQuote(keyId: string, names: string, bytes: string)
    requires '\"' !in names && ',' !in names && '\"' !in bytes && ',' !in bytes
    requires Contained(keyId, true) && !EndsInQuote(keyId, true)
    ensures Contained(Printed(keyId, names, bytes), false)
  {
    hide Parameter;
    ParameterScan("keyId", keyId, false);
    PlainParameter("algorithm", "rsa-sha256");
    PlainParameter("headers", names);
    PlainParameter("signature", bytes);
    var a := Parameter("keyId", keyId);
    ScanConcat(a, ",", false);
    ScanConcat(a + ",", Parameter("algorithm", "rsa-sha256"), false);
    var b := a + "," + Parameter("algorithm", "rsa-sha256");
    ScanConcat(b, ",", false);
    ScanConcat(b + ",", Parameter("headers", names), false);
    var c := b + "," + Parameter("headers", names);
    ScanConcat(c, ",", false);
    ScanConcat(c + ",", Parameter("signature", bytes), false);
  }

  lemma OnlyKeyId(keyId: string, names: string, bytes: string)
    ensures ParameterOf(Printed(keyId, names, bytes)).Some? &&
            ParameterOf(Printed(keyId, names, bytes)).value.0 == "keyId"
  {
    hide IsSpace, ParameterOf, Unquote, TrimSpace;
    QuoteIsNoSpace();
    var tail := Quoted(keyId) + "," + Parameter("algorithm", "rsa-sha256") + "," + Parameter("headers", names) + "," +
                Parameter("signature", bytes);
    assert Printed(keyId, names, bytes) == "keyId" + "=" + tail;
    assert tail[|tail| - 1] == '\"';
    KeyIdIsPlain();
    PartRead("keyId", tail);
  }

  lemma KeyIdIsPlain()
    ensures '=' !in "keyId" && forall k :: 0 <= k < 5 ==> !IsSpace("keyId"[k])
  {
  }

  // ---------------------------------------------------------------- a comma outside quotes loses the key id

  /** A comma at which the header is split. */
  predicate Splits(s: string, k: int, inQuote: bool) {
    0 <= k < |s| && s[k] == ',' && !EndsInQuote(s[..k], inQuote)
  }

  lemma {:induction false} CommaInQuotes(s: string, inQuote: bool, k: nat)
    requires Contained(s, inQuote) && k < |s| && s[k] == ','
    ensures EndsInQuote(s[..k], inQuote)
  {
    if k > 0 {
      assert s[..k][1..] == s[1..][..k - 1];
      CommaInQuotes(s[1..], if s[0] == '\"' then !inQuote else inQuote, k - 1);
    }
  }

  lemma {:induction false} OpenComma(s: string, inQuote: bool) returns (k: nat)
    requires !Contained(s, inQuote)
    ensures Splits(s, k, inQuote)
  {
    k := 0;
    if s[0] != ',' || inQuote {
      k := OpenComma(s[1..], if s[0] == '\"' then !inQuote else inQuote);
      k := k + 1;
      assert s[..k][1..] == s[1..][..k - 1];
    }
  }

  /** Part of a header: it stands between two commas at which the header is split, or at an end of it. */
  predicate IsPart(header: string, i: nat, j: nat, part: string) {
    && i <= j <= |header| && part == header[i..j]
    && (i == 0 || header[i - 1] == ',') && (j == |header| || Splits(header, j, false))
    && forall m :: i <= m < j ==> !Splits(header, m, false)
  }

  lemma {:induction false} PartAt(header: string, i: nat, n: nat, k: nat) returns (from: nat, to: nat)
    requires i <= n <= |header| && (i == 0 || header[i - 1] == ',')
    requires forall m :: i <= m < n ==> !Splits(header, m, false)
    requires k < |SplitFrom(header[n..], EndsInQuote(header[..n], false), header[i..n])|
    ensures IsPart(header, from, to, SplitFrom(header[n..], EndsInQuote(header[..n], false), header[i..n])[k])
    decreases |header| - n
  {
    hide EndsInQuote;
    var inQuote := EndsInQuote(header[..n], false);
    if n == |header| {
      from, to := i, n;
    } else {
      assert header[..n + 1] == header[..n] + [header[n]];
      ScanConcat(header[..n], [header[n]], false);
      OneMore(header[n], inQuote);
      assert header[n..][0] == header[n] && header[n..][1..] == header[n + 1..];
      if header[n] == ',' && !inQuote {
        if k == 0 {
          from, to := i, n;
        } else {
          assert header[n + 1..n + 1] == "";
          from, to := PartAt(header, n + 1, n + 1, k - 1);
        }
      } else {
        assert header[i..n + 1] == header[i..n] + [header[n]];
        from, to := PartAt(header, i, n + 1, k);
      }
    }
  }

  lemma OneMore(c: char, inQuote: bool)
    ensures EndsInQuote([c], inQuote) == if c == '\"' then !inQuote else inQuote
  {
    assert [c][1..] == "";
  }

  /** Every parameter comes from one of the parts. */
  lemma {:induction false} ParameterFrom(parts: seq<string>, name: string) returns (k: nat)
    requires Parameters(parts).Some? && name in Parameters(parts).value && name != ""
    ensures k < |parts| && ParameterOf(parts[k]) == Some((name, Parameters(parts).value[name]))
  {
    hide ParameterOf;
    k := |parts| - 1;
    if ParameterOf(parts[k]).value.0 != name {
      k := ParameterFrom(parts[..k], name);
    }
  }

  lemma {:induction false} TrimLeftAt(s: string, cut: char -> bool)
    ensures var r := TrimLeft(s, cut);
            |r| <= |s| && r == s[|s| - |r|..] && (|r| < |s| ==> cut(s[0])) && (r != "" ==> !cut(r[0]))
  {
    if s != "" && cut(s[0]) {
      TrimLeftAt(s[1..], cut);
    }
  }

  lemma TrimSpaceAt(s: string) returns (m: nat)
    ensures var r := TrimSpace(s);
            m + |r| <= |s| && r == s[m..m + |r|] && (m > 0 ==> IsSpace(s[0])) && (r != "" ==> !IsSpace(r[0])) &&
            (s != "" && !IsSpace(s[|s| - 1]) ==> m + |r| == |s|)
  {
    hide IsSpace;
    var left := TrimLeft(s, IsSpace);
    TrimLeftAt(s, IsSpace);
    TrimRightEnds(left, IsSpace);
    m := |s| - |left|;
    var r := TrimRight(left, IsSpace);
    assert r == left[..|r|];
    if s != "" && !IsSpace(s[|s| - 1]) {
      LastKept(s);
    }
  }

  lemma {:induction false} LastKept(s: string)
    requires s != "" && !IsSpace(s[|s| - 1])
    ensures var left := TrimLeft(s, IsSpace); left != "" && TrimRight(left, IsSpace) == left
  {
    hide IsSpace;
    if IsSpace(s[0]) {
      LastKept(s[1..]);
    }
  }

  lemma UnquoteAt(quoted: string) returns (m: nat)
    ensures var r := Unquote(quoted);
            m + |r| <= |quoted| && r == quoted[m..m + |r|] && (r != "" ==> r[0] != '\"') &&
            (r != "" && |quoted| > 1 && quoted[|quoted| - 1] == '\"' && quoted[|quoted| - 2] != '\"' ==>
               m + |r| == |quoted| - 1)
  {
    TrimLeftAt(quoted, IsQuote);
    var left := TrimLeft(quoted, IsQuote);
    TrimRightEnds(left, IsQuote);
    m := |quoted| - |left|;
    var r := TrimRight(left, IsQuote);
    assert r == left[..|r|];
    if r != "" && |quoted| > 1 && quoted[|quoted| - 1] == '\"' && quoted[|quoted| - 2] != '\"' {
      assert left[|left| - 1] == '\"' && left[|left| - 2] == quoted[|quoted| - 2];
      assert TrimRight(left[..|left| - 1], IsQuote) == left[..|left| - 1];
    }
  }

  /** Where the value of a parameter stands in its part. If the part ends with a single quote, the value
      reaches up to it. */
  lemma ValueAt(part: string, name: string, value: string) returns (m: nat)
    requires ParameterOf(part) == Some((name, value)) && name != "" && value != ""
    ensures part != "" && (IsSpace(part[0]) || part[0] == name[0])
    ensures |name| < m && m + |value| <= |part| && value == part[m..m + |value|] && value[0] != '\"'
    ensures |part| > 1 && part[|part| - 1] == '\"' && part[|part| - 2] != '\"' ==> m + |value| == |part| - 1
  {
    hide IsSpace, TrimSpace, Unquote;
    var at := TrimSpaceAt(part);
    var trimmed := TrimSpace(part);
    QuoteIsNoSpace();
    m := ValueInside(trimmed, IndexChar(trimmed, '='), name, value);
    Within(part, at, trimmed, m, value);
    m := at + m;
  }

  lemma ValueInside(trimmed: string, cut: nat, name: string, value: string) returns (m: nat)
    requires cut < |trimmed| && trimmed[cut] == '=' && !IsSpace(trimmed[0]) && value != "" && name != ""
    requires name == TrimSpace(trimmed[..cut]) && value == Unquote(TrimSpace(trimmed[cut + 1..]))
    ensures name[0] == trimmed[0] && value[0] != '\"'
    ensures |name| < m && m + |value| <= |trimmed| && value == trimmed[m..m + |value|]
    ensures |trimmed| > 1 && trimmed[|trimmed| - 1] == '\"' && trimmed[|trimmed| - 2] != '\"' ==>
              m + |value| == |trimmed| - 1
  {
    hide IsSpace, TrimSpace, Unquote;
    NameIsFirst(trimmed, cut, name);
    var tail := trimmed[cut + 1..];
    var after := TrimSpaceAt(tail);
    var quoted := TrimSpace(tail);
    var within := UnquoteAt(quoted);
    QuoteIsNoSpace();
    Within(tail, after, quoted, within, value);
    Within(trimmed, cut + 1, tail, after + within, value);
    m := cut + 1 + after + within;
  }

  lemma Within(s: string, n: nat, t: string, m: nat, u: string)
    requires n + |t| <= |s| && t == s[n..n + |t|] && m + |u| <= |t| && u == t[m..m + |u|]
    ensures u == s[n + m..n + m + |u|]
  {
    assert forall k | 0 <= k < |u| :: u[k] == t[m..m + |u|][k] && t[m + k] == s[n..n + |t|][m + k];
  }

  lemma NameIsFirst(trimmed: string, cut: nat, name: string)
    requires cut < |trimmed| && name == TrimSpace(trimmed[..cut]) && name != "" && !IsSpace(trimmed[0])
    ensures |name| <= cut && name[0] == trimmed[0]
  {
    hide IsSpace, TrimSpace;
    var before := TrimSpaceAt(trimmed[..cut]);
  }

  /** What follows the key id in the header. */
  function Tail(names: string, bytes: string): string {
    "\"," + Parameter("algorithm", "rsa-sha256") + "," + Parameter("headers", names) + "," +
    Parameter("signature", bytes)
  }

  lemma PrintedTail(keyId: string, names: string, bytes: string)
    ensures Printed(keyId, names, bytes) == "keyId=\"" + keyId + Tail(names, bytes)
  {
    var a, b, c := Parameter("algorithm", "rsa-sha256"), Parameter("headers", names), Parameter("signature", bytes);
    hide Parameter;
    KeyIdParameter(keyId);
    assert "keyId=\"" + keyId + "\"" + "," + a + "," + b + "," + c ==
           "keyId=\"" + keyId + ("\"," + a + "," + b + "," + c);
  }

  lemma KeyIdParameter(keyId: string)
    ensures Parameter("keyId", keyId) == "keyId=\"" + keyId + "\""
  {
    assert "keyId" + "=" + ("\"" + keyId + "\"") == "keyId=\"" + keyId + "\"";
  }

  lemma NoComma(name: string, value: string)
    requires name != "" && ',' !in name && ',' !in value
    ensures Parameter(name, value)[0] == name[0] && ',' !in Parameter(name, value)
    ensures |Parameter(name, value)| == |name| + |value| + 3
  {
  }

  /** Behind each of its commas a parameter other than the key id begins. */
  lemma TailCommas(names: string, bytes: string, k: nat)
    requires ',' !in names && ',' !in bytes && k < |Tail(names, bytes)| && Tail(names, bytes)[k] == ','
    ensures k + 2 < |Tail(names, bytes)| && Tail(names, bytes)[k + 1] in "ahs"
  {
    var a, b, c := Parameter("algorithm", "rsa-sha256"), Parameter("headers", names), Parameter("signature", bytes);
    NoComma("algorithm", "rsa-sha256");
    NoComma("headers", names);
    NoComma("signature", bytes);
    hide Parameter;
    var t := Tail(names, bytes);
    assert t == "\"," + a + "," + b + "," + c;
    assert forall n | 2 <= n < 2 + |a| :: t[n] == a[n - 2];
    assert forall n | 3 + |a| <= n < 3 + |a| + |b| :: t[n] == b[n - 3 - |a|];
    assert forall n | 4 + |a| + |b| <= n < |t| :: t[n] == c[n - 4 - |a| - |b|];
  }

  /** A word followed by `tail` that is the same word again `|tail|` places later repeats its commas in `tail`. */
  lemma {:induction false} CommaRepeats(s: string, tail: string, p: nat) returns (k: nat)
    requires tail != "" && forall t :: 0 <= t < |s| ==> s[t] == (s + tail)[|tail| + t]
    requires p < |s + tail| && (s + tail)[p] == ',' && tail[|tail| - 1] != ','
    ensures p + 1 < |s + tail| && k + 1 < |tail| && tail[k] == ',' && tail[k + 1] == (s + tail)[p + 1]
    decreases |s + tail| - p
  {
    if p < |s| {
      k := CommaRepeats(s, tail, p + |tail|);
      assert p + 1 < |s| ==> s[p + 1] == (s + tail)[|tail| + p + 1];
    } else {
      k := p - |s|;
    }
  }

  /** The part that would have to be read as the key id has no room for it, or would have to begin like
      another parameter. */
  lemma NoPartIsKeyId(keyId: string, names: string, bytes: string, name: string, i: nat, j: nat, part: string)
    requires '\"' !in names && ',' !in names && '\"' !in bytes && ',' !in bytes && bytes != ""
    requires !Contained(keyId, true) && name in ["keyId", "keyid"]
    requires IsPart(Printed(keyId, names, bytes), i, j, part)
    ensures ParameterOf(part) != Some((name, keyId))
  {
    hide ParameterOf, Contained, EndsInQuote, IsSpace, Printed, Tail;
    var parameter := ParameterOf(part);
    var q := OpenComma(keyId, true);
    if parameter.Some? && parameter.value.0 == name && parameter.value.1 != "" {
      var value, tail := parameter.value.1, Tail(names, bytes);
      PrintedTail(keyId, names, bytes);
      TailEnds(names, bytes);
      KeyIdOpens(keyId, tail, q);
      var m := ValueAt(part, name, value);
      var header, start := Printed(keyId, names, bytes), "keyId=\"" + keyId;
      assert |start| == 7 + |keyId| && |name| == 5 && header == start + tail;
      if j <= 7 + q {
        assert i == 0 && |part| > 6 ==> part[6] == '\"';
        assert value[0] == part[m];
        assert |value| <= q;
      } else if i > 7 + |keyId| {
        assert header[i - 1] == tail[i - 1 - |start|] && header[i] == tail[i - |start|];
        TailCommas(names, bytes, i - 1 - |start|);
        NotInTail(part[0], name);
      } else if |value| == |keyId| {
        assert i > 7 + q;
        LongPart(keyId, names, bytes, i, j, part);
        assert part == keyId[i - 7..] + tail;
        NoRotation(keyId, names, bytes, name, i - 7, part, m);
      }
    }
  }

  lemma NoRotation(keyId: string, names: string, bytes: string, name: string, x: nat, part: string, m: nat)
    requires ',' !in names && ',' !in bytes && name in ["keyId", "keyid"] && 0 < x <= |keyId| && keyId[x - 1] == ','
    requires part == keyId[x..] + Tail(names, bytes) && m <= |part| - 1
    requires part[0] == name[0] || IsSpace(part[0])
    requires |Tail(names, bytes)| > 2 && Tail(names, bytes)[|Tail(names, bytes)| - 2] != ','
    ensures keyId != part[m..|part| - 1]
  {
    hide IsSpace, Tail;
    var tail := Tail(names, bytes);
    var inner := tail[..|tail| - 1];
    if keyId == part[m..|part| - 1] {
      assert m == |inner| - x;
      forall t | 0 <= t < |keyId| ensures keyId[t] == (keyId + inner)[|inner| + t] {
        assert keyId[t] == part[m + t];
      }
      var k := CommaRepeats(keyId, inner, x - 1);
      assert (keyId + inner)[x] == part[0];
      TailCommas(names, bytes, k);
      NotInTail(part[0], name);
    }
  }

  lemma NotInTail(c: char, name: string)
    requires c in "ahs" && name in ["keyId", "keyid"]
    ensures !IsSpace(c) && c != name[0]
  {
  }

  lemma TailEnds(names: string, bytes: string)
    requires '\"' !in bytes && ',' !in bytes && bytes != ""
    ensures var t := Tail(names, bytes);
            |t| > 2 && t[|t| - 1] == '\"' && t[|t| - 2] !in "\"," && t[0] == '\"' && t[1] == ','
  {
    var t := Tail(names, bytes);
    assert t[|t| - 2] == bytes[|bytes| - 1] && bytes[|bytes| - 1] in bytes;
  }

  lemma KeyIdOpens(keyId: string, tail: string, q: nat)
    requires Splits(keyId, q, true)
    ensures Splits("keyId=\"" + keyId + tail, 7 + q, false)
  {
    var header := "keyId=\"" + keyId + tail;
    assert header[..7 + q] == "keyId=\"" + keyId[..q];
    ScanConcat("keyId=\"", keyId[..q], false);
    QuoteFree("keyId=", false);
    ScanConcat("keyId=", "\"", false);
    assert "keyId=" + "\"" == "keyId=\"";
    OneMore('\"', false);
  }

  /** A part that begins inside the key id and is long enough for it extends to the end of the header. */
  lemma LongPart(keyId: string, names: string, bytes: string, i: nat, j: nat, part: string)
    requires '\"' !in names && ',' !in names && '\"' !in bytes && ',' !in bytes
    requires i <= 7 + |keyId| && j > 8 + |keyId|
    requires IsPart(Printed(keyId, names, bytes), i, j, part)
    ensures j == |Printed(keyId, names, bytes)|
  {
    hide Contained, EndsInQuote, Parameter;
    var header := Printed(keyId, names, bytes);
    var n := 8 + |keyId|;
    var rest := header[n..];
    RestIsContained(keyId, names, bytes);
    assert header[n] == rest[0] == ',';
    assert !Splits(header, n, false);
    if j < |header| {
      assert header[..j] == header[..n] + rest[..j - n];
      ScanConcat(header[..n], rest[..j - n], false);
      CommaInQuotes(rest, true, j - n);
    }
  }

  lemma RestIsContained(keyId: string, names: string, bytes: string)
    requires '\"' !in names && ',' !in names && '\"' !in bytes && ',' !in bytes
    ensures |Printed(keyId, names, bytes)| > 8 + |keyId|
    ensures var rest := Printed(keyId, names, bytes)[8 + |keyId|..]; rest[0] == ',' && Contained(rest, true)
  {
    hide Contained, EndsInQuote;
    var a, b, c := Parameter("algorithm", "rsa-sha256"), Parameter("headers", names), Parameter("signature", bytes);
    var rest := "," + a + "," + b + "," + c;
    assert |Parameter("keyId", keyId)| == 8 + |keyId|;
    assert Printed(keyId, names, bytes) == Parameter("keyId", keyId) + rest;
    PlainParameter("algorithm", "rsa-sha256");
    PlainParameter("headers", names);
    PlainParameter("signature", bytes);
    QuoteFree(",", true);
    ScanConcat(",", a, true);
    ScanConcat("," + a, ",", true);
    ScanConcat("," + a + ",", b, true);
    ScanConcat("," + a + "," + b, ",", true);
    ScanConcat("," + a + "," + b + ",", c, true);
  }

  lemma CommaLosesKeyId(codec: Codec, keyId: string, headers: seq<string>, signature: seq<bv8>)
    requires codec.Lawful() && (forall h <- headers :: IsToken(h)) && signature != [] && !Contained(keyId, true)
    ensures var r := ParseHeader(codec, SignatureHeader(codec, keyId, headers, signature));
            r.Some? ==> r.value.keyId != keyId
  {
    hide IsToken, SplitFrom, Contained, EndsInQuote, Join, ParameterOf, Parameters, Printed, IsPart, Fields, LowerAll;
    hide Codec.Lawful;
    var names, bytes := Join(headers, " "), codec.encode(signature);
    JoinIsPlain(headers);
    CodecRoundTrip(codec, signature);
    var header := Printed(keyId, names, bytes);
    var parts := SplitFrom(header, false, "");
    var params := Parameters(parts);
    var r := ParseHeader(codec, SignatureHeader(codec, keyId, headers, signature));
    if r.Some? && r.value.keyId == keyId {
      var name := if Get(params.value, "keyId") != "" then "keyId" else "keyid";
      assert name in params.value && params.value[name] == keyId;
      var k := ParameterFrom(parts, name);
      var i, j := FirstPart(header, k);
      NoPartIsKeyId(keyId, names, bytes, name, i, j, parts[k]);
    }
  }

  lemma FirstPart(header: string, k: nat) returns (i: nat, j: nat)
    requires k < |SplitFrom(header, false, "")|
    ensures IsPart(header, i, j, SplitFrom(header, false, "")[k])
  {
    assert header[0..] == header && header[0..0] == "" && header[..0] == "";
    i, j := PartAt(header, 0, 0, k);
  }

  /** The header that is printed is read back, with the header names in lower case, exactly if the key id
      is not empty, does not begin or end with a quote, has evenly many of them, and has no comma outside
      of them, where the first one closes what the header opened. */
  lemma SignatureRoundTrip(codec: Codec, keyId: string, headers: seq<string>, signature: seq<bv8>)
    requires codec.Lawful() && headers != [] && (forall h <- headers :: IsToken(h)) && signature != []
    ensures ParseHeader(codec, SignatureHeader(codec, keyId, headers, signature)) ==
              Some(HttpSignature(keyId, "rsa-sha256", LowerAll(headers), signature)) <==>
            keyId != "" && keyId[0] != '\"' && keyId[|keyId| - 1] != '\"' && EndsInQuote(keyId, true) &&
            Contained(keyId, true)
  {
    hide ParseHeader, SignatureHeader, Unquote, Contained, EndsInQuote;
    if !Contained(keyId, true) {
      CommaLosesKeyId(codec, keyId, headers, signature);
    } else if EndsInQuote(keyId, true) {
      ReadFour(codec, keyId, headers, signature);
      UnquoteQuoted(keyId);
    } else {
      ReadOne(codec, keyId, headers, signature);
    }
  }

  /** In particular nothing is lost for a key id without quotes. */
  lemma QuoteFreeRoundTrip(codec: Codec, keyId: string, headers: seq<string>, signature: seq<bv8>)
    requires codec.Lawful() && headers != [] && (forall h <- headers :: IsToken(h)) && signature != []
    requires keyId != "" && '\"' !in keyId
    ensures ParseHeader(codec, SignatureHeader(codec, keyId, headers, signature)) ==
            Some(HttpSignature(keyId, "rsa-sha256", LowerAll(headers), signature))
  {
    hide ParseHeader, SignatureHeader;
    QuoteFree(keyId, true);
    SignatureRoundTrip(codec, keyId, headers, signature);
  }

  // ---------------------------------------------------------------- what is signed

  /** Headers in the order a map of them happens to be read; a later one overrides an earlier one of
      the same name in lower case. */
  datatype Request = Request(method_: string, path: string, headers: seq<(string, string)>)

  function LowerHeaders(headers: seq<(string, string)>): map<string, string> {
    if headers == [] then map[]
    else
      var last := headers[|headers| - 1];
      var before := LowerHeaders(headers[..|headers| - 1]);
      if last.0 == "__proto__" then before else before[ToLower(last.0) := last.1]
  }

  /** The value signed under a name: the method and path for the request target, else the header. */
  function SignedValue(request: Request, name: string): Option<string> {
    if ToLower(name) == "(request-target)" then
      Some(ToLower(request.method_) + " " + if request.path == "" then "/" else request.path)
    else
      var headers := LowerHeaders(request.headers);
      if ToLower(name) in headers then Some(headers[ToLower(name)]) else None
  }

  function Line(request: Request, name: string): string
    requires SignedValue(request, name).Some?
  {
    ToLower(name) + ": " + SignedValue(request, name).value
  }

  predicate HasAll(request: Request, names: seq<string>) {
    forall k :: 0 <= k < |names| ==> SignedValue(request, names[k]).Some?
  }

  function Lines(request: Request, names: seq<string>): seq<string>
    requires HasAll(request, names)
  {
    seq(|names|, k requires 0 <= k < |names| => Line(request, names[k]))
  }

  function SigningStringOf(request: Request, names: seq<string>): Option<string> {
    if HasAll(request, names) then Some(Join(Lines(request, names), "\n")) else None
  }

  method SigningString(request: Request, names: seq<string>) returns (r: Option<string>)
    ensures r == SigningStringOf(request, names)
  {
    hide SignedValue;
    var lines: seq<string> := [];
    for k := 0 to |names|
      invariant HasAll(request, names[..k]) && lines == Lines(request, names[..k])
    {
      if SignedValue(request, names[k]) == None {
        return None;
      }
      assert names[..k + 1] == names[..k] + [names[k]];
      lines := lines + [Line(request, names[k])];
    }
    assert names[..|names|] == names;
    r := Some(Join(lines, "\n"));
  }

  /** The lines between newlines; there is always at least one. */
  function Split(s: string): (r: seq<string>)
    ensures r != []
  {
    if s == "" then [""]
    else
      var rest := Split(s[1..]);
      if s[0] == '\n' then [""] + rest else [[s[0]] + rest[0]] + rest[1..]
  }

  lemma {:induction false} SplitLine(line: string, rest: string)
    requires '\n' !in line
    ensures Split(line) == [line] && Split(line + "\n" + rest) == [line] + Split(rest)
  {
    if line == "" {
      assert line + "\n" + rest == "\n" + rest && ("\n" + rest)[1..] == rest;
    } else {
      SplitLine(line[1..], rest);
      assert (line + "\n" + rest)[1..] == line[1..] + "\n" + rest;
      assert [line[0]] + line[1..] == line;
    }
  }

  lemma {:induction false} SplitOfJoin(lines: seq<string>)
    requires lines != [] && forall l <- lines :: '\n' !in l
    ensures Split(Join(lines, "\n")) == lines
  {
    assert lines[0] in lines;
    if |lines| == 1 {
      SplitLine(lines[0], "");
    } else {
      SplitOfJoin(lines[1..]);
      SplitLine(lines[0], Join(lines[1..], "\n"));
    }
  }

  /** A line cut at its first colon and space. */
  function Cut(line: string): Option<(string, string)> {
    var k := Index(line, ": ");
    if k == -1 then None else Some((line[..k], line[k + 2..]))
  }

  lemma CutLine(name: string, value: string)
    requires ':' !in name
    ensures Cut(name + ": " + value) == Some((name, value))
  {
    var line := name + ": " + value;
    assert At(line, ": ", |name|);
    var k := Index(line, ": ");
    assert forall j :: 0 <= j < |name| ==> line[j] == name[j] && name[j] in name;
    assert line[k] == line[k..k + 2][0];
    assert line[..|name|] == name && line[|name| + 2..] == value;
  }

  method HeadersFromSigningString(signingString: string) returns (r: Option<seq<string>>)
    ensures r.Some? ==> |r.value| == |Split(signingString)|
    ensures r == None <==> exists line <- Split(signingString) :: Cut(line) == None
    ensures r.Some? ==> forall k :: 0 <= k < |r.value| ==> r.value[k] == ToLower(Cut(Split(signingString)[k]).value.0)
  {
    hide Cut;
    var lines := Split(signingString);
    var headers: seq<string> := [];
    for k := 0 to |lines|
      invariant |headers| == k && forall j ::
                  0 <= j < k ==> Cut(lines[j]).Some? && headers[j] == ToLower(Cut(lines[j]).value.0)
    {
      if Cut(lines[k]) == None {
        return None;
      }
      headers := headers + [ToLower(Cut(lines[k]).value.0)];
    }
    r := Some(headers);
  }

  /** Names without colons or newlines, values without newlines. */
  predicate Clean(request: Request, names: seq<string>) {
    HasAll(request, names) &&
    forall k :: 0 <= k < |names| ==>
          ':' !in names[k] && '\n' !in names[k] && '\n' !in SignedValue(request, names[k]).value
  }

  lemma LowerKeepsFree(s: string, c: char)
    requires c !in s && !('a' <= c <= 'z')
    ensures c !in ToLower(s)
  {
    forall k | 0 <= k < |s| ensures ToLower(s)[k] != c {
      assert s[k] in s;
    }
  }

  lemma LineIsClean(request: Request, names: seq<string>, k: nat)
    requires Clean(request, names) && k < |names|
    ensures '\n' !in Line(request, names[k])
    ensures Cut(Line(request, names[k])) == Some((ToLower(names[k]), SignedValue(request, names[k]).value))
  {
    hide SignedValue, Cut;
    LowerKeepsFree(names[k], '\n');
    LowerKeepsFree(names[k], ':');
    CutLine(ToLower(names[k]), SignedValue(request, names[k]).value);
  }

  /** The signing string gives back, line by line, the names in lower case and the values. */
  lemma SigningStringReads(request: Request, names: seq<string>)
    requires Clean(request, names) && names != []
    ensures SigningStringOf(request, names).Some?
    ensures var lines := Split(SigningStringOf(request, names).value);
            |lines| == |names| && forall k :: 0 <= k < |names| ==>
              Cut(lines[k]) == Some((ToLower(names[k]), SignedValue(request, names[k]).value))
  {
    hide SignedValue, Cut, Line, Split;
    var lines := Lines(request, names);
    forall k | 0 <= k < |names|
      ensures '\n' !in lines[k] && Cut(lines[k]) == Some((ToLower(names[k]), SignedValue(request, names[k]).value))
    {
      LineIsClean(request, names, k);
    }
    SplitOfJoin(lines);
  }

  /** Equal signing strings sign the same names with the same values: a signature cannot be carried over
      to a request in which a signed part differs. */
  lemma SigningStringIsUnambiguous(a: Request, names: seq<string>, b: Request, others: seq<string>)
    requires Clean(a, names) && Clean(b, others) && names != [] && others != []
    requires SigningStringOf(a, names) == SigningStringOf(b, others)
    ensures LowerAll(names) == LowerAll(others)
    ensures forall k :: 0 <= k < |names| ==> SignedValue(a, names[k]) == SignedValue(b, others[k])
  {
    hide SignedValue, Cut, SigningStringOf, Split, Clean;
    SigningStringReads(a, names);
    SigningStringReads(b, others);
    var lines := Split(SigningStringOf(a, names).value);
    forall k | 0 <= k < |names| ensures ToLower(names[k]) == ToLower(others[k]) &&
        SignedValue(a, names[k]) == SignedValue(b, others[k]) {
      CleanHas(a, names, k);
      CleanHas(b, others, k);
      assert Cut(lines[k]) == Some((ToLower(names[k]), SignedValue(a, names[k]).value));
    }
  }

  lemma CleanHas(request: Request, names: seq<string>, k: nat)
    requires Clean(request, names) && k < |names|
    ensures SignedValue(request, names[k]).Some?
  {
  }

  lemma {:induction false} SplitIsFree(s: string)
    ensures forall line <- Split(s) :: '\n' !in line
  {
    if s != "" {
      SplitIsFree(s[1..]);
      var rest := Split(s[1..]);
      assert rest[0] in rest;
    }
  }

  /** The lines that were signed can be told apart exactly if none of them has a newline in it. */
  lemma LinesAreRecovered(request: Request, names: seq<string>)
    requires HasAll(request, names) && names != []
    ensures Split(SigningStringOf(request, names).value) == Lines(request, names) <==>
            forall k :: 0 <= k < |names| ==> '\n' !in Line(request, names[k])
  {
    hide Line, Split, Join;
    var lines := Lines(request, names);
    SplitIsFree(Join(lines, "\n"));
    if forall k :: 0 <= k < |names| ==> '\n' !in Line(request, names[k]) {
      SplitOfJoin(lines);
    } else {
      var k :| 0 <= k < |names| && '\n' in Line(request, names[k]);
      assert lines[k] in lines;
    }
  }

  /** A newline in the path, which the URL carries percent-encoded, confuses two requests: signing the target
      of one reads like signing the target and the host of the other. */
  lemma NewlineForgesALine(path: string, host: string)
    requires path != ""
    ensures var a := Request("get", path + "\nhost: " + host, []);
            var b := Request("get", path, [("host", host)]);
            SigningStringOf(a, ["(request-target)"]) == SigningStringOf(b, ["(request-target)", "host"]) != None
  {
    hide *;
    var a := Request("get", path + "\nhost: " + host, []);
    var b := Request("get", path, [("host", host)]);
    TargetLine(a);
    TargetLine(b);
    HostLine(b, host);
    Regroup("(request-target): get ", path, "\n", "host: ", host);
    assert "\n" + "host: " == "\nhost: ";
    OneLineAsTwo(a, b, "(request-target)", "host");
  }

  lemma OneLineAsTwo(a: Request, b: Request, x: string, y: string)
    requires SignedValue(a, x).Some? && SignedValue(b, x).Some? && SignedValue(b, y).Some?
    requires Line(a, x) == Line(b, x) + "\n" + Line(b, y)
    ensures SigningStringOf(a, [x]) == SigningStringOf(b, [x, y]) == Some(Line(a, x))
  {
    hide Line, SignedValue;
    assert Lines(a, [x]) == [Line(a, x)] && Lines(b, [x, y]) == [Line(b, x), Line(b, y)];
    var two := [Line(b, x), Line(b, y)];
    assert two[1..] == [Line(b, y)];
    assert Join(two, "\n") == two[0] + "\n" + Join(two[1..], "\n");
  }

  lemma Regroup(a: string, b: string, c: string, d: string, e: string)
    ensures a + (b + (c + d) + e) == a + b + c + (d + e)
  {
    assert a + (b + (c + d) + e) == a + b + c + d + e == a + b + c + (d + e);
  }

  lemma TargetLine(request: Request)
    requires request.method_ == "get" && request.path != ""
    ensures SignedValue(request, "(request-target)").Some?
    ensures Line(request, "(request-target)") == "(request-target): get " + request.path
  {
    hide ToLower;
    LowerKeeps("(request-target)");
    LowerKeeps("get");
    assert "(request-target)" + ": " + ("get" + " " + request.path) == "(request-target): get " + request.path;
  }

  lemma HostLine(request: Request, host: string)
    requires request.headers == [("host", host)]
    ensures SignedValue(request, "host").Some? && Line(request, "host") == "host: " + host
  {
    hide ToLower;
    LowerKeeps("host");
    assert request.headers[..0] == [];
    assert LowerHeaders(request.headers) == map["host" := host] by {
      assert "host"[0] != "__proto__"[0];
    }
    assert "host"[0] != "(request-target)"[0];
    assert "host" + ": " + host == "host: " + host;
  }
}
