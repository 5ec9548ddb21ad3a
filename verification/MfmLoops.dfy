/** The loops of the renderer, each proved to compute the function that specifies it. */
module MfmLoops {
  import opened Text
  import opened Html
  import opened MfmDocument
  import opened Mfm

  /** The main loop: at each position the first construct that applies, or text up to the next
      candidate. */
  method RenderLoop(env: Env, input: string, depth: nat) returns (html: string, advanced: bool)
    ensures (html, advanced) == Render(env, input, depth)
  {
    if depth >= MAX_NESTING {
      return RenderText(input), false;
    }
    hide NextPiece;
    html, advanced := "", false;
    var i := 0;
    ghost var whole := RenderFrom(env, input, 0, depth);
    while i < |input|
      invariant i <= |input|
      invariant html + RenderFrom(env, input, i, depth).0 == whole.0
      invariant advanced || RenderFrom(env, input, i, depth).1 <==> whole.1
    {
      var piece := NextPiece(env, input, i, depth);
      Associative(html, piece.html, RenderFrom(env, input, i + piece.consumed, depth).0);
      html := html + piece.html;
      advanced := advanced || piece.advanced;
      i := i + piece.consumed;
    }
    assert html + "" == html;
  }

  method QuoteLoop(input: string) returns (content: string, consumed: nat)
    ensures (content, consumed) == QuoteLines(input, 0, "")
  {
    hide LineEnd, TrimSuffix;
    content, consumed := "", 0;
    while consumed < |input|
      invariant consumed <= |input|
      invariant QuoteLines(input, consumed, content) == QuoteLines(input, 0, "")
      decreases |input| - consumed
    {
      var end := LineEnd(input[consumed..]);
      var line := TrimSuffix(input[consumed..consumed + end], "\r");
      if !(">" <= line) {
        break;
      }
      line := line[1..];
      if " " <= line {
        line := line[1..];
      }
      if content != "" {
        content := content + "\n";
      }
      content := content + line;
      consumed := consumed + end;
      if consumed < |input| {
        consumed := consumed + 1;
      } else {
        break;
      }
    }
  }

  method FenceLoop(input: string, start: nat) returns (closing: int)
    requires start <= |input|
    ensures closing == ClosingFence(input, start)
  {
    hide LineEnd, TrimSuffix;
    var offset := start;
    while offset < |input|
      invariant start <= offset <= |input|
      invariant ClosingFence(input, offset) == ClosingFence(input, start)
    {
      var end := LineEnd(input[offset..]);
      if "```" <= TrimSuffix(input[offset..offset + end], "\r") {
        return offset;
      }
      offset := offset + end;
      if offset < |input| {
        offset := offset + 1;
      }
    }
    return -1;
  }

  method BareUrlLoop(input: string) returns (end: nat)
    ensures end == BareUrlEnd(input)
  {
    end := 0;
    var paren, bracket := 0, 0;
    while end < |input| && !UrlStop(input[end])
      invariant end <= |input| && 0 <= paren && 0 <= bracket
      invariant UrlRun(input, end, paren, bracket) == UrlRun(input, 0, 0, 0)
    {
      var c := input[end];
      if (c == ')' && paren == 0) || (c == ']' && bracket == 0) {
        break;
      }
      match c {
        case '(' => paren := paren + 1;
        case ')' => paren := paren - 1;
        case '[' => bracket := bracket + 1;
        case ']' => bracket := bracket - 1;
        case _ =>
      }
      end := end + 1;
    }
    end := TrailingLoop(input, 0, end, ".,");
  }

  method TrailingLoop(input: string, low: nat, start: nat, cut: string) returns (end: nat)
    requires low <= start <= |input|
    ensures end == DropTrailing(input, low, start, cut)
  {
    end := start;
    while low < end && input[end - 1] in cut
      invariant low <= end <= start
      invariant DropTrailing(input, low, end, cut) == DropTrailing(input, low, start, cut)
    {
      end := end - 1;
    }
  }

  method AccountLoop(input: string, start: nat) returns (end: nat)
    requires start <= |input|
    ensures end == AccountRun(input, start)
  {
    end := start;
    while end < |input| && AccountChar(input[end])
      invariant start <= end <= |input|
      invariant AccountRun(input, end) == AccountRun(input, start)
    {
      end := end + 1;
    }
  }

  method MentionLoop(input: string) returns (end: nat)
    requires input != "" && input[0] == '@'
    ensures end == MentionEnd(input)
  {
    if |input| < 2 || input[1] in "-." {
      return 0;
    }
    var userEnd := AccountLoop(input, 1);
    if userEnd < |input| && input[userEnd] == '@' {
      var hostStart := userEnd + 1;
      if input[userEnd - 1] in "-." || hostStart >= |input| || input[hostStart] in "-." {
        return 0;
      }
      var hostEnd := AccountLoop(input, hostStart);
      hostEnd := TrailingLoop(input, hostStart, hostEnd, "-.");
      return if hostEnd == hostStart then 0 else hostEnd;
    }
    userEnd := TrailingLoop(input, 1, userEnd, "-.");
    return if userEnd == 1 then 0 else userEnd;
  }

  method HashtagLoop(input: string) returns (end: nat)
    requires input != ""
    ensures end == HashtagEnd(input, 1)
  {
    end := 1;
    while end < |input| && !HashtagStop(input[end])
      invariant 1 <= end <= |input|
      invariant HashtagEnd(input, end) == HashtagEnd(input, 1)
    {
      end := end + 1;
    }
  }
}
