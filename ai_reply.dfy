/** generate_reply: the prompt assembled from the reply template, and how the model's
    raw answer becomes the reply text. The completion call and json.loads are outside
    the model; their results arrive as a Completion value. */
module AiReply {
  import opened Common
  import opened Text

  /** prompt_data["reply_prompt"]: a task line and a list of instruction lines. */
  datatype ReplyPrompt = ReplyPrompt(task: string, instructions: seq<string>)

  /** What json.loads(content)["reply"] gave: a JSONDecodeError, an object with a
      "reply" entry, an object without one (KeyError), or a JSON value that is not an
      object (indexing it raises TypeError, which the inner handler does not catch). */
  datatype JsonParse = ParseError | ObjectWithReply(reply: string) | ObjectWithoutReply | NotAnObject

  /** The chat-completion call: it raised, or it returned message content (None when
      the message had no content) together with what json.loads made of it. */
  datatype Completion = CallFailed | Completed(content: Option<string>, parsed: JsonParse)

  const UserTweetLabel := "User's Tweet: "
  const ReplyMarker := "\"reply\":"
  /** The offset the source adds to the marker's index (its comment takes it for the
      length of `"reply": "`). */
  const AsWrittenOffset := 9
  const FallbackReply :=
    "Thanks for reaching out! Check out our symptom tool at https://harley.healthchat.ai/ for personalized health insights. #HarleyAI #AskHarley"

  /** The template's instructions with line 1 replaced by the user's tweet (on a copy). */
  function TweetInstructions(instructions: seq<string>, tweet: string): (r: seq<string>)
    requires |instructions| >= 2
    ensures |r| == |instructions| && r[1] == UserTweetLabel + tweet
    ensures forall i :: 0 <= i < |r| && i != 1 ==> r[i] == instructions[i]
  {
    instructions[1 := UserTweetLabel + tweet]
  }

  /** The system prompt, or None when the instruction list has fewer than two lines
      (the IndexError that sends generate_reply to its fallback). */
  function BuildPrompt(template: ReplyPrompt, tweet: string): (r: Option<string>)
    ensures r.Some? <==> |template.instructions| >= 2
    ensures r.Some? ==> |r.value| > |template.task| && r.value[..|template.task| + 1] == template.task + "\n"
  {
    if |template.instructions| < 2 then None
    else Some(template.task + "\n" + Join(TweetInstructions(template.instructions, tweet), "\n"))
  }

  /** The prompt is the task line followed by the instruction lines, in order, with line
      1 replaced by the user's tweet: splitting it on newlines recovers exactly those
      lines when none of them contains a newline. */
  lemma PromptLines(template: ReplyPrompt, tweet: string)
    requires |template.instructions| >= 2
    requires '\n' !in template.task && '\n' !in tweet
    requires forall i :: 0 <= i < |template.instructions| ==> '\n' !in template.instructions[i]
    ensures Split(BuildPrompt(template, tweet).value, '\n') == [template.task] + TweetInstructions(template.instructions, tweet)
  {
    var lines := TweetInstructions(template.instructions, tweet);
    assert '\n' !in UserTweetLabel;
    assert '\n' !in UserTweetLabel + tweet;
    forall i | 0 <= i < |lines| ensures '\n' !in lines[i] {
      if i != 1 {
        assert lines[i] == template.instructions[i];
      }
    }
    SplitJoin(lines, '\n');
    SplitAtFirstSeparator(template.task, Join(lines, "\n"), '\n');
  }

  /** Whatever the other lines hold, the user's tweet appears in the prompt right after
      the task line and instruction line 0. */
  lemma PromptCarriesTweet(template: ReplyPrompt, tweet: string)
    requires |template.instructions| >= 2
    ensures OccursAt(BuildPrompt(template, tweet).value, UserTweetLabel + tweet,
                     |template.task| + 1 + |template.instructions[0]| + 1)
  {
    var lines := TweetInstructions(template.instructions, tweet);
    var joined := Join(lines, "\n");
    var p := template.task + "\n" + joined;
    var base := |template.task| + 1;
    JoinLayout(lines, "\n", 1);
    assert PartOffset(lines, "\n", 1) == |lines[0]| + 1;
    var off := |lines[0]| + 1;
    assert p[base..] == joined;
    assert p[base + off..base + off + |lines[1]|] == joined[off..off + |lines[1]|];
  }

  /** content[from:end] for the next quote at or after `from`, or the whole content
      when no quote follows: the innermost step of the fallback. */
  function UpToQuote(content: string, from: nat): (r: string)
    ensures var end := FindChar(content, '"', from);
      && (end == -1 ==> r == content)
      && (end != -1 ==> from <= end && r == content[from..end] && '"' !in r)
  {
    var end := FindChar(content, '"', from);
    if end == -1 then content
    else content[from..end]
  }

  /** The corrected fallback once the opening quote has been searched for: -1 keeps
      the content, otherwise the text from after that quote up to the next one. */
  function QuotedAt(content: string, open: int): (r: string)
    requires open == -1 || (0 <= open < |content| && content[open] == '"')
    ensures open == -1 ==> r == content
    ensures open != -1 ==>
      var close := FindChar(content, '"', open + 1);
      && (close == -1 ==> r == content)
      && (close != -1 ==> r == content[open + 1..close] && '"' !in r)
  {
    if open == -1 then content else UpToQuote(content, open + 1)
  }

  /** The corrected fallback once the marker has been searched for: -1 keeps the
      content, otherwise search for the first quote after the marker. */
  function AfterMarker(content: string, start: int): (r: string)
    requires start >= -1
    ensures start == -1 ==> r == content
    ensures start != -1 ==>
      var open := FindChar(content, '"', start + |ReplyMarker|);
      && (open == -1 ==> r == content)
      && (open != -1 ==>
            var close := FindChar(content, '"', open + 1);
            && (close == -1 ==> r == content)
            && (close != -1 ==> r == content[open + 1..close] && '"' !in r))
  {
    if start == -1 then content
    else QuotedAt(content, FindChar(content, '"', start + |ReplyMarker|))
  }

  /** The fallback as written once the marker has been searched for: -1 keeps the
      content, otherwise slice from the marker index plus 9 up to the next quote. */
  function AsWrittenAfterMarker(content: string, start: int): (r: string)
    requires start >= -1
    ensures start == -1 ==> r == content
    ensures start != -1 ==>
      var end := FindChar(content, '"', start + AsWrittenOffset);
      && (end == -1 ==> r == content)
      && (end != -1 ==> r == content[start + AsWrittenOffset..end] && '"' !in r)
  {
    if start == -1 then content
    else UpToQuote(content, start + AsWrittenOffset)
  }

  /** The fallback slice exactly as the source computes it: with both braces present
      and the marker found at i, the text from i + 9 up to the next quote; the content
      unchanged in every other case. */
  function ExtractReplyAsWritten(content: string): (r: string)
    ensures '{' !in content || '}' !in content ==> r == content
    ensures Find(content, ReplyMarker, 0) == -1 ==> r == content
    ensures '{' in content && '}' in content && Find(content, ReplyMarker, 0) != -1 ==>
      var start := Find(content, ReplyMarker, 0) + AsWrittenOffset;
      var end := FindChar(content, '"', start);
      && (end == -1 ==> r == content)
      && (end != -1 ==> r == content[start..end] && '"' !in r)
  {
    if '{' in content && '}' in content then AsWrittenAfterMarker(content, Find(content, ReplyMarker, 0))
    else content
  }

  /** The fallback slice as intended: with both braces present and the marker found,
      the text between the first quote after the marker and the next quote; the
      content unchanged in every other case. */
  function ExtractReply(content: string): (r: string)
    ensures '{' !in content || '}' !in content ==> r == content
    ensures Find(content, ReplyMarker, 0) == -1 ==> r == content
    ensures '{' in content && '}' in content && Find(content, ReplyMarker, 0) != -1 ==>
      var open := FindChar(content, '"', Find(content, ReplyMarker, 0) + |ReplyMarker|);
      && (open == -1 ==> r == content)
      && (open != -1 ==>
            var close := FindChar(content, '"', open + 1);
            && (close == -1 ==> r == content)
            && (close != -1 ==> r == content[open + 1..close] && '"' !in r))
  {
    if '{' in content && '}' in content then AfterMarker(content, Find(content, ReplyMarker, 0))
    else content
  }

  /** Find returns the first occurrence at or after start. */
  lemma FindFirst(s: string, pat: string, start: nat, p: int)
    requires start <= p && OccursAt(s, pat, p)
    requires forall k :: start <= k < p ==> !OccursAt(s, pat, k)
    ensures Find(s, pat, start) == p
  {
  }

  /** content holds its first "reply": marker at m, then only spaces up to an opening
      quote at open, then quote-free text up to a closing quote at close. */
  predicate ReplyShaped(content: string, m: nat, open: nat, close: nat) {
    && OccursAt(content, ReplyMarker, m)
    && (forall i :: 0 <= i < m ==> !OccursAt(content, ReplyMarker, i))
    && m + |ReplyMarker| <= open < close < |content|
    && (forall k :: m + |ReplyMarker| <= k < open ==> content[k] == ' ')
    && content[open] == '"' && content[close] == '"'
    && (forall k :: open < k < close ==> content[k] != '"')
  }

  /** Where the searches of the fallback land on such content. */
  lemma ShapeSearches(content: string, m: nat, open: nat, close: nat)
    requires ReplyShaped(content, m, open, close)
    ensures Find(content, ReplyMarker, 0) == m
    ensures FindChar(content, '"', m + |ReplyMarker|) == open
    ensures FindChar(content, '"', open + 1) == close
    ensures open > m + |ReplyMarker| ==> FindChar(content, '"', m + AsWrittenOffset) == open
  {
    FindFirst(content, ReplyMarker, 0, m);
  }

  /** The three searches of the fallback, as ShapeSearches establishes them. */
  predicate Searched(content: string, m: nat, open: nat, close: nat) {
    && m + |ReplyMarker| <= open < close < |content|
    && Find(content, ReplyMarker, 0) == m
    && FindChar(content, '"', m + |ReplyMarker|) == open
    && FindChar(content, '"', open + 1) == close
    && (open > m + |ReplyMarker| ==> FindChar(content, '"', m + AsWrittenOffset) == open)
  }

  /** Once the searches land there, the intended slice is the quoted text. */
  lemma ExtractOnShape(content: string, m: nat, open: nat, close: nat)
    requires '{' in content && '}' in content
    requires Searched(content, m, open, close)
    ensures ExtractReply(content) == content[open + 1..close]
  {
    assert ExtractReply(content) == AfterMarker(content, m);
    assert AfterMarker(content, m) == QuotedAt(content, open);
    assert QuotedAt(content, open) == UpToQuote(content, open + 1);
  }

  /** The slice as written on the same content: the quoted text only when the quote
      follows the colon directly. */
  lemma ExtractOnShapeAsWritten(content: string, m: nat, open: nat, close: nat)
    requires '{' in content && '}' in content
    requires Searched(content, m, open, close)
    ensures ExtractReplyAsWritten(content) ==
      if open == m + |ReplyMarker| then content[open + 1..close] else content[m + AsWrittenOffset..open]
  {
    assert ExtractReplyAsWritten(content) == AsWrittenAfterMarker(content, m);
    if open == m + |ReplyMarker| {
      assert AsWrittenAfterMarker(content, m) == UpToQuote(content, open + 1);
    } else {
      assert UpToQuote(content, m + AsWrittenOffset) == content[m + AsWrittenOffset..open];
    }
  }

  /** On output where the first "reply": is followed by spaces and a quoted text, the
      intended slice is the quoted text, while the slice as written is that text only when
      no space follows the colon: with spaces it is the spaces after the first, so one
      space gives "". */
  lemma ReplyBodyExtraction(content: string, m: nat, open: nat, close: nat)
    requires '{' in content && '}' in content
    requires ReplyShaped(content, m, open, close)
    ensures ExtractReply(content) == content[open + 1..close]
    ensures ExtractReplyAsWritten(content) ==
      if open == m + |ReplyMarker| then content[open + 1..close] else content[m + |ReplyMarker| + 1..open]
  {
    ShapeSearches(content, m, open, close);
    ExtractOnShape(content, m, open, close);
    ExtractOnShapeAsWritten(content, m, open, close);
  }

  /** A model answer with one space after the colon has the reply shape. */
  lemma SpacedReplyShape()
    ensures var content := "Reply: {\"reply\": \"Hi\"}";
      '{' in content && '}' in content && ReplyShaped(content, 8, 17, 20)
  {
    var content := "Reply: {\"reply\": \"Hi\"}";
    assert content[7] == '{' && content[21] == '}';
    assert content[8..16] == ReplyMarker;
    NoQuoteNoMarker(content, 8);
  }

  /** The marker cannot start before the first double quote. */
  lemma NoQuoteNoMarker(content: string, m: nat)
    requires m <= |content|
    requires forall i :: 0 <= i < m ==> content[i] != '"'
    ensures forall i :: 0 <= i < m ==> !OccursAt(content, ReplyMarker, i)
  {
    forall i | 0 <= i < m ensures !OccursAt(content, ReplyMarker, i) {
      if i + |ReplyMarker| <= |content| {
        assert content[i..i + |ReplyMarker|][0] != ReplyMarker[0];
      }
    }
  }

  /** The input that shows the offset error: the slice as written is empty where the
      reply is "Hi". */
  lemma SpacedReplyIsLost()
    ensures ExtractReplyAsWritten("Reply: {\"reply\": \"Hi\"}") == ""
  {
    SpacedReplyShape();
    ReplyBodyExtraction("Reply: {\"reply\": \"Hi\"}", 8, 17, 20);
  }

  /** The corrected slice on the same input is the reply. */
  lemma SpacedReplyIsKept()
    ensures ExtractReply("Reply: {\"reply\": \"Hi\"}") == "Hi"
  {
    var content := "Reply: {\"reply\": \"Hi\"}";
    SpacedReplyShape();
    ReplyBodyExtraction(content, 8, 17, 20);
    assert content[18..20] == ['H', 'i'] by {
      assert content[18] == 'H' && content[19] == 'i';
    }
  }

  /** The answer that goes out when a model reply arrived: the "reply" value of a JSON
      object, the fallback slice of a malformed answer, or None when indexing the parsed
      value raised. */
  function ReplyFromContent(content: string, parsed: JsonParse): (r: Option<string>)
    ensures r.None? <==> parsed.NotAnObject?
    ensures parsed.ObjectWithReply? ==> r == Some(parsed.reply)
    ensures (parsed.ParseError? || parsed.ObjectWithoutReply?) ==> r == Some(ExtractReply(content))
  {
    match parsed
    case ObjectWithReply(v) => Some(v)
    case NotAnObject => None
    case _ => Some(ExtractReply(content))
  }

  /** The same with the fallback slice exactly as written. */
  function ReplyFromContentAsWritten(content: string, parsed: JsonParse): (r: Option<string>)
    ensures r.None? <==> parsed.NotAnObject?
    ensures parsed.ObjectWithReply? ==> r == Some(parsed.reply)
    ensures (parsed.ParseError? || parsed.ObjectWithoutReply?) ==> r == Some(ExtractReplyAsWritten(content))
  {
    match parsed
    case ObjectWithReply(v) => Some(v)
    case NotAnObject => None
    case _ => Some(ExtractReplyAsWritten(content))
  }

  /** The model's raw answer and how it parsed, when the prompt could be built and the
      call returned message content; None for every failure before that point. */
  function Answer(template: Option<ReplyPrompt>, tweet: string, completion: Completion): (r: Option<(string, JsonParse)>)
    ensures r.Some? <==>
      template.Some? && |template.value.instructions| >= 2 && completion.Completed? && completion.content.Some?
    ensures r.Some? ==> r.value == (completion.content.value, completion.parsed)
  {
    if template.None? || BuildPrompt(template.value, tweet).None? then None
    else
      match completion
      case CallFailed => None
      case Completed(content, parsed) =>
        if content.None? then None else Some((content.value, parsed))
  }

  /** generate_reply with the corrected fallback slice: every failure (missing template,
      fewer than two instruction lines, a failed call, no content, a non-object answer)
      gives the fixed fallback text; otherwise a parsed "reply" value is returned as it
      is, and a parse failure or a missing key returns the slice of the raw answer. */
  function GenerateReply(template: Option<ReplyPrompt>, tweet: string, completion: Completion): (r: string)
    ensures (|| template.None? || |template.value.instructions| < 2 || completion.CallFailed?
             || completion.content.None? || completion.parsed.NotAnObject?) ==> r == FallbackReply
    ensures && template.Some? && |template.value.instructions| >= 2 && completion.Completed? && completion.content.Some?
            && !completion.parsed.NotAnObject? ==>
      r == ReplyFromContent(completion.content.value, completion.parsed).value
  {
    match Answer(template, tweet, completion)
    case None => FallbackReply
    case Some((content, parsed)) => ReplyFromContent(content, parsed).GetOr(FallbackReply)
  }

  /** generate_reply exactly as written, with the offset-9 fallback slice. */
  function GenerateReplyAsWritten(template: Option<ReplyPrompt>, tweet: string, completion: Completion): (r: string)
    ensures (|| template.None? || |template.value.instructions| < 2 || completion.CallFailed?
             || completion.content.None? || completion.parsed.NotAnObject?) ==> r == FallbackReply
    ensures && template.Some? && |template.value.instructions| >= 2 && completion.Completed? && completion.content.Some?
            && !completion.parsed.NotAnObject? ==>
      r == ReplyFromContentAsWritten(completion.content.value, completion.parsed).value
  {
    match Answer(template, tweet, completion)
    case None => FallbackReply
    case Some((content, parsed)) => ReplyFromContentAsWritten(content, parsed).GetOr(FallbackReply)
  }

  /** The two differ only where a malformed answer is salvaged, and there only by the
      slice taken. */
  lemma GenerateReplyDiffersOnlyInSlice(template: Option<ReplyPrompt>, tweet: string, completion: Completion)
    ensures || GenerateReplyAsWritten(template, tweet, completion) == GenerateReply(template, tweet, completion)
            || (&& Answer(template, tweet, completion).Some?
                && (completion.parsed.ParseError? || completion.parsed.ObjectWithoutReply?)
                && GenerateReply(template, tweet, completion) == ExtractReply(completion.content.value)
                && GenerateReplyAsWritten(template, tweet, completion) == ExtractReplyAsWritten(completion.content.value))
  {
  }

  /** Whatever the template and tweet, a malformed answer with one space after the
      colon gives "" as written where the corrected reply is "Hi". */
  lemma GeneratedSpacedReplyIsLost(template: ReplyPrompt, tweet: string)
    requires |template.instructions| >= 2
    ensures GenerateReplyAsWritten(Some(template), tweet, Completed(Some("Reply: {\"reply\": \"Hi\"}"), ParseError)) == ""
    ensures GenerateReply(Some(template), tweet, Completed(Some("Reply: {\"reply\": \"Hi\"}"), ParseError)) == "Hi"
  {
    SpacedReplyIsLost();
    SpacedReplyIsKept();
  }
}
