/** The `/quote` endpoint of the quote server (quote-server/index.js) as a
    pure request-to-response transform. The chat-completion call to the
    text-generation service is a parameter: a function from the prompt to
    the outcome of that call. */
module QuoteServer {
  import opened Wrappers
  import opened Text

  const DefaultMood: string := "neutral"
  const PromptPrefix: string := "Give me a short, meaningful, original quote for someone who is feeling "
  const PromptSuffix: string := ". Make it poetic and encouraging. Keep it under 25 words."
  const FallbackQuote: string := "Keep going. Your next step matters most."
  const ErrorMessage: string := "Failed to generate quote"
  const StatusOk: int := 200
  const StatusServerError: int := 500

  /** The part of a chat completion the handler reads:
      `completion.choices?.[0]?.message?.content`. Each level may be absent. */
  datatype Message = Message(content: Option<string>)
  datatype Choice = Choice(message: Option<Message>)
  datatype Completion = Completion(choices: Option<seq<Choice>>)

  /** What the awaited call to the completion service gives: it throws
      (network, authentication, quota, malformed reply) or returns a completion. */
  datatype Upstream = Failed | Completed(completion: Completion)

  /** The JSON body: exactly one of `{quote}` or `{error}`. */
  datatype Body = QuoteBody(quote: string) | ErrorBody(error: string)
  datatype Response = Response(status: int, body: Body)

  /** `(req.query.mood || 'neutral')`: a missing or empty query value
      becomes "neutral"; any other value is kept as it is. */
  function NormaliseMood(query: Option<string>): (mood: string)
    ensures mood != ""
    ensures query.Some? && query.value != "" ==> mood == query.value
    ensures query.None? || query.value == "" ==> mood == DefaultMood
  {
    match query
    case Some(m) => if m != "" then m else DefaultMood
    case None => DefaultMood
  }

  /** The prompt: the fixed prefix, the mood verbatim, the fixed suffix. */
  function Prompt(mood: string): (p: string)
    ensures |p| == |PromptPrefix| + |mood| + |PromptSuffix|
    ensures p[..|PromptPrefix|] == PromptPrefix
    ensures p[|PromptPrefix|..|PromptPrefix| + |mood|] == mood
    ensures p[|PromptPrefix| + |mood|..] == PromptSuffix
  {
    PromptPrefix + mood + PromptSuffix
  }

  /** Reads the mood back out of a prompt. */
  function MoodOfPrompt(p: string): string
    requires |PromptPrefix| + |PromptSuffix| <= |p|
  {
    p[|PromptPrefix|..|p| - |PromptSuffix|]
  }

  /** The mood can be recovered from the prompt, so different moods give
      different prompts. */
  lemma MoodOfPromptRoundTrip(mood: string)
    ensures |PromptPrefix| + |PromptSuffix| <= |Prompt(mood)|
    ensures MoodOfPrompt(Prompt(mood)) == mood
  {
  }

  lemma PromptInjective(a: string, b: string)
    requires Prompt(a) == Prompt(b)
    ensures a == b
  {
    MoodOfPromptRoundTrip(a);
    MoodOfPromptRoundTrip(b);
  }

  /** The prompt contains "feeling " followed by the mood, at a fixed offset. */
  lemma PromptMentionsFeeling(mood: string)
    ensures var at := |PromptPrefix| - |"feeling "|;
      Prompt(mood)[at..at + |"feeling " + mood|] == "feeling " + mood
  {
    var at := |PromptPrefix| - |"feeling "|;
    assert PromptPrefix[at..] == "feeling ";
    assert Prompt(mood)[at..at + |"feeling " + mood|] == PromptPrefix[at..] + mood;
  }

  /** `completion.choices?.[0]?.message?.content`. */
  function FirstContent(c: Completion): (content: Option<string>)
    ensures content.Some? <==>
      c.choices.Some? && |c.choices.value| > 0
      && c.choices.value[0].message.Some? && c.choices.value[0].message.value.content.Some?
    ensures content.Some? ==> content.value == c.choices.value[0].message.value.content.value
  {
    match c.choices
    case None => None
    case Some(choices) =>
      if |choices| == 0 then None
      else match choices[0].message
        case None => None
        case Some(msg) => msg.content
  }

  /** `content?.trim() || fallback`: the trimmed content when that is
      non-empty, otherwise the fixed fallback quote. */
  function QuoteOf(content: Option<string>): (quote: string)
    ensures quote != "" && Trimmed(quote)
    ensures content.Some? && Trim(content.value) != "" ==> quote == Trim(content.value)
    ensures content.None? || AllWhitespace(content.value) ==> quote == FallbackQuote
  {
    match content
    case Some(t) =>
      TrimEmptyIff(t);
      if Trim(t) != "" then Trim(t) else FallbackQuote
    case None => FallbackQuote
  }

  /** The whole handler: normalise the mood, build the prompt, call the
      service, and answer 200 `{quote}` or, if the call throws, 500 `{error}`. */
  function HandleQuote(query: Option<string>, complete: string -> Upstream): (res: Response)
    ensures res.status == StatusOk <==> res.body.QuoteBody?
    ensures res.status == StatusServerError <==> res.body.ErrorBody?
    ensures res.body.QuoteBody? <==> complete(Prompt(NormaliseMood(query))).Completed?
    ensures res.body.ErrorBody? ==> res.body.error == ErrorMessage
    ensures res.body.QuoteBody? ==> res.body.quote != "" && Trimmed(res.body.quote)
    ensures var u := complete(Prompt(NormaliseMood(query)));
      u.Completed? ==> res.body == QuoteBody(QuoteOf(FirstContent(u.completion)))
  {
    var mood := NormaliseMood(query);
    match complete(Prompt(mood))
    case Completed(c) => Response(StatusOk, QuoteBody(QuoteOf(FirstContent(c))))
    case Failed => Response(StatusServerError, ErrorBody(ErrorMessage))
  }

  /** A stub service that answers every prompt with one completion whose
      content is `t`: the server replies with `t` trimmed, or with the
      fallback when `t` is blank. */
  lemma StubbedCompletion(query: Option<string>, t: string)
    ensures var res := HandleQuote(query, (p: string) => Completed(Completion(Some([Choice(Some(Message(Some(t))))]))));
      res.status == StatusOk
      && res.body == QuoteBody(if AllWhitespace(t) then FallbackQuote else Trim(t))
  {
    TrimEmptyIff(t);
  }

  /** A service that returns no choices at all gives the fallback quote. */
  lemma NoChoicesGivesFallback(query: Option<string>)
    ensures HandleQuote(query, (p: string) => Completed(Completion(Some([])))) == Response(StatusOk, QuoteBody(FallbackQuote))
  {
  }

  /** A failing service gives 500 with the fixed error message. */
  lemma FailureGivesError(query: Option<string>)
    ensures HandleQuote(query, (p: string) => Failed) == Response(StatusServerError, ErrorBody(ErrorMessage))
  {
  }

  /** A missing or empty mood produces the prompt for "neutral". */
  lemma MissingMoodPromptsNeutral(query: Option<string>)
    requires query.None? || query.value == ""
    ensures Prompt(NormaliseMood(query)) == PromptPrefix + "neutral" + PromptSuffix
  {
  }
}
