/**
 * The built-in assistant: a fixed, ordered list of keyword rules applied to
 * the user's text. The first rule that matches decides the reply.
 */
module Reply {
  import opened Text

  const EmptyPrompt := "I'm here! Ask me anything."
  const JokeReply := "Here's one: Why do programmers prefer dark mode? Because light attracts bugs."
  const GreetingReply := "Hello! I'm your always-on AI. How can I help today?"
  const HelpReply := "Tell me what you're trying to do, and I'll break it into clear steps."
  const EchoOpen := "You said: '"
  const EchoClose := "'. Tell me more so I can give a better answer."
  const AnswerOpen := "Here's a quick, helpful answer based on what you asked: "
  const AnswerClose := "\n\nI can also provide examples, step-by-step guides, or summaries if you like."

  /** Stripped texts shorter than this are echoed back. */
  const EchoBelow := 12
  /** How many characters of a longer text the answer quotes. */
  const AnswerQuote := 300

  /** The longest reply the rules can produce. */
  const MaxReplyLength := |AnswerOpen| + AnswerQuote + |AnswerClose|

  /** The rules, in the order they are tried. */
  datatype Rule = Prompt | Joke | Greeting | Help | Echo | Answer

  /** The first rule that matches the stripped text `t`. */
  function Classify(t: string): Rule {
    if t == [] then Prompt
    else
      var lower := Lower(t);
      if Contains(lower, "joke") then Joke
      else if Contains(lower, "hello") || Contains(lower, "hi") then Greeting
      else if Contains(lower, "help") then Help
      else if |t| < EchoBelow then Echo
      else Answer
  }

  /** The reply a rule produces for the stripped text `t`. */
  function Render(rule: Rule, t: string): string {
    match rule
    case Prompt => EmptyPrompt
    case Joke => JokeReply
    case Greeting => GreetingReply
    case Help => HelpReply
    case Echo => EchoOpen + t + EchoClose
    case Answer => AnswerOpen + Take(t, AnswerQuote) + AnswerClose
  }

  /** `generate_assistant_reply(user_text)`. */
  function GenerateAssistantReply(userText: string): string {
    var t := Strip(userText);
    Render(Classify(t), t)
  }

  /** The lower-cased, stripped user text contains `word` somewhere. */
  ghost predicate Mentions(userText: string, word: string) {
    IsSubstring(word, Lower(Strip(userText)))
  }

  /** None of the four keywords occurs in the text. */
  ghost predicate NoKeyword(userText: string) {
    && !Mentions(userText, "joke")
    && !Mentions(userText, "hello")
    && !Mentions(userText, "hi")
    && !Mentions(userText, "help")
  }

  lemma KeywordTests(userText: string)
    ensures var lower := Lower(Strip(userText));
      && (Contains(lower, "joke") <==> Mentions(userText, "joke"))
      && (Contains(lower, "hello") <==> Mentions(userText, "hello"))
      && (Contains(lower, "hi") <==> Mentions(userText, "hi"))
      && (Contains(lower, "help") <==> Mentions(userText, "help"))
  {
    var lower := Lower(Strip(userText));
    ContainsIffSubstring(lower, "joke");
    ContainsIffSubstring(lower, "hello");
    ContainsIffSubstring(lower, "hi");
    ContainsIffSubstring(lower, "help");
  }

  /** The fixed prompt comes back exactly when the text is blank, and for nothing else. */
  lemma BlankGetsPrompt(userText: string)
    ensures GenerateAssistantReply(userText) == EmptyPrompt <==> AllSpace(userText)
  {
    var t := Strip(userText);
    if t != [] {
      var r := GenerateAssistantReply(userText);
      assert |r| > |EmptyPrompt|;
    }
  }

  /** A text that mentions "joke" gets the joke, whatever else it mentions. */
  lemma JokeWins(userText: string)
    requires Mentions(userText, "joke")
    ensures GenerateAssistantReply(userText) == JokeReply
  {
    KeywordTests(userText);
  }

  /** Without "joke", a mention of "hello" or "hi" gets the greeting. */
  lemma GreetingBeforeHelp(userText: string)
    requires !Mentions(userText, "joke")
    requires Mentions(userText, "hello") || Mentions(userText, "hi")
    ensures GenerateAssistantReply(userText) == GreetingReply
  {
    KeywordTests(userText);
  }

  /**
   * Any text holding the letters "hi" (as "this" and "which" do) is caught by
   * the joke or greeting rule and never reaches the help rule.
   */
  lemma HiShadowsHelp(userText: string)
    requires Mentions(userText, "hi")
    ensures GenerateAssistantReply(userText) in {JokeReply, GreetingReply}
    ensures GenerateAssistantReply(userText) != HelpReply
  {
    KeywordTests(userText);
  }

  /** "help" alone, with no earlier keyword, gets the help text. */
  lemma HelpRule(userText: string)
    requires !Mentions(userText, "joke") && !Mentions(userText, "hello") && !Mentions(userText, "hi")
    requires Mentions(userText, "help")
    ensures GenerateAssistantReply(userText) == HelpReply
  {
    KeywordTests(userText);
  }

  /** A short text with no keyword is echoed back, stripped, inside the fixed template. */
  lemma ShortTextEchoed(userText: string)
    requires NoKeyword(userText)
    requires 0 < |Strip(userText)| < EchoBelow
    ensures GenerateAssistantReply(userText) == EchoOpen + Strip(userText) + EchoClose
  {
    KeywordTests(userText);
  }

  /**
   * A longer text with no keyword gets the fixed answer frame around the
   * first 300 characters of the stripped text.
   */
  lemma LongTextQuoted(userText: string)
    requires NoKeyword(userText)
    requires |Strip(userText)| >= EchoBelow
    ensures var t := Strip(userText);
      GenerateAssistantReply(userText) == AnswerOpen + t[..Min(|t|, AnswerQuote)] + AnswerClose
  {
    KeywordTests(userText);
    var t := Strip(userText);
    assert Classify(t) == Answer;
    AnswerQuotesPrefix(t);
  }

  lemma AnswerQuotesPrefix(t: string)
    ensures Render(Answer, t) == AnswerOpen + t[..Min(|t|, AnswerQuote)] + AnswerClose
  {
    if |t| <= AnswerQuote {
      assert t[..|t|] == t;
    }
  }

  /** No reply is longer than the answer frame around 300 quoted characters. */
  lemma ReplyLengthBound(userText: string)
    ensures |GenerateAssistantReply(userText)| <= MaxReplyLength
  {
    var t := Strip(userText);
    EchoOnlyShort(t);
    RenderBound(Classify(t), t);
  }

  lemma EchoOnlyShort(t: string)
    ensures Classify(t) == Echo ==> |t| < EchoBelow
  {
  }

  lemma RenderBound(rule: Rule, t: string)
    requires rule == Echo ==> |t| < EchoBelow
    ensures |Render(rule, t)| <= MaxReplyLength
  {
  }

  /** Surrounding whitespace never changes the reply: the rules see only the stripped text. */
  lemma ReplyOfStripped(userText: string)
    ensures GenerateAssistantReply(Strip(userText)) == GenerateAssistantReply(userText)
  {
    StripIdempotent(userText);
  }

  /** The greeting rule fires on "this" before the help rule can see "help". */
  lemma HelpMeWithThis(u: string)
    requires u == "help me with this"
    ensures GenerateAssistantReply(u) == GreetingReply
  {
    SampleFacts(u);
    GreetingBeforeHelp(u);
  }

  lemma SampleFacts(u: string)
    requires u == "help me with this"
    ensures Mentions(u, "hi") && !Mentions(u, "joke")
  {
    SampleStripped(u);
    SampleLower(u);
    SampleHasHi(u);
    SampleLacksJoke(u);
  }

  lemma SampleStripped(u: string)
    requires u == "help me with this"
    ensures Strip(u) == u
  {
    assert !IsSpace(u[0]) && !IsSpace(u[|u| - 1]);
    StripUnpadded(u);
  }

  lemma SampleLower(u: string)
    requires u == "help me with this"
    ensures Lower(u) == u
  {
    assert forall i :: 0 <= i < |u| ==> !('A' <= u[i] <= 'Z');
    LowerUnchanged(u);
  }

  lemma SampleLacksJoke(u: string)
    requires u == "help me with this"
    ensures !IsSubstring("joke", u)
  {
    assert forall j :: 0 <= j < |u| ==> u[j] != 'k';
    MissingLetter(u, "joke", 2);
  }

  lemma SampleHasHi(u: string)
    requires u == "help me with this"
    ensures IsSubstring("hi", u)
  {
    OccursByChars(u, "hi", 14);
  }
}
