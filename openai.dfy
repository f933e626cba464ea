/**
 * src/lib/openai.ts: the prompts `generateChapterContent` and
 * `improveContent` send, and what each makes of the completion service's
 * answer. The service itself is a parameter `complete` that maps the request
 * sent to the outcome of awaiting it: a completion or a thrown error.
 */
module OpenAI {
  import opened Wrappers
  import Js

  datatype Role = SystemRole | UserRole

  datatype ChatMessageParam = ChatMessageParam(role: Role, content: string)

  /** The messages of one chat-completion request. */
  datatype ChatRequest = ChatRequest(messages: seq<ChatMessageParam>)

  datatype ResponseMessage = ResponseMessage(content: Option<string>)

  datatype Choice = Choice(message: Option<ResponseMessage>)

  datatype ChatCompletion = ChatCompletion(choices: seq<Choice>)

  /** What awaiting the client call yields: a completion, or an exception. */
  datatype CallOutcome = Completed(completion: ChatCompletion) | Threw

  /** Number of trailing characters of the previous chapter kept as context. */
  const ContinuityWindow: nat := 500

  const ContinuityLabel: string := "前文摘要: "

  const SummaryLabel: string := "章节概要: "

  /** Returned when the completion carries no usable text. */
  const GenerationFallback: string := "生成失败，请重试。"

  /** Message of the one error `generateChapterContent` throws. */
  const GenerationErrorMessage: string := "AI生成失败，请检查API配置或稍后重试。"

  /** The system prompt up to the style. */
  const SystemOpening: string :=
    "你是一个专业的小说作家AI助手。你的任务是根据给定的章节概要生成高质量的小说内容。\n\n要求:\n1. 风格: "

  const GenreLabel: string := "\n2. 类型: "

  const NumberLabel: string := "\n3. 章节号: "

  const TitleLabel: string := "\n4. 小说标题: "

  /** The content requirements, up to the genre's second mention. */
  const Requirements: string :=
    "\n5. 内容要求: 生成2000-3000字的章节内容\n6. 保持与前文的连贯性\n7. 使用生动的描写和对话\n8. 符合"

  /** The system prompt after its last mention of the genre. */
  const SystemClosing: string := "类型小说的特点\n\n请直接返回章节内容，不要包含额外的说明或格式。"

  /**
   * The chapter-writing instructions, parameterised by style, genre, number
   * and title: the fixed opening and the style come first, the genre and the
   * fixed closing last.
   */
  function SystemPrompt(style: string, genre: string, chapterNumber: int, novelTitle: string): (r: string)
    ensures |r| >= |SystemOpening + style| + |genre + SystemClosing|
    ensures r[..|SystemOpening + style|] == SystemOpening + style
    ensures r[|r| - |genre + SystemClosing|..] == genre + SystemClosing
  {
    var lead := SystemOpening + style;
    var middle := GenreLabel + genre + NumberLabel + Js.IntToString(chapterNumber) + TitleLabel + novelTitle
      + Requirements;
    var closing := genre + SystemClosing;
    ConcatEnds(lead, middle, closing);
    lead + middle + closing
  }

  /** The system prompt up to the chapter number. */
  function SystemHead(style: string, genre: string): string {
    SystemOpening + style + GenreLabel + genre + NumberLabel
  }

  /** The system prompt after the title. */
  function SystemTail(genre: string): string {
    Requirements + genre + SystemClosing
  }

  lemma Regroup3(o: string, s: string, gl: string, g: string, nl: string, d: string, tl: string, t: string,
                 rq: string, c: string)
    ensures (o + s) + (gl + g + nl + d + tl + t + rq) + (g + c) == (o + s + gl + g + nl) + (d + tl + t) + (rq + g + c)
  {
  }

  /** The system prompt around its number-and-title part. */
  lemma SystemPromptParts(style: string, genre: string, chapterNumber: int, novelTitle: string)
    ensures SystemPrompt(style, genre, chapterNumber, novelTitle)
      == SystemHead(style, genre) + (Js.IntToString(chapterNumber) + TitleLabel + novelTitle) + SystemTail(genre)
  {
    Regroup3(SystemOpening, style, GenreLabel, genre, NumberLabel, Js.IntToString(chapterNumber), TitleLabel,
             novelTitle, Requirements, SystemClosing);
  }

  /** The character right after `a` in `a + TitleLabel + t` is a line break. */
  lemma LabelAfter(a: string, t: string)
    ensures |a + TitleLabel + t| > |a| && (a + TitleLabel + t)[|a|] == '\n'
  {
  }

  /** A label that opens with a line break separates a digit string from what follows it. */
  lemma SplitAtLabel(a: string, t1: string, b: string, t2: string)
    requires forall i :: 0 <= i < |a| ==> a[i] != '\n'
    requires forall i :: 0 <= i < |b| ==> b[i] != '\n'
    requires a + TitleLabel + t1 == b + TitleLabel + t2
    ensures a == b && t1 == t2
  {
    var x, y := a + TitleLabel + t1, b + TitleLabel + t2;
    if |a| < |b| {
      LabelAfter(a, t1);
      assert false;
    } else if |b| < |a| {
      LabelAfter(b, t2);
      assert false;
    }
    assert a == x[..|a|] && b == y[..|b|];
    assert t1 == x[|a| + |TitleLabel|..] && t2 == y[|b| + |TitleLabel|..];
  }

  /**
   * For a fixed style and genre, two system prompts are equal exactly when
   * they are for the same chapter number and the same novel title.
   */
  lemma SystemPromptDeterminesNumberAndTitle(style: string, genre: string, n1: int, n2: int, t1: string, t2: string)
    ensures SystemPrompt(style, genre, n1, t1) == SystemPrompt(style, genre, n2, t2) <==> n1 == n2 && t1 == t2
  {
    if SystemPrompt(style, genre, n1, t1) == SystemPrompt(style, genre, n2, t2) {
      SystemPromptParts(style, genre, n1, t1);
      SystemPromptParts(style, genre, n2, t2);
      var d1, d2 := Js.IntToString(n1), Js.IntToString(n2);
      CancelAround(SystemHead(style, genre), d1 + TitleLabel + t1, d2 + TitleLabel + t2, SystemTail(genre));
      SplitAtLabel(d1, t1, d2, t2);
      Js.IntToStringInjective(n1, n2);
    }
  }

  /**
   * The part of the previous chapter the prompt may see: its last (at most)
   * 500 characters when it is present and non-empty, nothing otherwise.
   */
  function TrailingWindow(previousContent: Option<string>): Option<string> {
    if Js.Truthy(previousContent) then
      var p := previousContent.value;
      var k := if |p| < ContinuityWindow then |p| else ContinuityWindow;
      Some(p[|p| - k..])
    else None
  }

  /** The optional continuity section of the user prompt. */
  function ContinuitySection(previousContent: Option<string>): (r: string)
    ensures r == "" <==> !Js.Truthy(previousContent)
    ensures Js.Truthy(previousContent) ==>
      r == ContinuityLabel + TrailingWindow(previousContent).value + "..."
    ensures Js.Truthy(previousContent) ==>
      |TrailingWindow(previousContent).value| == Js.Min(|previousContent.value|, ContinuityWindow)
  {
    if Js.Truthy(previousContent) then
      ContinuityLabel + Js.SliceFrom(previousContent.value, -(ContinuityWindow as int)) + "..."
    else ""
  }

  const RequestOpening: string := "\n\n请根据以上信息生成第"

  const RequestClosing: string := "章的内容。"

  function UserPromptHead(summary: string): string {
    SummaryLabel + summary + "\n\n"
  }

  function UserPromptTail(chapterNumber: int): string {
    RequestOpening + Js.IntToString(chapterNumber) + RequestClosing
  }

  /** `x` is a prefix and `z` a suffix of `x + y + z`. */
  lemma ConcatEnds(x: string, y: string, z: string)
    ensures (x + y + z)[..|x|] == x
    ensures (x + y + z)[|x + y|..] == z
  {
  }

  lemma Regroup(a: string, b: string, c: string, d: string, e: string)
    ensures (a + b) + c + (d + e) == a + (b + c + d) + e
  {
  }

  /** The user prompt: summary, optional continuity section, then the request for chapter N. */
  function UserPrompt(summary: string, chapterNumber: int, previousContent: Option<string>): (r: string)
    ensures |r| >= |SummaryLabel + summary|
    ensures r[..|SummaryLabel + summary|] == SummaryLabel + summary
    ensures |r| >= |Js.IntToString(chapterNumber) + RequestClosing|
    ensures r[|r| - |Js.IntToString(chapterNumber) + RequestClosing|..] == Js.IntToString(chapterNumber) + RequestClosing
  {
    var lead := SummaryLabel + summary;
    var middle := "\n\n" + ContinuitySection(previousContent) + RequestOpening;
    var request := Js.IntToString(chapterNumber) + RequestClosing;
    var r := UserPromptHead(summary) + ContinuitySection(previousContent) + UserPromptTail(chapterNumber);
    Regroup(lead, "\n\n", ContinuitySection(previousContent), RequestOpening, request);
    ConcatEnds(lead, middle, request);
    r
  }

  /** Removing a common prefix and a common suffix. */
  lemma CancelAround(a: string, x: string, y: string, b: string)
    requires a + x + b == a + y + b
    ensures x == y
  {
    assert |x| == |y|;
    assert x == (a + x + b)[|a|..|a| + |x|];
    assert y == (a + y + b)[|a|..|a| + |y|];
  }

  /**
   * The user prompt sees the previous chapter only through its trailing
   * window, and it tells apart any two different windows.
   */
  lemma UserPromptDependsOnlyOnWindow(summary: string, chapterNumber: int, p1: Option<string>, p2: Option<string>)
    ensures UserPrompt(summary, chapterNumber, p1) == UserPrompt(summary, chapterNumber, p2)
        <==> TrailingWindow(p1) == TrailingWindow(p2)
  {
    var head, tail := UserPromptHead(summary), UserPromptTail(chapterNumber);
    var s1, s2 := ContinuitySection(p1), ContinuitySection(p2);
    if UserPrompt(summary, chapterNumber, p1) == UserPrompt(summary, chapterNumber, p2) {
      CancelAround(head, s1, s2, tail);
      if Js.Truthy(p1) && Js.Truthy(p2) {
        var w1, w2 := TrailingWindow(p1).value, TrailingWindow(p2).value;
        assert w1 == s1[|ContinuityLabel|..|s1| - 3];
        assert w2 == s2[|ContinuityLabel|..|s2| - 3];
      }
    }
  }

  /** The two messages `generateChapterContent` sends: the instructions, then the request. */
  function ChapterRequest(summary: string, genre: string, style: string, chapterNumber: int,
                          novelTitle: string, previousContent: Option<string>): (r: ChatRequest)
    ensures |r.messages| == 2
    ensures r.messages[0] == ChatMessageParam(SystemRole, SystemPrompt(style, genre, chapterNumber, novelTitle))
    ensures r.messages[1] == ChatMessageParam(UserRole, UserPrompt(summary, chapterNumber, previousContent))
  {
    ChatRequest([
      ChatMessageParam(SystemRole, SystemPrompt(style, genre, chapterNumber, novelTitle)),
      ChatMessageParam(UserRole, UserPrompt(summary, chapterNumber, previousContent))
    ])
  }

  /** The system message depends on style, genre, number and title only; the user message not on genre, style or title. */
  lemma ChapterRequestDependencies(summary1: string, summary2: string, genre1: string, genre2: string,
                                   style1: string, style2: string, chapterNumber: int,
                                   title1: string, title2: string, p1: Option<string>, p2: Option<string>)
    ensures genre1 == genre2 && style1 == style2 && title1 == title2 ==>
      ChapterRequest(summary1, genre1, style1, chapterNumber, title1, p1).messages[0]
      == ChapterRequest(summary2, genre2, style2, chapterNumber, title2, p2).messages[0]
    ensures summary1 == summary2 && TrailingWindow(p1) == TrailingWindow(p2) ==>
      ChapterRequest(summary1, genre1, style1, chapterNumber, title1, p1).messages[1]
      == ChapterRequest(summary2, genre2, style2, chapterNumber, title2, p2).messages[1]
  {
  }

  /** `completion.choices[0]?.message?.content`. */
  function FirstChoiceContent(completion: ChatCompletion): (r: Option<string>)
    ensures r.Some? <==>
      && |completion.choices| > 0
      && completion.choices[0].message.Some?
      && completion.choices[0].message.value.content.Some?
    ensures r.Some? ==> r == completion.choices[0].message.value.content
  {
    if |completion.choices| == 0 then None
    else match completion.choices[0].message
      case None => None
      case Some(m) => m.content
  }

  /**
   * `generateChapterContent`: a thrown call becomes one error with a fixed
   * message, a completion without usable text becomes the fixed fallback, and
   * otherwise the first choice's text is returned.
   */
  method GenerateChapterContent(summary: string, genre: string, style: string, chapterNumber: int,
                                novelTitle: string, previousContent: Option<string>,
                                complete: ChatRequest -> CallOutcome)
    returns (r: Result<string, string>)
    ensures var outcome := complete(ChapterRequest(summary, genre, style, chapterNumber, novelTitle, previousContent));
      && (r.Failure? <==> outcome.Threw?)
      && (r.Failure? ==> r.error == GenerationErrorMessage)
      && (outcome.Completed? && Js.Truthy(FirstChoiceContent(outcome.completion)) ==>
            r == Success(FirstChoiceContent(outcome.completion).value))
      && (outcome.Completed? && !Js.Truthy(FirstChoiceContent(outcome.completion)) ==>
            r == Success(GenerationFallback))
    ensures r.Success? ==> r.value != ""
  {
    var request := ChapterRequest(summary, genre, style, chapterNumber, novelTitle, previousContent);
    var outcome := complete(request);
    match outcome {
      case Threw =>
        r := Failure(GenerationErrorMessage);
      case Completed(completion) =>
        r := Success(Js.Or(FirstChoiceContent(completion), GenerationFallback));
    }
  }

  const ImproveOpening: string := "你是一个专业的文学编辑。请优化以下"

  const ImproveClosing: string :=
    "类型小说的内容，提升文字质量、情节连贯性和可读性。\n\n优化要求:\n1. 保持原有情节和人物设定\n2. 改善文字表达和描写\n3. 增强对话的自然度\n4. 优化段落结构\n5. 确保情节逻辑合理\n\n请直接返回优化后的内容。"

  /** The editing instructions of `improveContent`: fixed text with the genre at one fixed place. */
  function ImproveSystemPrompt(genre: string): (r: string)
    ensures |r| == |ImproveOpening| + |genre| + |ImproveClosing|
    ensures r[..|ImproveOpening|] == ImproveOpening
    ensures r[|ImproveOpening|..|ImproveOpening| + |genre|] == genre
    ensures r[|ImproveOpening| + |genre|..] == ImproveClosing
  {
    ImproveOpening + genre + ImproveClosing
  }

  /** Different genres give different editing instructions. */
  lemma ImproveSystemPromptDeterminesGenre(genre1: string, genre2: string)
    ensures ImproveSystemPrompt(genre1) == ImproveSystemPrompt(genre2) <==> genre1 == genre2
  {
    if ImproveSystemPrompt(genre1) == ImproveSystemPrompt(genre2) {
      CancelAround(ImproveOpening, genre1, genre2, ImproveClosing);
    }
  }

  /** The two messages `improveContent` sends: the instructions, then the content verbatim. */
  function ImproveRequest(content: string, genre: string): (r: ChatRequest)
    ensures |r.messages| == 2
    ensures r.messages[0] == ChatMessageParam(SystemRole, ImproveSystemPrompt(genre))
    ensures r.messages[1] == ChatMessageParam(UserRole, content)
  {
    ChatRequest([
      ChatMessageParam(SystemRole, ImproveSystemPrompt(genre)),
      ChatMessageParam(UserRole, content)
    ])
  }

  /**
   * `improveContent`: never fails; a thrown call or a completion without
   * usable text gives back the input unchanged.
   */
  method ImproveContent(content: string, genre: string, complete: ChatRequest -> CallOutcome)
    returns (r: string)
    ensures var outcome := complete(ImproveRequest(content, genre));
      && (outcome.Threw? ==> r == content)
      && (outcome.Completed? && Js.Truthy(FirstChoiceContent(outcome.completion)) ==>
            r == FirstChoiceContent(outcome.completion).value)
      && (outcome.Completed? && !Js.Truthy(FirstChoiceContent(outcome.completion)) ==> r == content)
  {
    var outcome := complete(ImproveRequest(content, genre));
    match outcome {
      case Threw =>
        r := content;
      case Completed(completion) =>
        r := Js.Or(FirstChoiceContent(completion), content);
    }
  }
}
