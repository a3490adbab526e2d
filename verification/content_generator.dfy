/** `generate_tech_topic`, `generate_ai_content` and `generate_post_content`: the choice
    between an AI-written post, a dated template and a dated default post. The random
    choices, the model's response and today's date are parameters. */
module ContentGenerator {
  import opened Options
  import opened Text
  import opened Dates
  import opened Posts
  import ResponseParser

  /** The fixed topic list `generate_tech_topic` draws from. */
  const TechTopics: seq<string> := [
    "Cloud Native Architecture",
    "DevOps Best Practices",
    "Machine Learning Ethics",
    "Kubernetes in Production",
    "Serverless Computing",
    "Python Development Tips",
    "Web3 Technology",
    "Cybersecurity Trends",
    "GitHub Copilot and AI Programming",
    "Tech Industry Humor",
    "Docker Optimization",
    "API Design Principles",
    "Frontend Framework Comparison",
    "Infrastructure as Code",
    "Database Performance Tuning",
    "Tech Career Development",
    "Open Source Contributions",
    "Mobile App Development Trends",
    "Microservices Architecture",
    "AI and ML in DevOps"
  ]

  /** Which of the three strategies produced the post (the script logs it). */
  datatype Strategy = AiGenerated | TemplateBased | DefaultContent

  datatype Generated = Generated(post: Post, strategy: Strategy)

  /** The outcomes of the random draws one run makes: the coin deciding whether a
      template guides the AI, the guiding template, the topic, and the template used
      when the AI path yields nothing. */
  datatype Choices = Choices(useTemplateAsGuide: bool, guideIndex: nat, topicIndex: nat, templateIndex: nat)

  /** The draws `random.choice` can make: indices inside their lists. */
  predicate ChoicesFit(c: Choices, templateCount: nat) {
    && c.topicIndex < |TechTopics|
    && (templateCount > 0 ==> c.guideIndex < templateCount && c.templateIndex < templateCount)
  }

  /** The template guiding the AI: the drawn one when the coin chose a guide and there
      are templates, else none. */
  function Guide(templates: seq<Post>, choices: Choices): (guide: Option<Post>)
    requires ChoicesFit(choices, |templates|)
    ensures guide.Some? <==> |templates| > 0 && choices.useTemplateAsGuide
    ensures guide.Some? ==> guide.value in templates && guide.value == templates[choices.guideIndex]
  {
    if |templates| > 0 && choices.useTemplateAsGuide then Some(templates[choices.guideIndex]) else None
  }

  /** `generate_tech_topic`: one of the fixed topics. */
  function TechTopic(i: nat): (topic: string)
    requires i < |TechTopics|
    ensures topic in TechTopics && topic != []
  {
    TechTopics[i]
  }

  /** The topic the model is asked to write about: the guiding template's title, or a
      topic from the fixed list. */
  function AiTopic(guide: Option<Post>, topicIndex: nat): (topic: string)
    requires topicIndex < |TechTopics|
    ensures guide.Some? ==> topic == guide.value.title
    ensures guide.None? ==> topic in TechTopics
  {
    if guide.Some? then guide.value.title else TechTopic(topicIndex)
  }

  /** `generate_ai_content`. `response` is the model's text, or `None` when the call
      raised. A falsy key gives `None` before any call. */
  function GenerateAiContent(apiKey: Option<string>, guide: Option<Post>, topicIndex: nat,
                             response: Option<string>): (r: Option<Post>)
    requires topicIndex < |TechTopics|
    ensures r.Some? <==> Truthy(apiKey) && response.Some?
    // the post carries the whole response, is titled by the prompt topic unless the
    // response opens with a heading, and has a bounded excerpt and some tags
    ensures r.Some? ==>
      && r.value.content == response.value
      && (!StartsWith(response.value, "# ") ==> r.value.title == AiTopic(guide, topicIndex))
      && (StartsWith(response.value, "# ") ==>
            r.value.title == RemoveAll(Split(response.value, '\n')[0], "# "))
      && |r.value.excerpt| <= ResponseParser.ExcerptLimit
      && r.value.tags != []
  {
    if !Truthy(apiKey) then None
    else
      match response
      case None => None
      case Some(text) => Some(ResponseParser.ParseResponse(text, AiTopic(guide, topicIndex)))
  }

  /** What the AI post is made of, line by line: the title from the heading, the excerpt
      from the line the excerpt scan settles on among the lines after the first (empty
      when none qualifies), and the tags from the first tag line, or made up from the
      prompt topic when that line is missing or empty. */
  lemma AiPostParts(apiKey: Option<string>, guide: Option<Post>, topicIndex: nat, text: string)
    requires topicIndex < |TechTopics|
    requires Truthy(apiKey)
    ensures GenerateAiContent(apiKey, guide, topicIndex, Some(text)).Some?
    ensures var p := GenerateAiContent(apiKey, guide, topicIndex, Some(text)).value;
      var body := Split(text, '\n')[1..];
      && (p.excerpt == [] <==> forall i | 0 <= i < |body| :: !ResponseParser.IsCandidate(body[i]))
      && (p.excerpt != [] ==> exists i ::
            ResponseParser.ChosenAt(body, i) && p.excerpt == Clip(Strip(body[i]), ResponseParser.ExcerptLimit))
    ensures var p := GenerateAiContent(apiKey, guide, topicIndex, Some(text)).value;
      var lines := Split(text, '\n');
      && ((exists i :: ResponseParser.FirstTagLineAt(lines, i) && ResponseParser.TagValue(lines[i]) != []) ==>
            exists i :: ResponseParser.FirstTagLineAt(lines, i) && p.tags == ResponseParser.TagValue(lines[i]))
      && ((forall i :: ResponseParser.FirstTagLineAt(lines, i) ==> ResponseParser.TagValue(lines[i]) == []) ==>
            p.tags == ResponseParser.FallbackTags(AiTopic(guide, topicIndex)))
  {
    var lines := Split(text, '\n');
    ResponseParser.ExcerptChosen(lines[1..]);
    assert GenerateAiContent(apiKey, guide, topicIndex, Some(text))
        == Some(ResponseParser.ParseResponse(text, AiTopic(guide, topicIndex)));
  }

  /** The template with " - <date>" appended to its title; nothing else changes. */
  function StampTemplate(t: Post, date: string): (p: Post)
    ensures p.title == t.title + " - " + date
    ensures p.(title := t.title) == t
  {
    t.(title := t.title + " - " + date)
  }

  /** The post used when there is neither an AI result nor a template. */
  function DefaultPost(date: string): (p: Post)
    ensures p.title == "Tech Update - " + date
    ensures p.content != [] && p.tags != []
    ensures Contains(p.content, date)
  {
    Post(
      "Tech Update - " + date,
      "Latest thoughts on technology trends for " + date,
      DefaultContentText(date),
      "tech,update,devops")
  }

  /** The default post's Markdown body, which names the date once. */
  function DefaultContentText(date: string): (content: string)
    ensures Contains(content, date)
    ensures |content| > |date|
  {
    ContainsMiddle(DefaultLead, date, DefaultTail);
    DefaultLead + date + DefaultTail
  }

  const DefaultLead: string := "# Tech Update\n\nThis is the content for "
  const DefaultTail: string := ".\n\n## Key Points\n\n- Technology is constantly evolving\n- DevOps practices improve efficiency\n- Automation saves time\n\n## Conclusion\n\nStay updated with the latest tech trends!"

  /** `generate_post_content`: the AI post when the key is truthy and the call
      returned, else a dated template when there is one, else the dated default. */
  function GeneratePostContent(apiKey: Option<string>, templates: seq<Post>, choices: Choices,
                               response: Option<string>, today: Date): (g: Generated)
    requires ChoicesFit(choices, |templates|)
    requires ValidDate(today)
    ensures g.strategy == AiGenerated <==> Truthy(apiKey) && response.Some?
    ensures g.strategy == TemplateBased <==> !(Truthy(apiKey) && response.Some?) && |templates| > 0
    // the AI post is the one `generate_ai_content` returned for the drawn guide, unchanged
    ensures g.strategy == AiGenerated ==>
      g.post == GenerateAiContent(apiKey, Guide(templates, choices), choices.topicIndex, response).value
    ensures g.strategy == AiGenerated ==>
      && g.post.content == response.value
      && |g.post.excerpt| <= ResponseParser.ExcerptLimit
      && g.post.tags != []
    // without a heading the AI post is titled by its prompt topic: the guiding template's
    // title when the coin chose one and there are templates, else the drawn fixed topic
    ensures g.strategy == AiGenerated && !StartsWith(response.value, "# ") ==>
      g.post.title == (if |templates| > 0 && choices.useTemplateAsGuide
                       then templates[choices.guideIndex].title
                       else TechTopics[choices.topicIndex])
    ensures g.strategy == AiGenerated && StartsWith(response.value, "# ") ==>
      g.post.title == RemoveAll(Split(response.value, '\n')[0], "# ")
    ensures g.strategy == TemplateBased ==>
      var t := templates[choices.templateIndex];
      g.post.title == t.title + " - " + FormatDate(today) && g.post.(title := t.title) == t
    ensures g.strategy == DefaultContent ==>
      && g.post == DefaultPost(FormatDate(today))
      && g.post.title == "Tech Update - " + FormatDate(today)
      && g.post.content != []
  {
    var ai :=
      if Truthy(apiKey) then GenerateAiContent(apiKey, Guide(templates, choices), choices.topicIndex, response)
      else None;
    if ai.Some? then Generated(ai.value, AiGenerated)
    else if |templates| > 0 then Generated(StampTemplate(templates[choices.templateIndex], FormatDate(today)), TemplateBased)
    else Generated(DefaultPost(FormatDate(today)), DefaultContent)
  }

  /** Away from the AI path the title ends with today's date, and that date reads back
      from its last ten characters. */
  lemma DateStampReadsBack(apiKey: Option<string>, templates: seq<Post>, choices: Choices,
                           response: Option<string>, today: Date)
    requires ChoicesFit(choices, |templates|)
    requires ValidDate(today)
    ensures var g := GeneratePostContent(apiKey, templates, choices, response, today);
      g.strategy != AiGenerated ==>
        && |g.post.title| > 10
        && g.post.title[|g.post.title| - 10..] == FormatDate(today)
        && ParseDate(g.post.title[|g.post.title| - 10..]) == Some(today)
  {
    var g := GeneratePostContent(apiKey, templates, choices, response, today);
    var d := FormatDate(today);
    if g.strategy == TemplateBased {
      EndsWithDate(templates[choices.templateIndex].title + " - ", d);
    } else if g.strategy == DefaultContent {
      EndsWithDate("Tech Update - ", d);
    }
    ParseFormatDate(today);
  }

  lemma EndsWithDate(head: string, d: string)
    requires |d| == 10
    ensures |head + d| >= 10 && (head + d)[|head + d| - 10..] == d
  {
  }

  /** A failed model call never yields an AI post: the template or default path runs. */
  lemma FailedCallFallsBack(apiKey: Option<string>, templates: seq<Post>, choices: Choices, today: Date)
    requires ChoicesFit(choices, |templates|)
    requires ValidDate(today)
    ensures var g := GeneratePostContent(apiKey, templates, choices, None, today);
      && g.strategy != AiGenerated
      && (|templates| > 0 <==> g.strategy == TemplateBased)
  {
  }

  /** The AI path may give an empty title: a response whose first line is just "# ". */
  lemma HeadingOnlyResponseHasEmptyTitle(apiKey: Option<string>, guide: Option<Post>, topicIndex: nat, body: string)
    requires Truthy(apiKey)
    requires topicIndex < |TechTopics|
    ensures var r := GenerateAiContent(apiKey, guide, topicIndex, Some("# \n" + body));
      r.Some? && r.value.title == []
  {
    ResponseParser.BareMarkerGivesEmptyTitle(body, AiTopic(guide, topicIndex));
  }
}
