# Blog post automation, modelled in Dafny

This project models the deterministic core of `blog_automation.py`. The script publishes one tech
blog post per run to an admin site. It runs these steps in order:

1. Resolve the admin login and the Google AI key from the environment, falling back to `config.json`.
2. Stop when there is no login.
3. Produce the post: parse the Gemini model's markdown response, else use a template dated today,
   else use a fixed default post.
4. Log in with a browser and compare the title with the blog listing. A likely duplicate gets a
   " (vN)" suffix.
5. Submit the post and append a record to `post_analytics.json`.

Everything the script reads from outside becomes a parameter:

- the environment
- the config, template and analytics files
- the model's response text
- the random draws
- today's date
- what the browser session delivered

The modules follow the script:

| module | file | models |
|---|---|---|
| `Options` | options.dfy | `None`/value results and Python's `x or y` on strings |
| `Text` | text.dfy | the `str` operations the script uses (ASCII `lower`, `strip`, `split`, `split('\n')`, `replace`, `in`, `[:n]`) |
| `Decimal`, `Dates` | decimal.dfy, dates.dfy | `str(n)` and the `%Y-%m-%d` date stamp |
| `Posts` | posts.dfy | the post dictionary (title, excerpt, content, tags) |
| `Credentials` | credentials.dfy | `load_credentials` |
| `ResponseParser` | response_parser.dfy | the parsing half of `generate_ai_content` |
| `ContentGenerator` | content_generator.dfy | `generate_tech_topic`, `generate_ai_content`, `generate_post_content` |
| `DuplicateCheck`, `DuplicateScenario` | duplicate_check.dfy, duplicate_scenario.dfy | `check_existing_post` and the " (vN)" retitling |
| `Analytics` | analytics.dfy | `save_post_analytics` |
| `Automation` | automation.dfy | `automate_blog_post` |

Behaviour worth knowing:

- **AI titles can be empty.** A response whose first line is exactly `# ` gives an empty title.
  - `ResponseParser.BareMarkerGivesEmptyTitle` proves this.
  - `ContentGenerator.HeadingOnlyResponseHasEmptyTitle` proves it too.
- **Every `# ` in the heading line is removed.** The title is the first line with each `# `
  deleted, not only the leading marker: the heading `# C# Tips` gives the title `CTips`. A `#`
  that no space follows stays: `# Issue #42` gives `Issue #42`.
  - `ResponseParser.InnerMarkerRemoved` and `ResponseParser.IssueNumberKept` prove these.
  - `ResponseParser.TitleOfHeadingPieces` covers any heading made of pieces holding no `# `.
    `Text.RemoveAllAfter` states the general rule: the leftmost occurrence goes and the text
    before it is kept.
- **A four-digit year is a significant word.** The title "Kubernetes Production Deployment
  Guide 2024" has five significant words, because "2024" is longer than three characters. Against
  a listing holding the other four words, the ratio is 4/5, which is still above 0.7.
  - `DuplicateScenario.KubernetesGuideIsFlagged` proves the title is flagged.
- **The bold tags line keeps its marker.** A `**Tags:** a, b` line is split at its first `:`. The
  tag string therefore starts with `**`.
  - `ResponseParser.BoldTagValueKeepsMarker` proves this.
- **A bad `google_ai` entry only loses the key.** A `google_ai` entry that is not a JSON object
  raises only after email and password were already merged. The login values from the file are
  kept; only the key lookup is lost.

Some definitions only spell a step of the code and carry no contract of their own; their
properties are stated by the members in the table that use them: `ResponseParser.IsTagLine` and
`ResponseParser.TagValue` (through `TagLineColon`, `TagValueShape` and `FirstTagValue`),
`ResponseParser.FallbackTags` (through `FallbackTagsFields`), `ResponseParser.IsCandidate`
(through `ExcerptChosen`), `Text.Lower` and `Text.Contains` (through `PageCaseIgnored` and
`MorePageTextKeepsFlag`), `DuplicateCheck.LikelyDuplicate` and `DuplicateCheck.Flagged` (through
`CountMatches`, `CheckExistingPost`, `ThresholdIsStrict` and `Automation.Publish`) and
`Analytics.SaveAll` (through `SaveAllAppends`, `HistoryFromScratch` and `UnusableStaysUnusable`).

Two representation choices:

- The duplicate ratio `match_count / len(title_words) > 0.7` is written as the exact integer
  comparison `10 * matched > 7 * total`.
- `random.randint(2, 99)` is a parameter between 2 and 99.

## Model

| member | source | states |
|---|---|---|
| Options.Or | blog_automation.py:37-39 | `x or y` on optional strings: the left value when it is a non-empty string, else the right one; the result is truthy iff either side is |
| Credentials.LoadCredentials | blog_automation.py:25-43 | a truthy environment value is never overridden; with both login values set, or with no readable config object, the environment is returned as is; otherwise each falsy login value takes the file's field, and a falsy key takes `google_ai.api_key` (None without the section, unchanged when the section is not an object) |
| Credentials.LoginAvailable | blog_automation.py:33-38 | the resolved login is complete iff the environment's is, or the file was read and each of email and password is truthy in the environment or the file |
| Credentials.LoadCredentialsIdempotent | blog_automation.py:25-43 | resolving again against the same file changes nothing |
| ContentGenerator.TechTopic | blog_automation.py:54-78 | the drawn topic is one of the twenty fixed, non-empty topics |
| ContentGenerator.AiTopic | blog_automation.py:94 | the prompt topic is the guiding template's title when there is one, else a fixed topic |
| ContentGenerator.Guide | blog_automation.py:153-155 | a guiding template is drawn iff there are templates and the coin chose one, and it is one of the templates |
| ContentGenerator.GenerateAiContent | blog_automation.py:80-145 | a post exists iff the key is truthy and the model answered; it carries the whole response as content; it is titled by the prompt topic unless the response opens with "# ", and then by its first line with every "# " removed; the excerpt has at most 150 characters and the tags are non-empty |
| ContentGenerator.AiPostParts | blog_automation.py:117-134 | with a truthy key and an answer, the excerpt is empty iff no line after the first is a candidate, and otherwise is the chosen line stripped and cut to 150 characters; the tags are the first tag line's value, or the made-up tags for the prompt topic when that line is missing or its value empty |
| ResponseParser.ParseTitle | blog_automation.py:114-115 | a first line starting with "# " gives a title at least two characters shorter than that line; any other first line gives the topic |
| ResponseParser.TitleOfHeading | blog_automation.py:115 | a heading "# h" whose text holds no further "# " gives exactly h, whatever follows; a '#' not followed by a space is kept |
| ResponseParser.TitleOfHeadingPieces | blog_automation.py:114-115 | a heading made of pieces holding no "# ", joined by "# ", gives those pieces joined with nothing: every "# " in the line goes, not only the first |
| ResponseParser.InnerMarkerRemoved | blog_automation.py:114-115 | the heading "# C# Tips" gives the title "CTips" |
| ResponseParser.IssueNumberKept | blog_automation.py:114-115 | the heading "# Issue #42" gives the title "Issue #42": only the "# " markers go, not every '#' |
| ResponseParser.BareMarkerGivesEmptyTitle | blog_automation.py:113-115 | a response whose first line is just "# " yields the empty title |
| ResponseParser.FirstLineIsPrefix | blog_automation.py:114-115 | the first piece of `split('\n')` is a prefix of the text, and starts with "# " iff the text does |
| ResponseParser.TagLineColon | blog_automation.py:120-121 | in a tag line the first ':' sits right after "tags" (index 4, or 6 in the bold form) |
| ResponseParser.TagValueShape | blog_automation.py:121 | the tag value is the stripped rest of the line after "tags:" or after "**tags:" |
| ResponseParser.BoldTagValueKeepsMarker | blog_automation.py:120-121 | a "**Tags:**" line yields a tag value that still starts with "**" |
| ResponseParser.FirstTagValue | blog_automation.py:118-122 | there is no value iff no line is a tag line; otherwise the value is the one of the first tag line |
| ResponseParser.ParseTags | blog_automation.py:117-126 | the tags are never empty; they are the first tag line's value when that is non-empty, and the made-up tags otherwise |
| ResponseParser.FallbackTagsFields | blog_automation.py:125-126 | for a topic with at least one word and no ',' inside a word, the made-up tags split on ',' into the first three lower-cased topic words (or fewer) followed by "tech" and "blog" |
| ResponseParser.BlankTopicTags | blog_automation.py:125-126 | a topic with no words gives the tags ",tech,blog", whose first field is empty |
| ResponseParser.Excerpt | blog_automation.py:128-134 | the excerpt is at most 150 characters |
| ResponseParser.ExcerptChosen | blog_automation.py:128-134 | the excerpt is empty iff no line after the first is a non-blank line not starting with '#'; otherwise it is the line that loop settles on (the first one reaching 100 stripped characters, else the last such line), stripped and cut to 150 |
| ResponseParser.ChosenUnique | blog_automation.py:130-134 | at most one line supplies the excerpt |
| ResponseParser.ClipLong | blog_automation.py:132-133 | cutting to 150 characters keeps a line at 100 characters or more exactly when it was |
| ResponseParser.ScanExcerpt | blog_automation.py:128-134 | the loop with its overwrite-and-break computes that excerpt |
| ResponseParser.ParseResponse | blog_automation.py:113-141 | the content is the whole response; the excerpt is at most 150 characters; the tags are non-empty; the title is the topic unless the text starts with "# ", and otherwise is the first line with every "# " removed, shorter than the text |
| ContentGenerator.StampTemplate | blog_automation.py:166-168 | only the title changes, to the template's title followed by " - " and the date |
| ContentGenerator.DefaultPost | blog_automation.py:174-181 | the title is "Tech Update - " with the date; the content mentions the date; content and tags are non-empty |
| ContentGenerator.GeneratePostContent | blog_automation.py:147-181 | the AI post is used iff the key is truthy and the model answered, and it is then exactly the post `generate_ai_content` returned for the drawn guide; a template is used iff not and there are templates; the AI post is titled by the guiding template's title when templates exist and one is chosen as guide, else by the drawn topic, unless the answer opens with "# "; each other branch's post has that branch's shape |
| ContentGenerator.DateStampReadsBack | blog_automation.py:163-181 | off the AI path the title's last ten characters are today's date and read back as it |
| ContentGenerator.FailedCallFallsBack | blog_automation.py:157-164 | a failed model call never yields the AI post |
| ContentGenerator.HeadingOnlyResponseHasEmptyTitle | blog_automation.py:113-115 | the AI path may produce an empty title |
| Dates.FormatDate | blog_automation.py:167 | `%Y-%m-%d` gives ten characters, digits with dashes at positions 4 and 7 |
| Dates.ParseFormatDate | blog_automation.py:167 | the date stamp reads back as the date |
| DuplicateCheck.SignificantWords | blog_automation.py:209 | every significant word is longer than three characters and lower-case |
| DuplicateCheck.MatchedWords | blog_automation.py:212 | the matched words are among the significant ones |
| DuplicateCheck.CountMatches | blog_automation.py:212 | the count equals the number of significant words occurring in the page |
| DuplicateCheck.CheckExistingPost | blog_automation.py:201-223 | an unreadable page is never a duplicate; a title without significant words is never one; otherwise the title is flagged iff 10 x matched > 7 x significant |
| DuplicateCheck.ThresholdIsStrict | blog_automation.py:213-215 | with ten significant words, eight matches flag the title and seven do not |
| DuplicateCheck.PageCaseIgnored | blog_automation.py:210 | the page's letter case does not change the decision |
| DuplicateCheck.MorePageTextKeepsFlag | blog_automation.py:209-215 | a page containing a flagging page's text also flags the title |
| DuplicateScenario.KubernetesGuideIsFlagged | blog_automation.py:209-217 | "Kubernetes Production Deployment Guide 2024" is flagged by a listing holding "kubernetes production deployment guide" |
| DuplicateCheck.VersionSuffix | blog_automation.py:271 | the suffix " (vN)" is five or six characters long |
| DuplicateCheck.PublishTitle | blog_automation.py:269-271 | an unflagged title is kept; a flagged one is extended by the five or six suffix characters |
| DuplicateCheck.VersionRoundTrip | blog_automation.py:271 | a title suffixed with any N from 2 to 99 reads back as the original title and that N |
| DuplicateCheck.VersionedIsSuffixed | blog_automation.py:271 | whatever reads as versioned is exactly its base followed by " (v", `str` of its N and ")", and is the published title for that N when N is from 2 to 99 |
| DuplicateCheck.PaddedVersionRejected | blog_automation.py:271 | a zero-padded " (v07)" is not a suffix `str` could have written |
| Analytics.FreshRecord | blog_automation.py:345-350 | the new record carries the title and timestamp with zero views and zero comments |
| Analytics.SavePostAnalytics | blog_automation.py:332-361 | an unusable file is left alone; otherwise the list grows by one record, the earlier records are unchanged, and the last one is the new record |
| Analytics.SaveAllAppends | blog_automation.py:338-352 | saving publications in turn appends exactly their records, in order, after what the file held |
| Analytics.HistoryFromScratch | blog_automation.py:338-352 | without a file, n publications leave n records, the i-th for the i-th publication with zero counters |
| Analytics.UnusableStaysUnusable | blog_automation.py:360-361 | an unusable file stays as it is through every save |
| Automation.AutomateBlogPost | blog_automation.py:225-330 | the run stops before generating exactly when the resolved login is missing; otherwise the post is the one generated from the resolved key; the run succeeds iff the session submits, and then publishes as `Publish` states, a usable analytics file gaining exactly the published post's record |
| Automation.PublishedTitle | blog_automation.py:268-271 | over a whole successful run the published post is the generated one, with a " (vN)" reading back as the drawn N on its title exactly when the listing flags it |
| Automation.Publish | blog_automation.py:268-318 | after a completed session the post keeps every field but the title; the title gains a " (vN)" that reads back as the drawn N exactly when the listing flags it; a usable analytics file gains that post's record under the final title |
| Automation.ConfigOnlyLoginSkipsAi | blog_automation.py:227-233 | with an empty environment and a config file holding only a non-empty email and password, the run proceeds with exactly those credentials and no key, passes the gate and never uses the AI post |
| Automation.UnreadListingKeepsTitle | blog_automation.py:269-271 | an unreadable listing never changes the published post |
| Text.Strip | blog_automation.py:121 | the result has no whitespace at either end, and it is empty iff the input is all whitespace |
| Text.StripIsSlice | blog_automation.py:121 | the result is the input with a run of leading and a run of trailing whitespace removed |
| Text.Split | blog_automation.py:114 | there is at least one piece, no piece holds the separator, and joining the pieces with it restores the text |
| Text.SplitOfJoin | blog_automation.py:114 | splitting a join of separator-free pieces gives the pieces back |
| Text.Words | blog_automation.py:126 | the words are non-empty and whitespace-free; there are none iff the text is all whitespace |
| Text.WordsOfJoin | blog_automation.py:209 | splitting words joined by single spaces gives the words back |
| Text.WordsKeepText | blog_automation.py:209 | the words of any text, run together, are exactly its non-whitespace characters in order: `split()` loses nothing but whitespace, whatever the runs of spaces or tabs |
| Text.WordsAtSpace | blog_automation.py:209 | `split()` cuts at every whitespace character: the words of a text with one in it are the words before it followed by the words after it |
| Text.RemoveAll | blog_automation.py:115 | removing "# " never lengthens the text and changes it iff the marker occurs |
| Text.RemoveAllAfter | blog_automation.py:115 | when no occurrence of the marker starts inside a stretch of text, the marker right after it is removed, the stretch is kept as it is, and the rest is processed in the same way: `replace` deletes the leftmost occurrence first |
| Text.RemoveAllOfJoin | blog_automation.py:115 | pieces in which no marker can start, joined by the marker, lose every occurrence of it and keep everything else; for "# " that is any pieces holding no "# " |
| Text.Clip | blog_automation.py:132 | `[:n]` gives a prefix of at most n characters: the whole text when it fits, exactly n characters otherwise |
| Decimal.NatToString | blog_automation.py:271 | `str(n)` is a non-empty run of digits without a leading zero |
| Decimal.ParseNatToString | blog_automation.py:271 | `str(n)` reads back as n |
| Decimal.ShortDigitsAreStr | blog_automation.py:271 | one digit, or two digits without a leading zero, are what `str` writes for the number they denote |

## Left out

- Browser automation: Playwright, the admin URLs, form selectors, timeouts, screenshots and the
  login-detection branch (`"blog" in page.url`). A session is reduced to its listing text and
  whether submission completed.
- The Gemini call (configure, model choice, prompt text). The response text, or `None` for any
  exception, is a parameter.
- `load_content_templates`: the templates are a parameter. An unreadable file is the empty list.
  Each template is assumed to hold all four fields, so the `KeyError` paths on a template lacking
  `title` and the falsiness of an empty template dict are not modelled.
- JSON and file I/O, logging, `argparse`, `load_dotenv` and the `logs` directory.
- `random.choice` and `random.randint` are index parameters; `datetime.now()` is a date parameter.
  `created_at` is an opaque string parameter, so its ISO format is not modelled.
- Dates.FormatDate: requires a four-digit year (1000..9999), since `%Y` pads smaller years
  differently across platforms.
- Config values that are JSON but not strings (numbers, lists) are not modelled; an absent field
  or `null` is `None`.
- Text: `lower`, `strip` and `split` are modelled on ASCII only. Unicode case mapping and Unicode
  whitespace are not modelled.
- DuplicateCheck.CheckExistingPost: the floating-point division `match_count / len(title_words)`
  is replaced by exact cross-multiplication. Both agree wherever the quotient is rounded correctly
  at the 0.7 boundary.
- Analytics.SavePostAnalytics: only the `posts` list of the analytics file is modelled, not other
  top-level keys. The timing of a failed write that has already truncated the file is not modelled.
- Automation.AutomateBlogPost: an exception from `browser.close()` after the record was saved
  (line 321) would return `False` with the record kept. This is not modelled, and a submitted
  session counts as a success.
- ResponseParser.FallbackTagsFields: the fields are not stated for a topic word holding a ','.
  `",".join` then adds no boundary of its own, so "Tips, Tricks" gives the fields "tips", "",
  "tricks", "tech", "blog"; only the joined string, as `FallbackTags` spells it, covers that case.
- `setup.py` packaging is not part of this model.
