/** `automate_blog_post`: resolve the secrets, stop without them, generate the post,
    drive the admin site, retitle a likely duplicate and record the publication. The
    browser session is reduced to what the run's outcome depends on. */
module Automation {
  import opened Options
  import opened Dates
  import opened Posts
  import opened Credentials
  import opened ContentGenerator
  import opened DuplicateCheck
  import opened Analytics

  /** What the browser session delivered: the listing page's text for the duplicate
      check (`None` when reading it failed, which that check absorbs), and whether login,
      form filling and submission all completed without an exception. */
  datatype Session = Session(listing: Option<string>, submitted: bool)

  /** Everything outside the program that one run depends on. `version` is the draw of
      `random.randint(2, 99)`, `createdAt` the analytics timestamp. */
  datatype World = World(
    env: Secrets, config: Option<ConfigFile>,
    templates: seq<Post>, choices: Choices, response: Option<string>, today: Date,
    session: Session, version: nat,
    analytics: AnalyticsFile, createdAt: string)

  /** The draws and the date are ones the program can produce. */
  predicate WorldFits(w: World) {
    ChoicesFit(w.choices, |w.templates|) && ValidDate(w.today) && 2 <= w.version <= 99
  }

  /** How a run ends. Only `Published` returns `True`; the other two return `False`. */
  datatype RunOutcome =
    | MissingLogin
    | BrowserFailed(generated: Generated)
    | Published(generated: Generated, post: Post, analytics: AnalyticsFile)

  predicate Succeeded(r: RunOutcome) {
    r.Published?
  }

  /** The post generated from the resolved key. */
  function GeneratedFor(w: World): Generated
    requires WorldFits(w)
  {
    GeneratePostContent(LoadCredentials(w.env, w.config).apiKey, w.templates, w.choices,
                        w.response, w.today)
  }

  /** The end of a run whose browser session went through: the title gets " (vN)" when
      the listing flags it, and the post's record is saved under the final title. */
  function Publish(g: Generated, listing: Option<string>, version: nat,
                   analytics: AnalyticsFile, createdAt: string): (r: RunOutcome)
    requires 2 <= version <= 99
    ensures r.Published? && r.generated == g
    ensures r.post == g.post.(title := r.post.title)
    ensures Flagged(listing, g.post.title) ==>
      ParseVersioned(r.post.title) == Some(Versioned(g.post.title, version))
    ensures !Flagged(listing, g.post.title) ==> r.post.title == g.post.title
    ensures !analytics.Unusable? ==>
      && r.analytics.Stored?
      && Existing(r.analytics) == Existing(analytics) + [PostRecord(r.post.title, createdAt, 0, 0)]
    ensures analytics.Unusable? ==> r.analytics == Unusable
  {
    var flagged := Flagged(listing, g.post.title);
    var title := PublishTitle(g.post.title, flagged, version);
    VersionRoundTrip(g.post.title, version);
    var saved := SavePostAnalytics(analytics, title, createdAt);
    assert !analytics.Unusable? ==>
      Existing(saved) == Existing(analytics) + [PostRecord(title, createdAt, 0, 0)];
    Published(g, g.post.(title := title), saved)
  }

  /** `automate_blog_post`. */
  function AutomateBlogPost(w: World): (r: RunOutcome)
    requires WorldFits(w)
    // the run stops before generating anything exactly when the login is missing
    ensures r.MissingLogin? <==> !HasLogin(LoadCredentials(w.env, w.config))
    // with a login, success is decided by the browser session alone
    ensures !r.MissingLogin? ==> r.generated == GeneratedFor(w)
    ensures Succeeded(r) <==> HasLogin(LoadCredentials(w.env, w.config)) && w.session.submitted
    // a completed session publishes the generated post as `Publish` describes
    ensures r.Published? ==>
      r == Publish(GeneratedFor(w), w.session.listing, w.version, w.analytics, w.createdAt)
    // and exactly its record is appended to a usable analytics file
    ensures r.Published? && !w.analytics.Unusable? ==>
      && r.analytics.Stored?
      && Existing(r.analytics) == Existing(w.analytics) + [PostRecord(r.post.title, w.createdAt, 0, 0)]
    ensures r.Published? && w.analytics.Unusable? ==> r.analytics == Unusable
  {
    if !HasLogin(LoadCredentials(w.env, w.config)) then MissingLogin
    else if !w.session.submitted then BrowserFailed(GeneratedFor(w))
    else Publish(GeneratedFor(w), w.session.listing, w.version, w.analytics, w.createdAt)
  }

  /** Over a whole successful run: the published post is the generated one, with a
      " (vN)" that reads back as the drawn N on its title exactly when the listing flags
      the generated title. */
  lemma PublishedTitle(w: World)
    requires WorldFits(w)
    requires HasLogin(LoadCredentials(w.env, w.config)) && w.session.submitted
    ensures var r := AutomateBlogPost(w);
      var g := GeneratedFor(w).post;
      && r.post == g.(title := r.post.title)
      && (Flagged(w.session.listing, g.title) ==>
            ParseVersioned(r.post.title) == Some(Versioned(g.title, w.version)))
      && (!Flagged(w.session.listing, g.title) ==> r.post.title == g.title)
  {
  }

  /** Login from the config file alone: with nothing in the environment and a file that
      holds a non-empty email and password but no `google_ai` entry, the run proceeds with
      exactly those credentials and no key, so the post is never the AI one. */
  lemma ConfigOnlyLoginSkipsAi(w: World, email: string, password: string)
    requires WorldFits(w)
    requires w.env == Secrets(None, None, None)
    requires email != [] && password != []
    requires w.config == Some(ConfigFile(Some(email), Some(password), NoSection))
    ensures LoadCredentials(w.env, w.config) == Secrets(Some(email), Some(password), None)
    ensures !AutomateBlogPost(w).MissingLogin?
    ensures AutomateBlogPost(w).generated.strategy != AiGenerated
    ensures AutomateBlogPost(w).generated.strategy == TemplateBased <==> |w.templates| > 0
  {
  }

  /** An unreadable listing never retitles the post. */
  lemma UnreadListingKeepsTitle(w: World)
    requires WorldFits(w)
    requires w.session.listing.None?
    requires HasLogin(LoadCredentials(w.env, w.config)) && w.session.submitted
    ensures AutomateBlogPost(w).post == AutomateBlogPost(w).generated.post
  {
  }
}
