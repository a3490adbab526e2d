/** `save_post_analytics`: one record per published post, appended to the `posts` list
    of `post_analytics.json`. The file is a parameter; its contents are the list only. */
module Analytics {
  import opened Options

  /** One entry of the `posts` list. The counters start at zero and nothing in the
      program ever raises them. */
  datatype PostRecord = PostRecord(title: string, createdAt: string, views: nat, comments: nat)

  /** The analytics file as the save finds it: absent, loaded with its `posts` list, or
      unusable (not JSON, no `posts` list, or not writable), in which case the error is
      logged and the file stays as it was. */
  datatype AnalyticsFile = NoFile | Stored(posts: seq<PostRecord>) | Unusable

  /** The record a save appends: the title and timestamp given, no views, no comments. */
  function FreshRecord(title: string, createdAt: string): (rec: PostRecord)
    ensures rec.views == 0 && rec.comments == 0
    ensures rec.title == title && rec.createdAt == createdAt
  {
    PostRecord(title, createdAt, 0, 0)
  }

  /** The list a save starts from: an absent file counts as an empty list. */
  function Existing(file: AnalyticsFile): seq<PostRecord>
    requires !file.Unusable?
  {
    if file.Stored? then file.posts else []
  }

  /** `save_post_analytics(title)` with `datetime.now().isoformat()` given as `createdAt`:
      exactly one record is added at the end, the earlier ones stay as they were, and a
      file that cannot be used is left alone. */
  function SavePostAnalytics(file: AnalyticsFile, title: string, createdAt: string): (r: AnalyticsFile)
    ensures file.Unusable? <==> r.Unusable?
    ensures file.Unusable? ==> r == file
    ensures !file.Unusable? ==>
      && r.Stored?
      && |r.posts| == |Existing(file)| + 1
      && r.posts[..|Existing(file)|] == Existing(file)
      && r.posts[|Existing(file)|] == PostRecord(title, createdAt, 0, 0)
  {
    match file
    case Unusable => Unusable
    case NoFile => Stored([FreshRecord(title, createdAt)])
    case Stored(posts) => Stored(posts + [FreshRecord(title, createdAt)])
  }

  /** One successful publication: the final title and the moment it was saved. */
  datatype Publication = Publication(title: string, createdAt: string)

  /** The file after saving each publication in turn. */
  function SaveAll(file: AnalyticsFile, pubs: seq<Publication>): AnalyticsFile
    decreases |pubs|
  {
    if pubs == [] then file
    else SaveAll(SavePostAnalytics(file, pubs[0].title, pubs[0].createdAt), pubs[1..])
  }

  /** The records a sequence of publications should leave behind, one per publication
      in publication order. */
  function RecordsOf(pubs: seq<Publication>): (recs: seq<PostRecord>)
    ensures |recs| == |pubs|
    decreases |pubs|
  {
    if pubs == [] then []
    else [FreshRecord(pubs[0].title, pubs[0].createdAt)] + RecordsOf(pubs[1..])
  }

  /** The i-th record is the i-th publication's, with zero views and comments. */
  lemma {:induction false} RecordsOfAt(pubs: seq<Publication>, i: nat)
    requires i < |pubs|
    ensures RecordsOf(pubs)[i] == PostRecord(pubs[i].title, pubs[i].createdAt, 0, 0)
    decreases i
  {
    if i > 0 {
      RecordsOfAt(pubs[1..], i - 1);
    }
  }

  /** One save seen through `Existing`: the new record goes after the old ones. */
  lemma SaveOne(file: AnalyticsFile, p: Publication)
    requires !file.Unusable?
    ensures SavePostAnalytics(file, p.title, p.createdAt).Stored?
    ensures Existing(SavePostAnalytics(file, p.title, p.createdAt))
         == Existing(file) + [FreshRecord(p.title, p.createdAt)]
  {
  }

  /** Saving in turn appends exactly the publications' records, in order, after what the
      file held; nothing already stored is changed or lost. */
  lemma {:induction false} SaveAllAppends(file: AnalyticsFile, pubs: seq<Publication>)
    requires !file.Unusable?
    ensures !SaveAll(file, pubs).Unusable?
    ensures pubs != [] ==> SaveAll(file, pubs).Stored?
    ensures Existing(SaveAll(file, pubs)) == Existing(file) + RecordsOf(pubs)
    decreases |pubs|
  {
    if pubs == [] {
      assert Existing(file) + RecordsOf(pubs) == Existing(file);
    } else {
      var next := SavePostAnalytics(file, pubs[0].title, pubs[0].createdAt);
      var rest := pubs[1..];
      var first := FreshRecord(pubs[0].title, pubs[0].createdAt);
      assert SaveAll(file, pubs) == SaveAll(next, rest);
      SaveOne(file, pubs[0]);
      SaveAllAppends(next, rest);
      calc {
        Existing(SaveAll(file, pubs));
        Existing(next) + RecordsOf(rest);
        (Existing(file) + [first]) + RecordsOf(rest);
        Existing(file) + ([first] + RecordsOf(rest));
      }
    }
  }

  /** Starting without a file, n publications leave exactly n records, the i-th one for
      the i-th publication and with zero views and comments. */
  lemma HistoryFromScratch(pubs: seq<Publication>)
    requires pubs != []
    ensures SaveAll(NoFile, pubs).Stored?
    ensures |SaveAll(NoFile, pubs).posts| == |pubs|
    ensures forall i | 0 <= i < |pubs| ::
      SaveAll(NoFile, pubs).posts[i] == PostRecord(pubs[i].title, pubs[i].createdAt, 0, 0)
  {
    SaveAllAppends(NoFile, pubs);
    assert SaveAll(NoFile, pubs).posts == [] + RecordsOf(pubs);
    forall i | 0 <= i < |pubs|
      ensures SaveAll(NoFile, pubs).posts[i] == PostRecord(pubs[i].title, pubs[i].createdAt, 0, 0)
    {
      RecordsOfAt(pubs, i);
    }
  }

  /** An unusable file absorbs every save. */
  lemma {:induction false} UnusableStaysUnusable(pubs: seq<Publication>)
    ensures SaveAll(Unusable, pubs) == Unusable
    decreases |pubs|
  {
    if pubs != [] {
      UnusableStaysUnusable(pubs[1..]);
    }
  }
}
