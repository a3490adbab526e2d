/** The parsing half of `generate_ai_content`: the response text of the generative
    model is split into lines and a title, a tag string and an excerpt are read off it. */
module ResponseParser {
  import opened Options
  import opened Text
  import opened Posts

  /** Excerpts are cut to this many characters. */
  const ExcerptLimit: nat := 150
  /** The scan for an excerpt stops at the first candidate at least this long. */
  const LongEnough: nat := 100

  // ---------------------------------------------------------------- title

  /** The first line, with every "# " removed, when it starts with "# "; the topic
      otherwise (the model gave no heading). */
  function ParseTitle(lines: seq<string>, topic: string): (title: string)
    ensures |lines| > 0 && StartsWith(lines[0], "# ") ==> |title| <= |lines[0]| - 2
    ensures !(|lines| > 0 && StartsWith(lines[0], "# ")) ==> title == topic
  {
    if |lines| > 0 && StartsWith(lines[0], "# ") then
      assert lines[0] == "# " + lines[0][2..];
      RemovePrefixedMarker(lines[0][2..]);
      RemoveAll(lines[0], "# ")
    else
      topic
  }

  lemma RemovePrefixedMarker(h: string)
    ensures RemoveAll("# " + h, "# ") == RemoveAll(h, "# ")
  {
    var s := "# " + h;
    assert StartsWith(s, "# ");
    assert s[2..] == h;
  }

  /** A heading line "# h" whose text holds no further "# " yields exactly `h` as the
      title, whatever follows it; a '#' not followed by a space stays. */
  lemma TitleOfHeading(h: string, rest: seq<string>, topic: string)
    requires !Contains(h, "# ")
    ensures ParseTitle(["# " + h] + rest, topic) == h
  {
    RemovePrefixedMarker(h);
    assert (["# " + h] + rest)[0] == "# " + h;
  }

  /** Every "# " of the heading goes, not just the leading one: a heading made of
      marker-free pieces separated by markers gives the pieces run together. */
  lemma TitleOfHeadingPieces(ws: seq<string>, rest: seq<string>, topic: string)
    requires |ws| >= 2 && ws[0] == []
    requires forall i | 0 <= i < |ws| :: !Contains(ws[i], "# ")
    ensures ParseTitle([Join(ws, "# ")] + rest, topic) == Join(ws, [])
  {
    var line := Join(ws, "# ");
    assert line == [] + "# " + Join(ws[1..], "# ");
    assert StartsWith(line, "# ");
    assert "# "[1..] == " ";
    RemoveAllOfJoin(ws, "# ");
    assert ([line] + rest)[0] == line;
  }

  /** A heading "# C# Tips" becomes the title "CTips": the "# " inside "C# Tips" is
      removed along with the leading marker. */
  lemma InnerMarkerRemoved(rest: seq<string>, topic: string)
    ensures ParseTitle(["# C# Tips"] + rest, topic) == "CTips"
  {
    var ws := ["", "C", "Tips"];
    CSharpPieces(ws);
    forall i | 0 <= i < |ws|
      ensures !Contains(ws[i], "# ")
    {
      AbsentLead(ws[i], "# ");
    }
    TitleOfHeadingPieces(ws, rest, topic);
  }

  /** A heading "# Issue #42" keeps its inner '#', which no space follows. */
  lemma IssueNumberKept(rest: seq<string>, topic: string)
    ensures ParseTitle(["# Issue #42"] + rest, topic) == "Issue #42"
  {
    var h := "Issue #42";
    HashesNotMarkers(h);
    assert "# " + h == "# Issue #42";
    TitleOfHeading(h, rest, topic);
  }

  /** A text in which every '#' is followed by something other than a space holds no
      "# ". */
  lemma HashesNotMarkers(h: string)
    requires forall i | 0 <= i < |h| - 1 :: h[i] == '#' ==> h[i + 1] != ' '
    ensures !Contains(h, "# ")
  {
    forall i | 0 <= i <= |h| - 2
      ensures !OccursAt(h, "# ", i)
    {
      assert h[i..i + 2][0] == h[i] && h[i..i + 2][1] == h[i + 1];
    }
  }

  lemma CSharpPieces(ws: seq<string>)
    requires ws == ["", "C", "Tips"]
    ensures Join(ws, "# ") == "# C# Tips" && Join(ws, []) == "CTips"
    ensures forall i | 0 <= i < |ws| :: '#' !in ws[i]
  {
    assert ws[1..] == ["C", "Tips"];
    JoinPair("C", "Tips", "# ");
    JoinPair("C", "Tips", []);
    CSharpSpelled("C", "Tips");
  }

  lemma CSharpSpelled(c: string, tips: string)
    requires c == "C" && tips == "Tips"
    ensures [] + "# " + (c + "# " + tips) == "# C# Tips"
    ensures [] + [] + (c + [] + tips) == "CTips"
  {
  }

  // ---------------------------------------------------------------- tags

  /** A line whose lower-cased form starts with "tags:" or "**tags:**". */
  predicate IsTagLine(line: string) {
    StartsWith(Lower(line), "tags:") || StartsWith(Lower(line), "**tags:**")
  }

  /** A tag line has its first ':' right after the word "tags". */
  lemma TagLineColon(line: string)
    requires IsTagLine(line)
    ensures ':' in line
    ensures StartsWith(Lower(line), "tags:") ==> FirstIndex(line, ':') == 4
    ensures !StartsWith(Lower(line), "tags:") ==> FirstIndex(line, ':') == 6
  {
    var l := Lower(line);
    if StartsWith(l, "tags:") {
      assert l[4] == ':' && l[..4] == "tags";
      assert line[4] == ':';
      forall k | 0 <= k < 4
        ensures line[k] != ':'
      {
        assert l[k] == LowerChar(line[k]) && l[k] == l[..4][k];
      }
      assert ':' !in line[..4];
    } else {
      assert l[6] == ':' && l[..6] == "**tags";
      assert line[6] == ':';
      forall k | 0 <= k < 6
        ensures line[k] != ':'
      {
        assert l[k] == LowerChar(line[k]) && l[k] == l[..6][k];
      }
      assert ':' !in line[..6];
    }
  }

  /** `line.split(":", 1)[1].strip()`. */
  function TagValue(line: string): string
    requires IsTagLine(line)
  {
    TagLineColon(line);
    Strip(line[FirstIndex(line, ':') + 1..])
  }

  /** Line `i` is the first tag line. */
  predicate FirstTagLineAt(lines: seq<string>, i: int) {
    && 0 <= i < |lines|
    && IsTagLine(lines[i])
    && forall j | 0 <= j < i :: !IsTagLine(lines[j])
  }

  /** The value of the first tag line, if there is one; the scan stops there even when
      that value is empty. */
  function FirstTagValue(lines: seq<string>): (r: Option<string>)
    ensures r.None? <==> forall i | 0 <= i < |lines| :: !IsTagLine(lines[i])
    ensures r.Some? ==> exists i :: FirstTagLineAt(lines, i) && r.value == TagValue(lines[i])
  {
    if |lines| == 0 then None
    else if IsTagLine(lines[0]) then
      assert FirstTagLineAt(lines, 0);
      Some(TagValue(lines[0]))
    else
      var r := FirstTagValue(lines[1..]);
      assert forall i | 1 <= i < |lines| :: lines[i] == lines[1..][i - 1];
      ShiftFirstTagLine(lines, r);
      r
  }

  lemma ShiftFirstTagLine(lines: seq<string>, r: Option<string>)
    requires |lines| > 0 && !IsTagLine(lines[0])
    requires r.Some? ==> exists i :: FirstTagLineAt(lines[1..], i) && r.value == TagValue(lines[1..][i])
    ensures r.Some? ==> exists i :: FirstTagLineAt(lines, i) && r.value == TagValue(lines[i])
  {
    if r.Some? {
      var i :| FirstTagLineAt(lines[1..], i) && r.value == TagValue(lines[1..][i]);
      ShiftFirstTagLineAt(lines, i);
      assert lines[i + 1] == lines[1..][i];
    }
  }

  /** The first tag line after a first line that is not one is the first tag line of all. */
  lemma ShiftFirstTagLineAt(lines: seq<string>, i: int)
    requires |lines| > 0 && !IsTagLine(lines[0])
    requires FirstTagLineAt(lines[1..], i)
    ensures FirstTagLineAt(lines, i + 1)
  {
    forall j | 0 < j < |lines|
      ensures lines[j] == lines[1..][j - 1]
    {
    }
  }

  /** Tags made up when the response has none: the first three lower-cased words of the
      topic joined by ',' and followed by ",tech,blog". */
  function FallbackTags(topic: string): string {
    Join(Take(Words(Lower(topic)), 3), ",") + ",tech,blog"
  }

  /** The value of the first tag line, or the fallback when that value is empty or there
      is no tag line. Never empty. */
  function ParseTags(lines: seq<string>, topic: string): (tags: string)
    ensures tags != []
    ensures (exists i :: FirstTagLineAt(lines, i) && TagValue(lines[i]) != []) ==>
      exists i :: FirstTagLineAt(lines, i) && tags == TagValue(lines[i])
    ensures (forall i :: FirstTagLineAt(lines, i) ==> TagValue(lines[i]) == []) ==>
      tags == FallbackTags(topic)
  {
    var found := FirstTagValue(lines);
    if found.Some? && found.value != [] then found.value else FallbackTags(topic)
  }

  /** Which characters the tag value starts from: right after "tags:", or right after
      "**tags:" for the bold form, so the closing "**" is kept. */
  lemma TagValueShape(line: string)
    requires IsTagLine(line)
    ensures StartsWith(Lower(line), "tags:") ==> TagValue(line) == Strip(line[5..])
    ensures !StartsWith(Lower(line), "tags:") ==> TagValue(line) == Strip(line[7..])
  {
    TagLineColon(line);
  }

  /** A bold tag line "**Tags:** a, b" yields a tag string that still begins with the
      closing "**" of the bold marker. */
  lemma BoldTagValueKeepsMarker(line: string)
    requires StartsWith(Lower(line), "**tags:**")
    ensures StartsWith(TagValue(line), "**")
  {
    BoldTagLine(line);
    TagValueShape(line);
    StripKeepsLeadingPair(line[7..]);
  }

  lemma BoldTagLine(line: string)
    requires StartsWith(Lower(line), "**tags:**")
    ensures !StartsWith(Lower(line), "tags:")
    ensures |line| >= 9 && line[7..9] == "**"
  {
    var l := Lower(line);
    var marker := l[..9];
    assert marker == "**tags:**";
    assert l[0] == marker[0] == '*';
    assert l[7] == marker[7] == '*';
    assert l[8] == marker[8] == '*';
    assert LowerChar(line[7]) == '*' && LowerChar(line[8]) == '*';
  }

  /** Strip leaves two leading non-space characters in place. */
  lemma StripKeepsLeadingPair(s: string)
    requires |s| >= 2 && s[..2] == "**"
    ensures StartsWith(Strip(s), "**")
  {
    assert s[0] == s[..2][0] == '*' && s[1] == s[..2][1] == '*';
    var r := Strip(s);
    StripIsSlice(s);
    var i :| StrippedAt(s, r, i);
    assert !AllSpace(s[..1]);
    assert i == 0;
    assert !AllSpace(s[1..2]);
    assert |r| >= 2;
    assert r[..2] == s[..2];
  }

  /** When the tags are made up, the three topic words and "tech", "blog" are exactly
      the comma-separated fields of the result, provided the topic's words contain no
      comma and there is at least one of them. */
  lemma FallbackTagsFields(topic: string)
    requires Words(Lower(topic)) != []
    requires forall w | w in Words(Lower(topic)) :: ',' !in w
    ensures Split(FallbackTags(topic), ',') == Take(Words(Lower(topic)), 3) + ["tech", "blog"]
  {
    var ws := Take(Words(Lower(topic)), 3);
    var all := ws + ["tech", "blog"];
    FallbackTagsJoined(ws);
    forall i | 0 <= i < |all|
      ensures ',' !in all[i]
    {
      if i < |ws| {
        assert all[i] in Words(Lower(topic));
      }
    }
    SplitOfJoin(all, ',');
  }

  /** A topic without words makes tags with an empty first field: `",".join([])` is the
      empty string, so the result is ",tech,blog". */
  lemma BlankTopicTags(topic: string)
    requires Words(Lower(topic)) == []
    ensures FallbackTags(topic) == ",tech,blog"
    ensures Split(FallbackTags(topic), ',') == ["", "tech", "blog"]
  {
    var all := ["", "tech", "blog"];
    assert Take(Words(Lower(topic)), 3) == [];
    BlankTopicJoined(all);
    BlankTopicFields(all);
    SplitOfJoin(all, ',');
  }

  lemma BlankTopicJoined(all: seq<string>)
    requires all == ["", "tech", "blog"]
    ensures Join(all, ",") == ",tech,blog"
  {
    var rest := all[1..];
    assert rest == ["tech", "blog"];
    assert Join(all, ",") == all[0] + "," + Join(rest, ",");
    JoinPair("tech", "blog", ",");
    TechBlogSpelled();
  }

  lemma BlankTopicFields(all: seq<string>)
    requires all == ["", "tech", "blog"]
    ensures forall i | 0 <= i < |all| :: ',' !in all[i]
  {
    forall i | 0 <= i < |all|
      ensures ',' !in all[i]
    {
      if i == 1 {
        assert all[1] == "tech";
      } else if i == 2 {
        assert all[2] == "blog";
      }
    }
  }

  /** The made-up tags are the chosen words and "tech", "blog" joined with commas. */
  lemma FallbackTagsJoined(ws: seq<string>)
    requires |ws| >= 1
    ensures Join(ws, ",") + ",tech,blog" == Join(ws + ["tech", "blog"], ",")
  {
    var pair := "tech" + "," + "blog";
    JoinAppendPair(ws, "tech", "blog", ",");
    TechBlogSpelled();
    AppendAssoc(Join(ws, ","), ",", pair);
  }

  lemma TechBlogSpelled()
    ensures "," + ("tech" + "," + "blog") == ",tech,blog"
  {
  }

  lemma AppendAssoc(x: string, y: string, z: string)
    ensures x + y + z == x + (y + z)
  {
  }

  /** Appending two more parts adds each after its own separator. */
  lemma JoinAppendPair(ws: seq<string>, a: string, b: string, sep: string)
    requires |ws| >= 1
    ensures Join(ws + [a, b], sep) == Join(ws, sep) + sep + (a + sep + b)
  {
    JoinAppend(ws, [a, b], sep);
    JoinPair(a, b, sep);
  }

  lemma JoinPair(a: string, b: string, sep: string)
    ensures Join([a, b], sep) == a + sep + b
  {
    assert [a, b][1..] == [b];
  }

  /** Joining two non-empty lists puts one separator between their joins. */
  lemma {:induction false} JoinAppend(a: seq<string>, b: seq<string>, sep: string)
    requires |a| >= 1 && |b| >= 1
    ensures Join(a + b, sep) == Join(a, sep) + sep + Join(b, sep)
    decreases |a|
  {
    if |a| > 1 {
      assert (a + b)[1..] == a[1..] + b;
      JoinAppend(a[1..], b, sep);
    } else {
      assert (a + b)[1..] == b;
    }
  }

  // ---------------------------------------------------------------- excerpt

  /** A line that may supply the excerpt: not blank and not starting with '#' (the test
      is on the unstripped line). */
  predicate IsCandidate(line: string) {
    Strip(line) != [] && !StartsWith(line, "#")
  }

  /** A candidate whose stripped text is long enough to end the scan. */
  predicate IsLong(line: string) {
    IsCandidate(line) && |Strip(line)| >= LongEnough
  }

  /** Line `i` is the one the excerpt comes from: the first long candidate, or, when no
      candidate is long, the last candidate. */
  predicate ChosenAt(body: seq<string>, i: int) {
    && 0 <= i < |body|
    && IsCandidate(body[i])
    && if IsLong(body[i]) then
         forall j | 0 <= j < i :: !IsLong(body[j])
       else
         && (forall j | 0 <= j < |body| :: !IsLong(body[j]))
         && (forall j | i < j < |body| :: !IsCandidate(body[j]))
  }

  /** At most one line is chosen. */
  lemma ChosenUnique(body: seq<string>, i: int, k: int)
    requires ChosenAt(body, i) && ChosenAt(body, k)
    ensures i == k
  {
  }

  /** The excerpt of the lines after the first, scanned from the front: a long line
      ends the scan, otherwise the later lines are scanned first and this line is used
      only when they supply nothing. */
  function Excerpt(body: seq<string>): (r: string)
    ensures |r| <= ExcerptLimit
  {
    if |body| == 0 then
      []
    else if IsLong(body[0]) then
      Clip(Strip(body[0]), ExcerptLimit)
    else
      var rest := Excerpt(body[1..]);
      if rest == [] && IsCandidate(body[0]) then Clip(Strip(body[0]), ExcerptLimit)
      else rest
  }

  /** The excerpt is empty exactly when no line is a candidate; otherwise it is the chosen
      line, stripped and cut to 150 characters. */
  lemma {:induction false} ExcerptChosen(body: seq<string>)
    ensures Excerpt(body) == [] <==> forall i | 0 <= i < |body| :: !IsCandidate(body[i])
    ensures Excerpt(body) != [] ==>
      exists i :: ChosenAt(body, i) && Excerpt(body) == Clip(Strip(body[i]), ExcerptLimit)
    decreases |body|
  {
    if |body| > 0 {
      if IsLong(body[0]) {
        ClipOfCandidate(body[0]);
        assert ChosenAt(body, 0);
      } else {
        var rest := Excerpt(body[1..]);
        ExcerptChosen(body[1..]);
        NoCandidateShift(body);
        if rest == [] && IsCandidate(body[0]) {
          ClipOfCandidate(body[0]);
          assert ChosenAt(body, 0);
        } else {
          ShiftChosen(body, rest);
        }
      }
    }
  }

  /** A candidate line gives a non-empty excerpt. */
  lemma ClipOfCandidate(line: string)
    requires IsCandidate(line)
    ensures Clip(Strip(line), ExcerptLimit) != []
  {
  }

  /** No line is a candidate iff neither the first nor any later one is. */
  lemma NoCandidateShift(body: seq<string>)
    requires |body| > 0
    ensures (forall i | 0 <= i < |body| :: !IsCandidate(body[i])) <==>
      !IsCandidate(body[0]) && forall i | 0 <= i < |body[1..]| :: !IsCandidate(body[1..][i])
  {
    forall j | 0 < j < |body|
      ensures body[j] == body[1..][j - 1]
    {
    }
  }

  lemma ShiftChosen(body: seq<string>, rest: string)
    requires |body| > 0 && !IsLong(body[0])
    requires rest != [] ==>
      exists i :: ChosenAt(body[1..], i) && rest == Clip(Strip(body[1..][i]), ExcerptLimit)
    ensures rest != [] ==> exists i :: ChosenAt(body, i) && rest == Clip(Strip(body[i]), ExcerptLimit)
  {
    if rest != [] {
      var i :| ChosenAt(body[1..], i) && rest == Clip(Strip(body[1..][i]), ExcerptLimit);
      ShiftChosenAt(body, i);
      assert body[i + 1] == body[1..][i];
    }
  }

  /** The line chosen among the lines after a first line that is not long is still the
      chosen one once that first line is put back. */
  lemma ShiftChosenAt(body: seq<string>, i: int)
    requires |body| > 0 && !IsLong(body[0])
    requires ChosenAt(body[1..], i)
    ensures ChosenAt(body, i + 1)
  {
    var b := body[1..];
    assert body[i + 1] == b[i];
    forall j | 0 < j < |body|
      ensures body[j] == b[j - 1]
    {
    }
    if !IsLong(b[i]) {
      assert forall j | 0 <= j < |body| :: !IsLong(body[j]);
    }
  }

  /** `s[:150]` reaches 100 characters exactly when `s` does. */
  lemma ClipLong(s: string)
    ensures |Clip(s, ExcerptLimit)| >= LongEnough <==> |s| >= LongEnough
  {
  }

  /** One step of `Excerpt` on the lines from `i` on. */
  lemma ExcerptStep(body: seq<string>, i: nat)
    requires i < |body|
    ensures Excerpt(body[i..]) ==
      if IsLong(body[i]) then Clip(Strip(body[i]), ExcerptLimit)
      else if Excerpt(body[i + 1..]) == [] && IsCandidate(body[i]) then Clip(Strip(body[i]), ExcerptLimit)
      else Excerpt(body[i + 1..])
  {
    assert body[i..][1..] == body[i + 1..];
  }

  /** What the scan ends with once it reaches line `i` holding `current`: the excerpt of
      the remaining lines if they supply one, `current` otherwise. */
  function Resume(body: seq<string>, i: nat, current: string): string
    requires i <= |body|
  {
    var rest := Excerpt(body[i..]);
    if rest == [] then current else rest
  }

  /** Resuming at a candidate line: a long one ends the scan with its text, any other
      one becomes the value carried on; a line that is no candidate changes nothing. */
  lemma ResumeStep(body: seq<string>, i: nat, current: string)
    requires i < |body|
    ensures IsLong(body[i]) ==> Resume(body, i, current) == Clip(Strip(body[i]), ExcerptLimit)
    ensures IsCandidate(body[i]) && !IsLong(body[i]) ==>
      Resume(body, i, current) == Resume(body, i + 1, Clip(Strip(body[i]), ExcerptLimit))
    ensures !IsCandidate(body[i]) ==> Resume(body, i, current) == Resume(body, i + 1, current)
  {
    ExcerptStep(body, i);
    if IsCandidate(body[i]) {
      ClipOfCandidate(body[i]);
    }
  }

  /** The excerpt loop as the script writes it: every candidate overwrites the excerpt,
      and the loop breaks at the first one of 100 characters or more. It computes
      `Excerpt`. */
  method ScanExcerpt(body: seq<string>) returns (excerpt: string)
    ensures excerpt == Excerpt(body)
  {
    excerpt := [];
    var i := 0;
    assert body[0..] == body;
    while i < |body|
      invariant 0 <= i <= |body|
      invariant Resume(body, i, excerpt) == Excerpt(body)
    {
      var line := body[i];
      ResumeStep(body, i, excerpt);
      var stripped := Strip(line);
      if stripped != [] && !StartsWith(line, "#") {
        excerpt := Clip(stripped, ExcerptLimit);
        ClipLong(stripped);
        if |excerpt| >= LongEnough {
          break;
        }
      }
      i := i + 1;
    }
  }

  // ---------------------------------------------------------------- whole response

  /** The post built from a response: the title, the excerpt of the lines after the
      first, the full text as content, and the tags. */
  function ParseResponse(text: string, topic: string): (p: Post)
    ensures p.content == text
    ensures |p.excerpt| <= ExcerptLimit
    ensures p.tags != []
    ensures !StartsWith(text, "# ") ==> p.title == topic
    ensures StartsWith(text, "# ") ==> |p.title| < |text|
    // a heading loses every "# " it holds
    ensures StartsWith(text, "# ") ==> p.title == RemoveAll(Split(text, '\n')[0], "# ")
  {
    var lines := Split(text, '\n');
    FirstLineIsPrefix(text);
    Post(ParseTitle(lines, topic), Excerpt(lines[1..]), text, ParseTags(lines, topic))
  }

  /** A response whose first line is the bare marker "# " gives an empty title. */
  lemma BareMarkerGivesEmptyTitle(body: string, topic: string)
    ensures ParseResponse("# \n" + body, topic).title == []
  {
    var text := "# \n" + body;
    assert text == "# " + ['\n'] + body;
    SplitFirst("# ", body, '\n');
    var first := Split(text, '\n')[0];
    assert StartsWith(first, "# ");
    assert first[2..] == [];
    RemovePrefixedMarker([]);
  }

  /** The first line of `text` is a prefix of it, and "# " starts one iff it starts the
      other. */
  lemma FirstLineIsPrefix(text: string)
    ensures StartsWith(text, Split(text, '\n')[0])
    ensures StartsWith(Split(text, '\n')[0], "# ") <==> StartsWith(text, "# ")
  {
    var l := Split(text, '\n')[0];
    FirstPieceIsPrefix(text, '\n');
    if StartsWith(text, "# ") && |l| < |text| {
      assert text[|l|] !in "# ";
    }
  }
}
