/**
 Which paths a gateway token may call (crates/app/cce-admission/src/context.rs), for every route of
 the API (crates/app/cce-api/src/paths.rs).
 */
module GatewayPaths {
  import opened Text
  import opened Query
  import opened Paths

  // ---------------------------------------------------------------- the text of a gateway path

  lemma {:induction false} ContainsCuts(s: string, p: string) returns (x: string, t: string)
    requires Contains(s, p)
    ensures s == x + p + t
  {
    if p <= s {
      x, t := "", s[|p|..];
    } else {
      x, t := ContainsCuts(s[1..], p);
      x := [s[0]] + x;
    }
  }

  ghost predicate HasBeforeQuery(path: string, segment: string)
  {
    exists p, t :: path == p + segment + t && '?' !in p
  }

  /** A gateway path holds `/ingest/`, with no question mark before it. */
  lemma GatewayPathIff(path: string)
    ensures IsGatewayPath(path) <==> HasBeforeQuery(path, "/ingest/")
  {
    hide Contains, Split;
    var clean, query := CutAtQuery(path);
    WithoutQueryOf(clean, query);
    if IsGatewayPath(path) {
      var x, t := ContainsCuts(clean, "/ingest/");
      assert path == x + "/ingest/" + (t + query);
      assert forall c :: c in x ==> c in clean;
    }
    if HasBeforeQuery(path, "/ingest/") {
      var p, t :| path == p + "/ingest/" + t && '?' !in p;
      var head := p + "/ingest/";
      PrefixBeforeQuery(clean, query, head, t);
      ContainsAt(p, "/ingest/", clean[|head|..]);
    }
  }

  lemma PrefixBeforeQuery(clean: string, query: string, head: string, t: string)
    requires clean + query == head + t && '?' !in head && '?' !in clean && (query == "" || query[0] == '?')
    ensures |head| <= |clean| && clean == head + clean[|head|..]
  {
    var path := clean + query;
    assert forall i :: 0 <= i < |head| ==> path[i] == (head + t)[i] == head[i] && path[i] != '?';
    assert query != "" ==> path[|clean|] == '?';
    assert |head| <= |clean|;
    assert forall i :: 0 <= i < |head| ==> clean[i] == path[i] == head[i];
  }

  // ---------------------------------------------------------------- routes as segments

  /** The path whose segments these are. */
  function PathOf(segments: seq<string>): string
  {
    if segments == [] then "" else ['/'] + segments[0] + PathOf(segments[1..])
  }

  predicate WithoutSlash(segments: seq<string>) { forall i :: 0 <= i < |segments| ==> '/' !in segments[i] }

  lemma {:induction false} ContainsSkips(s: string, rest: string, p: string)
    requires '/' !in s && p != "" && p[0] == '/'
    ensures Contains(s + rest, p) <==> Contains(rest, p)
  {
    if s == "" {
      assert s + rest == rest;
    } else {
      assert (s + rest)[1..] == s[1..] + rest && (s + rest)[0] == s[0];
      ContainsSkips(s[1..], rest, p);
    }
  }

  /** Up to its first slash a text is one segment. */
  lemma SegmentEnds(s: string, rest: string, w: string, more: string)
    requires '/' !in s && '/' !in w && StartsSegment(rest) && s + rest == w + ['/'] + more
    ensures s == w && rest != ""
  {
    hide Split;
    FirstPiece(s, rest);
    SplitCons(w, '/', more);
    assert '/' in s + rest by { assert (w + ['/'] + more)[|w|] == '/'; }
    assert rest == "" ==> s + rest == s;
  }

  lemma HeadIs(s: string, rest: string, w: string)
    requires '/' !in s && '/' !in w && StartsSegment(rest)
    ensures ['/'] + w + ['/'] <= ['/'] + s + rest <==> s == w && rest != ""
  {
    var p, path := ['/'] + w + ['/'], ['/'] + s + rest;
    if p <= path {
      var more := path[|p|..];
      assert path == p + more;
      assert s + rest == path[1..] == (p + more)[1..] == w + ['/'] + more;
      SegmentEnds(s, rest, w, more);
    }
    if s == w && rest != "" { assert path == p + rest[1..]; }
  }

  /** A path holds a segment between slashes exactly when one of its segments but the last is it. */
  lemma {:induction false} ContainsSegmentIff(segments: seq<string>, w: string)
    requires WithoutSlash(segments) && '/' !in w
    ensures Contains(PathOf(segments), ['/'] + w + ['/']) <==> exists i :: 0 <= i < |segments| - 1 && segments[i] == w
  {
    hide Contains;
    var p := ['/'] + w + ['/'];
    if segments == [] {
      EmptyContains(p);
    } else {
      var s, rest := segments[0], PathOf(segments[1..]);
      ContainsSegmentIff(segments[1..], w);
      PathStarts(segments[1..]);
      HeadIs(s, rest, w);
      assert PathOf(segments) == ['/'] + s + rest;
      ContainsFirst(['/'] + s + rest, p);
      assert (['/'] + s + rest)[1..] == s + rest;
      ContainsSkips(s, rest, p);
      if i :| 0 <= i < |segments| - 1 && segments[i] == w {
        if i > 0 { assert segments[1..][i - 1] == w; }
      }
      if i :| 0 <= i < |segments[1..]| - 1 && segments[1..][i] == w { assert segments[i + 1] == w; }
    }
  }

  lemma EmptyContains(p: string)
    requires p != ""
    ensures !Contains("", p)
  {}

  lemma ContainsFirst(s: string, p: string)
    requires s != ""
    ensures Contains(s, p) <==> p <= s || Contains(s[1..], p)
  {}

  lemma PathStarts(segments: seq<string>)
    ensures StartsSegment(PathOf(segments)) && (PathOf(segments) == "" <==> segments == [])
  {}

  // ---------------------------------------------------------------- expanding routes

  /** A pattern without a slash that begins a text does not reach past its first slash. */
  lemma PatternEnds(s: string, rest: string, pattern: string)
    requires '/' !in pattern && StartsSegment(rest) && pattern <= s + rest
    ensures pattern <= s
  {
    assert forall i :: 0 <= i < |pattern| ==> (s + rest)[i] == pattern[i] && pattern[i] != '/';
    assert rest != "" ==> (s + rest)[|s|] == '/';
    assert |pattern| <= |s|;
    assert forall i :: 0 <= i < |pattern| ==> pattern[i] == (s + rest)[i] == s[i];
  }

  lemma {:induction false} ReplaceAcross(s: string, rest: string, pattern: string, with: string)
    requires pattern != "" && '/' !in pattern && StartsSegment(rest)
    ensures ReplaceAll(s + rest, pattern, with) == ReplaceAll(s, pattern, with) + ReplaceAll(rest, pattern, with)
    decreases |s|
  {
    if s == "" {
      assert s + rest == rest;
    } else if pattern <= s + rest {
      PatternEnds(s, rest, pattern);
      assert (s + rest)[|pattern|..] == s[|pattern|..] + rest;
      ReplaceAcross(s[|pattern|..], rest, pattern, with);
    } else {
      assert !(pattern <= s);
      assert (s + rest)[1..] == s[1..] + rest;
      ReplaceAcross(s[1..], rest, pattern, with);
    }
  }

  /** A segment that expanding an id leaves alone: one without braces, or another parameter's. */
  predicate Plain(segment: string)
  {
    '{' !in segment || (|segment| >= 2 && segment[1] != 'p' && '{' !in segment[1..])
  }

  lemma PlainStays(segment: string, with: string)
    requires Plain(segment)
    ensures ReplaceAll(segment, PROJECT_ID_PLACEHOLDER, with) == segment
  {
    var s := if '{' !in segment then segment else segment[1..];
    ReplaceAllCopies(s, "", PROJECT_ID_PLACEHOLDER, with);
    assert s + "" == s;
    if '{' in segment {
      assert segment == [segment[0]] + s;
      assert !(PROJECT_ID_PLACEHOLDER <= segment) by { assert PROJECT_ID_PLACEHOLDER[1] == 'p'; }
    }
  }

  predicate AllPlain(segments: seq<string>) { forall i :: 0 <= i < |segments| ==> Plain(segments[i]) }

  lemma {:induction false} PlainPathStays(segments: seq<string>, with: string)
    requires AllPlain(segments)
    ensures ReplaceAll(PathOf(segments), PROJECT_ID_PLACEHOLDER, with) == PathOf(segments)
  {
    hide Plain;
    if segments != [] {
      var s, rest := segments[0], PathOf(segments[1..]);
      PlainPathStays(segments[1..], with);
      PathStarts(segments[1..]);
      assert PathOf(segments) == ['/'] + (s + rest);
      ReplaceSlash(s + rest, with);
      ReplaceAcross(s, rest, PROJECT_ID_PLACEHOLDER, with);
      PlainStays(s, with);
    }
  }

  lemma ReplaceSlash(t: string, with: string)
    ensures ReplaceAll(['/'] + t, PROJECT_ID_PLACEHOLDER, with) == ['/'] + ReplaceAll(t, PROJECT_ID_PLACEHOLDER, with)
  {
    ReplaceAllCopies(['/'], t, PROJECT_ID_PLACEHOLDER, with);
  }

  // ---------------------------------------------------------------- the routes of the API

  /** The segments of the templates, in the same order. */
  const TEMPLATE_SEGMENTS: seq<seq<string>> := [
    [], ["index"], ["dead-letters"], ["dead-letters", "retry"], ["dead-letters", "acknowledge"], ["reload"], ["config"],
    ["llm", "overview"], ["llm", "config"], ["llm", "test"],
    ["function", "{id}"], ["function", "{id}", "calls"], ["function", "{id}", "callers"], ["call-chain", "{id}"], ["call-path"],
    ["class", "{id}", "inheritance"], ["class", "{id}", "implementations"],
    ["relations", "classification", "stats"], ["relations", "classification", "{classification}"],
    ["graph", "ego"], ["graph", "path"], ["graph", "subgraph"], ["graph", "components"], ["graph", "export"], ["graph", "impact"],
    ["graph", "entity-impact"], ["graph", "cycles"], ["graph", "structural"], ["graph", "module"],
    ["watch", "start"], ["watch", "stop"], ["watch", "status"],
    ["ingest", "manifest"], ["ingest", "batch"], ["ingest", "commit"], ["ingest", "event"]
  ]

  lemma PathOfOne(a: string)
    ensures PathOf([a]) == ['/'] + a
  {
    assert [a][1..] == [] && PathOf([]) == "";
  }

  lemma PathOfTwo(a: string, b: string)
    ensures PathOf([a, b]) == ['/'] + a + (['/'] + b)
  {
    assert [a, b][1..] == [b];
    PathOfOne(b);
  }

  lemma PathOfThree(a: string, b: string, c: string)
    ensures PathOf([a, b, c]) == ['/'] + a + (['/'] + b + (['/'] + c))
  {
    assert [a, b, c][1..] == [b, c];
    PathOfTwo(b, c);
  }

  predicate SuffixIs(i: nat) { i < |TEMPLATE_SUFFIXES| == |TEMPLATE_SEGMENTS| && TEMPLATE_SUFFIXES[i] == PathOf(TEMPLATE_SEGMENTS[i]) }

  lemma ManagementSuffixes()
    ensures forall i :: 0 <= i < 4 ==> SuffixIs(i)
  {
    hide PathOf;
    PathOfNone();
    PathOfOne("index");
    PathOfOne("dead-letters");
    PathOfTwo("dead-letters", "retry");
  }

  lemma ReloadSuffixes()
    ensures forall i :: 4 <= i < 7 ==> SuffixIs(i)
  {
    hide PathOf;
    PathOfTwo("dead-letters", "acknowledge");
    PathOfOne("reload");
    PathOfOne("config");
  }

  lemma LlmSuffixes()
    ensures forall i :: 7 <= i < 10 ==> SuffixIs(i)
  {
    hide PathOf;
    PathOfTwo("llm", "overview");
    PathOfTwo("llm", "config");
    PathOfTwo("llm", "test");
  }

  lemma FunctionSuffixes()
    ensures forall i :: 10 <= i < 13 ==> SuffixIs(i)
  {
    hide PathOf;
    PathOfTwo("function", "{id}");
    PathOfThree("function", "{id}", "calls");
    PathOfThree("function", "{id}", "callers");
  }

  lemma CallSuffixes()
    ensures forall i :: 13 <= i < 15 ==> SuffixIs(i)
  {
    hide PathOf;
    PathOfTwo("call-chain", "{id}");
    PathOfOne("call-path");
  }

  lemma InheritanceSuffix()
    ensures SuffixIs(15)
  {
    hide PathOf;
    PathOfThree("class", "{id}", "inheritance");
    InheritanceTail();
    InheritanceWhole();
  }

  lemma InheritanceTail()
    ensures ['/'] + "{id}" + (['/'] + "inheritance") == "/{id}/inheritance"
  {}

  lemma InheritanceWhole()
    ensures ['/'] + "class" + "/{id}/inheritance" == "/class/{id}/inheritance"
  {}

  lemma ImplementationsSuffix()
    ensures SuffixIs(16)
  {
    hide PathOf;
    PathOfThree("class", "{id}", "implementations");
    ImplementationsTail();
    ImplementationsWhole();
  }

  lemma ImplementationsTail()
    ensures ['/'] + "{id}" + (['/'] + "implementations") == "/{id}/implementations"
  {}

  lemma ImplementationsWhole()
    ensures ['/'] + "class" + "/{id}/implementations" == "/class/{id}/implementations"
  {}

  lemma StatsSuffixes()
    ensures SuffixIs(17)
  {
    hide PathOf;
    PathOfThree("relations", "classification", "stats");
    StatsTail();
    StatsWhole();
  }

  lemma StatsTail()
    ensures ['/'] + "classification" + (['/'] + "stats") == "/classification/stats"
  {}

  lemma StatsWhole()
    ensures ['/'] + "relations" + "/classification/stats" == "/relations/classification/stats"
  {}

  lemma ClassificationSuffixes()
    ensures SuffixIs(18)
  {
    hide PathOf;
    PathOfThree("relations", "classification", "{classification}");
    ClassificationTail();
    ClassificationWhole();
  }

  lemma ClassificationTail()
    ensures ['/'] + "classification" + (['/'] + "{classification}") == "/classification/{classification}"
  {}

  lemma ClassificationWhole()
    ensures ['/'] + "relations" + "/classification/{classification}" == "/relations/classification/{classification}"
  {}

  lemma GraphSuffixes()
    ensures forall i :: 19 <= i < 23 ==> SuffixIs(i)
  {
    hide PathOf;
    PathOfTwo("graph", "ego");
    PathOfTwo("graph", "path");
    PathOfTwo("graph", "subgraph");
    PathOfTwo("graph", "components");
  }

  lemma ImpactSuffixes()
    ensures forall i :: 23 <= i < 26 ==> SuffixIs(i)
  {
    hide PathOf;
    PathOfTwo("graph", "export");
    PathOfTwo("graph", "impact");
    PathOfTwo("graph", "entity-impact");
  }

  lemma CycleSuffixes()
    ensures forall i :: 26 <= i < 29 ==> SuffixIs(i)
  {
    hide PathOf;
    PathOfTwo("graph", "cycles");
    PathOfTwo("graph", "structural");
    PathOfTwo("graph", "module");
  }

  lemma WatchSuffixes()
    ensures forall i :: 29 <= i < 32 ==> SuffixIs(i)
  {
    hide PathOf;
    PathOfTwo("watch", "start");
    PathOfTwo("watch", "stop");
    PathOfTwo("watch", "status");
  }

  lemma IngestSuffixes()
    ensures forall i :: 32 <= i < 36 ==> SuffixIs(i)
  {
    hide PathOf;
    PathOfTwo("ingest", "manifest");
    PathOfTwo("ingest", "batch");
    PathOfTwo("ingest", "commit");
    PathOfTwo("ingest", "event");
  }

  lemma PathOfNone()
    ensures PathOf([]) == ""
  {}

  /** The segments are those of the templates. */
  lemma SuffixesAreSegments(i: nat)
    requires i < |TEMPLATE_SUFFIXES|
    ensures SuffixIs(i)
  {
    hide SuffixIs, PathOf;
    ManagementSuffixes();
    ReloadSuffixes();
    LlmSuffixes();
    FunctionSuffixes();
    CallSuffixes();
    InheritanceSuffix();
    ImplementationsSuffix();
    StatsSuffixes();
    ClassificationSuffixes();
    GraphSuffixes();
    ImpactSuffixes();
    CycleSuffixes();
    WatchSuffixes();
    IngestSuffixes();
  }

  /** A segment of lower-case letters and hyphens, or another parameter's placeholder. */
  predicate Word(segment: string) { Lower(segment) || segment == "{id}" || segment == "{classification}" }

  predicate Lower(s: string) { forall i :: 0 <= i < |s| ==> 'a' <= s[i] <= 'z' || s[i] == '-' }

  lemma WordIsPlain(s: string)
    requires Word(s)
    ensures '/' !in s && '?' !in s && Plain(s)
  {}

  predicate Words(segments: seq<string>) { forall k :: 0 <= k < |segments| ==> Word(segments[k]) }

  lemma Words0()
    ensures Lower("acknowledge") && Lower("batch") && Lower("call-chain") && Lower("call-path") && Lower("callers")
  {}

  lemma Words1()
    ensures Lower("calls") && Lower("class") && Lower("classification") && Lower("commit") && Lower("components")
  {}

  lemma Words2()
    ensures Lower("config") && Lower("cycles") && Lower("dead-letters") && Lower("ego") && Lower("entity-impact")
  {}

  lemma Words3()
    ensures Lower("event") && Lower("export") && Lower("function") && Lower("graph") && Lower("impact")
  {}

  lemma Words4()
    ensures Lower("implementations") && Lower("index") && Lower("ingest") && Lower("inheritance") && Lower("llm")
  {}

  lemma Words5()
    ensures Lower("manifest") && Lower("module") && Lower("overview") && Lower("path") && Lower("relations")
  {}

  lemma Words6()
    ensures Lower("reload") && Lower("retry") && Lower("start") && Lower("stats") && Lower("status")
  {}

  lemma Words7()
    ensures Lower("stop") && Lower("structural") && Lower("subgraph") && Lower("test") && Lower("watch")
  {}

  lemma TemplateWords(i: nat)
    requires i < |TEMPLATE_SEGMENTS|
    ensures Words(TEMPLATE_SEGMENTS[i])
  {
    hide Lower;
    Words0();
    Words1();
    Words2();
    Words3();
    Words4();
    Words5();
    Words6();
    Words7();
  }

  /** The four ingest routes. */
  predicate IsIngestRoute(segments: seq<string>)
  {
    |segments| == 2 && segments[0] == "ingest" && segments[1] in ["manifest", "batch", "commit", "event"]
  }

  lemma IngestSegment(i: nat)
    requires i < |TEMPLATE_SEGMENTS|
    ensures IsIngestRoute(TEMPLATE_SEGMENTS[i]) <==> 32 <= i
    ensures (exists k :: 0 <= k < |TEMPLATE_SEGMENTS[i]| - 1 && TEMPLATE_SEGMENTS[i][k] == "ingest") <==> 32 <= i
  {}

  lemma {:induction false} PathOfAppend(a: seq<string>, b: seq<string>)
    ensures PathOf(a + b) == PathOf(a) + PathOf(b)
  {
    if a == [] {
      assert a + b == b && PathOf([]) == "";
    } else {
      assert (a + b)[1..] == a[1..] + b;
      PathOfAppend(a[1..], b);
    }
  }

  lemma {:induction false} PathIsFree(segments: seq<string>, c: char)
    requires c != '/' && forall k :: 0 <= k < |segments| ==> c !in segments[k]
    ensures c !in PathOf(segments)
  {
    if segments != [] { PathIsFree(segments[1..], c); }
  }

  lemma WordsAre(segments: seq<string>)
    requires Words(segments)
    ensures WithoutSlash(segments) && AllPlain(segments) && forall k :: 0 <= k < |segments| ==> '?' !in segments[k]
  {
    hide Word, Plain;
    forall k | 0 <= k < |segments| ensures '/' !in segments[k] && '?' !in segments[k] && Plain(segments[k]) { WordIsPlain(segments[k]); }
  }

  /** The segments of an expanded route. */
  function RouteSegments(i: nat, projectId: int): seq<string>
    requires i < |TEMPLATE_SEGMENTS|
  {
    ["api", "project", IntToString(projectId)] + TEMPLATE_SEGMENTS[i]
  }

  lemma RouteIsPath(i: nat, projectId: int)
    requires i < |TEMPLATE_SUFFIXES|
    ensures i < |TEMPLATE_SEGMENTS|
    ensures ExpandProject(PROJECT_DETAIL_TEMPLATE + TEMPLATE_SUFFIXES[i], projectId) == PathOf(RouteSegments(i, projectId))
  {
    hide IntToString, PathOf, ReplaceAll, Words;
    SuffixesAreSegments(i);
    var id, segments := IntToString(projectId), TEMPLATE_SEGMENTS[i];
    PathStarts(segments);
    ExpandedShape(PathOf(segments), projectId);
    TemplateWords(i);
    WordsAre(segments);
    PlainPathStays(segments, id);
    PathOfAppend(["api", "project", id], segments);
    PathOfThree("api", "project", id);
    assert "/api/project/" + id == ['/'] + "api" + (['/'] + "project" + (['/'] + id));
  }

  lemma RouteIsClean(i: nat, projectId: int)
    requires i < |TEMPLATE_SEGMENTS|
    ensures WithoutSlash(RouteSegments(i, projectId)) && '?' !in PathOf(RouteSegments(i, projectId))
  {
    hide IntToString, PathOf, Words, Plain;
    var head, segments := ["api", "project", IntToString(projectId)], TEMPLATE_SEGMENTS[i];
    CleanNumber(projectId);
    TemplateWords(i);
    WordsAre(segments);
    forall k | 0 <= k < |head + segments| ensures '/' !in (head + segments)[k] && '?' !in (head + segments)[k] {
      if k >= 3 { assert (head + segments)[k] == segments[k - 3]; }
    }
    PathIsFree(head + segments, '?');
  }

  lemma NumberIsNoWord(n: int)
    ensures IntToString(n) != "ingest"
  {
    hide NatToString;
    var digits := NatToString(if n < 0 then -n else n);
    assert IsDigit(digits[0]);
    assert IntToString(n)[0] == '-' || IsDigit(IntToString(n)[0]);
    assert "ingest"[0] == 'i';
  }

  lemma IngestInRoute(i: nat, projectId: int)
    requires i < |TEMPLATE_SEGMENTS|
    ensures var all := RouteSegments(i, projectId);
            (exists k :: 0 <= k < |all| - 1 && all[k] == "ingest") <==> IsIngestRoute(TEMPLATE_SEGMENTS[i])
  {
    hide IntToString;
    var all, segments := RouteSegments(i, projectId), TEMPLATE_SEGMENTS[i];
    NumberIsNoWord(projectId);
    IngestSegment(i);
    hide TEMPLATE_SEGMENTS;
    if k :| 0 <= k < |all| - 1 && all[k] == "ingest" {
      assert all[0] == "api" && all[1] == "project" && all[2] == IntToString(projectId);
      assert segments[k - 3] == "ingest";
    }
    if k :| 0 <= k < |segments| - 1 && segments[k] == "ingest" { assert all[k + 3] == "ingest"; }
  }

  /**
   Of all the project routes of the API, for any project and with any query, exactly the four ingest
   routes are gateway paths.
   */
  lemma RouteIsGatewayIff(i: nat, projectId: int, ps: Params)
    requires i < |TEMPLATE_SUFFIXES| == |TEMPLATE_SEGMENTS| && ValidParams(ps)
    ensures IsGatewayPath(Built(ExpandProject(PROJECT_DETAIL_TEMPLATE + TEMPLATE_SUFFIXES[i], projectId), ps))
            <==> IsIngestRoute(TEMPLATE_SEGMENTS[i])
  {
    hide IntToString, PathOf, Contains, RouteSegments, ExpandProject, IsIngestRoute, Pairs, Join;
    RouteIsPath(i, projectId);
    RouteIsClean(i, projectId);
    IngestInRoute(i, projectId);
    var path := PathOf(RouteSegments(i, projectId));
    var query := if ps == [] then "" else ['?'] + Join(Pairs(ps), '&');
    assert Built(path, ps) == path + query;
    WithoutQueryOf(path, query);
    ContainsSegmentIff(RouteSegments(i, projectId), "ingest");
    assert ['/'] + "ingest" + ['/'] == "/ingest/";
  }

  // ---------------------------------------------------------------- the project of any path

  predicate CleanSegments(segments: seq<string>)
  {
    forall k :: 0 <= k < |segments| ==> segments[k] != "" && '/' !in segments[k] && '?' !in segments[k]
  }

  lemma {:induction false} PathIsJoined(segments: seq<string>)
    requires segments != []
    ensures PathOf(segments) == "" + ['/'] + Join(segments, '/')
  {
    if |segments| == 1 {
      PathOfOne(segments[0]);
      assert segments == [segments[0]];
    } else {
      PathIsJoined(segments[1..]);
      assert PathOf(segments) == ['/'] + segments[0] + ("" + ['/'] + Join(segments[1..], '/'));
    }
  }

  lemma {:induction false} NonEmptyStays(segments: seq<string>)
    requires CleanSegments(segments)
    ensures NonEmpty(segments) == segments
  {
    if segments != [] {
      NonEmptyStays(segments[1..]);
      assert segments == [segments[0]] + segments[1..];
    }
  }

  /** From any path of whole segments, with any query, the reader gets the third one's number exactly behind `api` and `project`. */
  lemma PathReaderIs(segments: seq<string>, query: string)
    requires CleanSegments(segments) && (query == "" || query[0] == '?')
    ensures ProjectIdFromPath(PathOf(segments) + query) ==
            if |segments| >= 3 && segments[0] == "api" && segments[1] == "project" then ParseI64(segments[2]) else None
  {
    hide PathOf, Split, NonEmpty, ParseI64, Join;
    PathIsFree(segments, '?');
    WithoutQueryOf(PathOf(segments), query);
    if segments == [] {
      PathOfNone();
      EmptySplit();
    } else {
      PathIsJoined(segments);
      SplitCons("", '/', Join(segments, '/'));
      SplitJoin(segments, '/');
      NonEmptyStays(segments);
      NonEmptyCons("", segments);
    }
  }

  lemma EmptySplit()
    ensures NonEmpty(Split("", '/')) == []
  {
    assert SplitOnce("", '/') == None;
    assert Split("", '/') == [""] && [""][1..] == [];
  }
}
