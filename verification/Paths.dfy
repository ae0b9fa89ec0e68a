/**
 Route paths: the templates every client expands (crates/app/cce-api/src/paths.rs) and the
 admission layer's readers of a path (crates/app/cce-admission/src/context.rs).
 */
module Paths {
  import opened Text
  import opened Query

  const PROJECT_ID_PLACEHOLDER: string := "{project_id}"
  const PROJECT_DETAIL_TEMPLATE: string := "/api/project/" + PROJECT_ID_PLACEHOLDER

  /** What the project-scoped templates add to `PROJECT_DETAIL_TEMPLATE`. */
  const TEMPLATE_SUFFIXES: seq<string> := [
    "", "/index", "/dead-letters", "/dead-letters/retry", "/dead-letters/acknowledge", "/reload", "/config",
    "/llm/overview", "/llm/config", "/llm/test",
    "/function/{id}", "/function/{id}/calls", "/function/{id}/callers", "/call-chain/{id}", "/call-path",
    "/class/{id}/inheritance", "/class/{id}/implementations",
    "/relations/classification/stats", "/relations/classification/{classification}",
    "/graph/ego", "/graph/path", "/graph/subgraph", "/graph/components", "/graph/export", "/graph/impact",
    "/graph/entity-impact", "/graph/cycles", "/graph/structural", "/graph/module",
    "/watch/start", "/watch/stop", "/watch/status",
    "/ingest/manifest", "/ingest/batch", "/ingest/commit", "/ingest/event"
  ]

  /** `str::replace`: every non-overlapping occurrence, from the left. */
  function ReplaceAll(s: string, pattern: string, with: string): string
    requires pattern != ""
    decreases |s|
  {
    if s == "" then ""
    else if pattern <= s then with + ReplaceAll(s[|pattern|..], pattern, with)
    else [s[0]] + ReplaceAll(s[1..], pattern, with)
  }

  /** `expand_project`. */
  function ExpandProject(template: string, projectId: int): string
  {
    ReplaceAll(template, PROJECT_ID_PLACEHOLDER, IntToString(projectId))
  }

  lemma {:induction false} ReplaceAllCopies(x: string, t: string, pattern: string, with: string)
    requires pattern != "" && pattern[0] !in x
    ensures ReplaceAll(x + t, pattern, with) == x + ReplaceAll(t, pattern, with)
  {
    if x == "" {
      assert x + t == t;
    } else {
      assert (x + t)[1..] == x[1..] + t;
      ReplaceAllCopies(x[1..], t, pattern, with);
    }
  }

  /** Text before the first slash of an expanded suffix: none. */
  predicate StartsSegment(s: string) { s == "" || s[0] == '/' }

  lemma ReplaceHead(pattern: string, t: string, with: string)
    requires pattern != ""
    ensures ReplaceAll(pattern + t, pattern, with) == with + ReplaceAll(t, pattern, with)
  {
    assert (pattern + t)[|pattern|..] == t;
  }

  lemma ReplaceKeepsStart(s: string, pattern: string, with: string)
    requires StartsSegment(s) && pattern != "" && pattern[0] != '/'
    ensures StartsSegment(ReplaceAll(s, pattern, with))
  {}

  lemma ReplaceBetween(start: string, pattern: string, suffix: string, with: string)
    requires pattern != "" && pattern[0] !in start && pattern[0] != '/' && StartsSegment(suffix)
    ensures var rest := ReplaceAll(suffix, pattern, with);
            StartsSegment(rest) && ReplaceAll(start + pattern + suffix, pattern, with) == start + with + rest
  {
    hide ReplaceAll;
    var rest := ReplaceAll(suffix, pattern, with);
    assert start + pattern + suffix == start + (pattern + suffix);
    ReplaceAllCopies(start, pattern + suffix, pattern, with);
    ReplaceHead(pattern, suffix, with);
    ReplaceKeepsStart(suffix, pattern, with);
    assert start + (with + rest) == start + with + rest;
  }

  lemma ExpandedShape(suffix: string, projectId: int)
    requires StartsSegment(suffix)
    ensures var rest := ReplaceAll(suffix, PROJECT_ID_PLACEHOLDER, IntToString(projectId));
            && StartsSegment(rest)
            && ExpandProject(PROJECT_DETAIL_TEMPLATE + suffix, projectId) == "/api/project/" + IntToString(projectId) + rest
  {
    hide ReplaceAll, IntToString;
    ReplaceBetween("/api/project/", PROJECT_ID_PLACEHOLDER, suffix, IntToString(projectId));
  }

  lemma SuffixesStartSegments()
    ensures forall i :: 0 <= i < |TEMPLATE_SUFFIXES| ==> StartsSegment(TEMPLATE_SUFFIXES[i])
  {}

  // ---------------------------------------------------------------- readers

  function NonEmpty(parts: seq<string>): seq<string>
  {
    if parts == [] then [] else (if parts[0] == "" then [] else [parts[0]]) + NonEmpty(parts[1..])
  }

  /** `path.split('?').next()`. */
  function WithoutQuery(path: string): string { Split(path, '?')[0] }

  /** `project_id_from_path`. */
  function ProjectIdFromPath(path: string): Option<int>
  {
    var segments := NonEmpty(Split(WithoutQuery(path), '/'));
    if |segments| < 1 || segments[0] != "api" then None
    else if |segments| < 2 || segments[1] != "project" then None
    else if |segments| < 3 then None
    else ParseI64(segments[2])
  }

  lemma WithoutQueryOf(p: string, t: string)
    requires '?' !in p && (t == "" || t[0] == '?')
    ensures WithoutQuery(p + t) == p
  {
    if t == "" {
      assert p + t == p;
    } else {
      assert p + t == p + ['?'] + t[1..];
      SplitCons(p, '?', t[1..]);
    }
  }

  lemma CleanNumber(n: int)
    ensures IntToString(n) != "" && '/' !in IntToString(n) && '?' !in IntToString(n)
  {
    var digits := NatToString(if n < 0 then -n else n);
    assert forall i :: 0 <= i < |digits| ==> IsDigit(digits[i]);
  }

  lemma FirstPiece(segment: string, rest: string)
    requires '/' !in segment && StartsSegment(rest)
    ensures Split(segment + rest, '/')[0] == segment
  {
    if rest == "" {
      assert segment + rest == segment;
    } else {
      assert segment + rest == segment + ['/'] + rest[1..];
      SplitCons(segment, '/', rest[1..]);
    }
  }

  lemma NonEmptyCons(p: string, parts: seq<string>)
    ensures NonEmpty([p] + parts) == if p == "" then NonEmpty(parts) else [p] + NonEmpty(parts)
  {
    assert ([p] + parts)[1..] == parts;
  }

  /** The third segment of any path that begins as the project routes do. */
  lemma ThirdSegment(segment: string, rest: string)
    requires '/' !in segment && segment != "" && StartsSegment(rest)
    ensures var s := NonEmpty(Split("/api/project/" + segment + rest, '/'));
            |s| >= 3 && s[0] == "api" && s[1] == "project" && s[2] == segment
  {
    hide Split, NonEmpty;
    var s3 := segment + rest;
    var s2 := "project" + ['/'] + s3;
    var s1 := "api" + ['/'] + s2;
    assert "/api/project/" + segment + rest == "" + ['/'] + s1;
    SplitCons("", '/', s1);
    SplitCons("api", '/', s2);
    SplitCons("project", '/', s3);
    FirstPiece(segment, rest);
    var p3 := Split(s3, '/');
    assert p3 == [segment] + p3[1..];
    NonEmptyCons(segment, p3[1..]);
    NonEmptyCons("project", p3);
    NonEmptyCons("api", ["project"] + p3);
    NonEmptyCons("", ["api"] + (["project"] + p3));
  }

  /** What `t` leaves before its first `?`, and from there on. */
  lemma CutAtQuery(t: string) returns (p: string, q: string)
    ensures t == p + q && '?' !in p && (q == "" || q[0] == '?')
  {
    match SplitOnce(t, '?') {
      case None => p, q := t, "";
      case Some((a, b)) => p, q := a, ['?'] + b;
    }
  }

  /**
   From a project-scoped template expanded with any id, with any query appended, the
   admission layer reads that id when it is an `i64`.
   */
  lemma PathReaderRecoversId(suffix: string, projectId: int, ps: Params)
    requires StartsSegment(suffix) && ValidParams(ps)
    ensures ProjectIdFromPath(Built(ExpandProject(PROJECT_DETAIL_TEMPLATE + suffix, projectId), ps))
            == if I64_MIN <= projectId <= I64_MAX then Some(projectId) else None
  {
    hide ReplaceAll, Split, NonEmpty, IntToString, Join, Pairs, ParseI64;
    ExpandedShape(suffix, projectId);
    var id := IntToString(projectId);
    var expanded := ExpandProject(PROJECT_DETAIL_TEMPLATE + suffix, projectId);
    var rest := ReplaceAll(suffix, PROJECT_ID_PLACEHOLDER, id);
    var url := Built(expanded, ps);
    var query := if ps == [] then "" else ['?'] + Join(Pairs(ps), '&');
    assert url == "/api/project/" + id + (rest + query);
    var p, q := CutAtQuery(rest + query);
    CleanNumber(projectId);
    assert StartsSegment(p) by {
      if p != "" { assert p[0] == (rest + query)[0]; }
    }
    var clean := "/api/project/" + id + p;
    assert url == clean + q;
    WithoutQueryOf(clean, q);
    ThirdSegment(id, p);
    ParseI64OfInt(projectId);
  }

  /** Every template of the API is read back, for every `i64` and every query. */
  lemma EveryTemplateRecoversId(i: nat, projectId: int, ps: Params)
    requires i < |TEMPLATE_SUFFIXES| && I64_MIN <= projectId <= I64_MAX && ValidParams(ps)
    ensures ProjectIdFromPath(Built(ExpandProject(PROJECT_DETAIL_TEMPLATE + TEMPLATE_SUFFIXES[i], projectId), ps)) == Some(projectId)
  {
    SuffixesStartSegments();
    PathReaderRecoversId(TEMPLATE_SUFFIXES[i], projectId, ps);
  }

  /** `is_gateway_path`: the path, without its query, holds `/ingest/`. */
  predicate IsGatewayPath(path: string)
  {
    Contains(WithoutQuery(path), "/ingest/")
  }

  predicate Contains(s: string, p: string)
  {
    p <= s || (s != "" && Contains(s[1..], p))
  }

  lemma {:induction false} ContainsAt(x: string, p: string, t: string)
    ensures Contains(x + p + t, p)
  {
    if x == "" {
      assert x + p + t == p + t;
    } else {
      assert (x + p + t)[1..] == x[1..] + p + t;
      ContainsAt(x[1..], p, t);
    }
  }

  /** Every ingest route, for any project and with any query, is a gateway path. */
  lemma IngestRoutesAreGatewayPaths(entry: string, projectId: int, ps: Params)
    requires '?' !in entry && '{' !in entry && ValidParams(ps)
    ensures IsGatewayPath(Built(ExpandProject(PROJECT_DETAIL_TEMPLATE + "/ingest/" + entry, projectId), ps))
  {
    var suffix, id := "/ingest/" + entry, IntToString(projectId);
    ExpandedShape(suffix, projectId);
    assert PROJECT_DETAIL_TEMPLATE + "/ingest/" + entry == PROJECT_DETAIL_TEMPLATE + suffix;
    ReplaceAllCopies(suffix, "", PROJECT_ID_PLACEHOLDER, id);
    assert suffix + "" == suffix;
    var path := "/api/project/" + id + suffix;
    var query := if ps == [] then "" else ['?'] + Join(Pairs(ps), '&');
    assert Built(path, ps) == path + query;
    CleanNumber(projectId);
    WithoutQueryOf(path, query);
    assert path == ("/api/project/" + id) + "/ingest/" + entry;
    ContainsAt("/api/project/" + id, "/ingest/", entry);
  }

  /** `is_public_path`. */
  predicate IsPublicPath(path: string, prefixes: seq<string>)
  {
    exists i :: 0 <= i < |prefixes| && (path == prefixes[i] || prefixes[i] + "/" <= path)
  }
}
