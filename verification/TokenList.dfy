/**
 The token list of the environment and the validation of the admission configuration
 (crates/app/cce-admission/src/config.rs, crates/app/cce-admission/src/token.rs).
 */
module TokenList {
  import opened Text

  datatype TokenEntry = TokenEntry(token: string, projects: seq<int>, quotaBytes: Option<nat>)

  datatype Reason = EmptyToken | BadQuota | ZeroQuota | BadProject | NoEntries

  datatype Result<+T> = Ok(value: T) | Err(reason: Reason)

  // ---------------------------------------------------------------- sort and dedup

  predicate Ascending(s: seq<int>) { forall i, j :: 0 <= i < j < |s| ==> s[i] < s[j] }

  ghost predicate SameElements(a: seq<int>, b: seq<int>) { forall x :: x in a <==> x in b }

  function Insert(x: int, s: seq<int>): seq<int>
  {
    if s == [] then [x]
    else if x < s[0] then [x] + s
    else if x == s[0] then s
    else [s[0]] + Insert(x, s[1..])
  }

  /** `sort_unstable` followed by `dedup`. */
  function SortDedup(s: seq<int>): seq<int>
  {
    if s == [] then [] else Insert(s[0], SortDedup(s[1..]))
  }

  lemma {:induction false} InsertSorts(x: int, s: seq<int>)
    requires Ascending(s)
    ensures Ascending(Insert(x, s))
    ensures forall y :: y in Insert(x, s) <==> y == x || y in s
  {
    if s != [] && x > s[0] {
      InsertSorts(x, s[1..]);
      var t := Insert(x, s[1..]);
      forall i | 0 <= i < |t| ensures s[0] < t[i] { assert t[i] in t; }
      assert forall y :: y in s <==> y == s[0] || y in s[1..];
    }
  }

  lemma {:induction false} SortDedupSorts(s: seq<int>)
    ensures Ascending(SortDedup(s)) && SameElements(SortDedup(s), s)
  {
    if s != [] {
      SortDedupSorts(s[1..]);
      InsertSorts(s[0], SortDedup(s[1..]));
      assert forall y :: y in s <==> y == s[0] || y in s[1..];
    }
  }

  lemma {:induction false} SortDedupKeepsAscending(s: seq<int>)
    requires Ascending(s)
    ensures SortDedup(s) == s
  {
    if s != [] {
      SortDedupKeepsAscending(s[1..]);
      assert s == [s[0]] + s[1..];
    }
  }

  // ---------------------------------------------------------------- the parser

  /** `split(c).map(trim).filter(non-empty)`. */
  function Pieces(parts: seq<string>): seq<string>
  {
    if parts == [] then []
    else (if Trim(parts[0]) == "" then [] else [Trim(parts[0])]) + Pieces(parts[1..])
  }

  /** The values so far, followed by those still to come. */
  function Followed<T>(done: seq<T>, rest: Result<seq<T>>): Result<seq<T>>
  {
    match rest
    case Err(e) => Err(e)
    case Ok(more) => Ok(done + more)
  }

  lemma FollowedBy<T>(done: seq<T>, x: T, rest: Result<seq<T>>)
    ensures Followed([], rest) == rest
    ensures Followed(done, Followed([x], rest)) == Followed(done + [x], rest)
  {
    if rest.Ok? {
      assert [] + rest.value == rest.value;
      assert done + ([x] + rest.value) == done + [x] + rest.value;
    }
  }

  function ParseIds(parts: seq<string>): Result<seq<int>>
  {
    if parts == [] then Ok([])
    else
      match ParseI64(parts[0])
      case None => Err(BadProject)
      case Some(id) => Followed([id], ParseIds(parts[1..]))
  }

  function ParseQuota(part: string): Result<Option<nat>>
  {
    match ParseU64(Trim(part))
    case None => Err(BadQuota)
    case Some(q) => if q == 0 then Err(ZeroQuota) else Ok(Some(q))
  }

  /** The quota, and the project part, of what follows the `@`. */
  function ParseScope(scope: string): Result<(Option<nat>, string)>
  {
    match SplitOnce(scope, ':')
    case None => Ok((None, scope))
    case Some((projects, quota)) =>
      match ParseQuota(quota)
      case Err(e) => Err(e)
      case Ok(q) => Ok((q, projects))
  }

  function ParseScoped(token: string, scope: string): Result<TokenEntry>
  {
    match ParseScope(scope)
    case Err(e) => Err(e)
    case Ok((quota, projects)) =>
      match ParseIds(Pieces(Split(projects, ',')))
      case Err(e) => Err(e)
      case Ok(ids) => Ok(TokenEntry(token, SortDedup(ids), quota))
  }

  function ParseItem(item: string): Result<TokenEntry>
  {
    match SplitOnce(item, '@')
    case None => if item == "" then Err(EmptyToken) else Ok(TokenEntry(item, [], None))
    case Some((token, scope)) => if Trim(token) == "" then Err(EmptyToken) else ParseScoped(Trim(token), scope)
  }

  function ParseItems(items: seq<string>): Result<seq<TokenEntry>>
  {
    if items == [] then Ok([])
    else
      match ParseItem(items[0])
      case Err(e) => Err(e)
      case Ok(e) => Followed([e], ParseItems(items[1..]))
  }

  function Parse(raw: string): Result<seq<TokenEntry>>
  {
    match ParseItems(Pieces(Split(raw, ';')))
    case Err(e) => Err(e)
    case Ok(entries) => if entries == [] then Err(NoEntries) else Ok(entries)
  }

  /** The pieces from the `i`-th part on. */
  lemma PiecesFrom(parts: seq<string>, i: nat)
    requires i < |parts|
    ensures var later := Pieces(parts[i + 1..]);
            Pieces(parts[i..]) == if Trim(parts[i]) == "" then later else [Trim(parts[i])] + later
  {
    assert parts[i..][1..] == parts[i + 1..];
  }

  lemma ParseIdsCons(p: string, parts: seq<string>)
    ensures ParseIds([p] + parts) == if ParseI64(p).None? then Err(BadProject) else Followed([ParseI64(p).value], ParseIds(parts))
  {
    assert ([p] + parts)[1..] == parts;
  }

  lemma ParseItemsCons(p: string, parts: seq<string>)
    ensures ParseItems([p] + parts) == if ParseItem(p).Err? then Err(ParseItem(p).reason) else Followed([ParseItem(p).value], ParseItems(parts))
  {
    assert ([p] + parts)[1..] == parts;
  }

  /** The id loop of `parse_token_env`. */
  method ParseProjects(scope: string) returns (r: Result<seq<int>>)
    ensures r == ParseIds(Pieces(Split(scope, ',')))
  {
    hide Trim, ParseI64, Split;
    var projects: seq<int> := [];
    var parts := Split(scope, ',');
    assert parts[0..] == parts;
    FollowedBy([], 0, ParseIds(Pieces(parts)));
    for i := 0 to |parts|
      invariant Followed(projects, ParseIds(Pieces(parts[i..]))) == ParseIds(Pieces(parts))
    {
      PiecesFrom(parts, i);
      var part := Trim(parts[i]);
      if part == "" { continue; }
      ghost var later := Pieces(parts[i + 1..]);
      ParseIdsCons(part, later);
      match ParseI64(part) {
        case None => return Err(BadProject);
        case Some(id) =>
          FollowedBy(projects, id, ParseIds(later));
          projects := projects + [id];
      }
    }
    assert projects + [] == projects;
    return Ok(projects);
  }

  /** One item of the list. */
  method ParseTokenItem(item: string) returns (r: Result<TokenEntry>)
    ensures r == ParseItem(item)
  {
    var token, scope := item, None;
    match SplitOnce(item, '@') {
      case Some((t, s)) => token, scope := Trim(t), Some(s);
      case None =>
    }
    if token == "" { return Err(EmptyToken); }
    if scope.None? { return Ok(TokenEntry(token, [], None)); }
    var quota, projectsPart := None, scope.value;
    match SplitOnce(scope.value, ':') {
      case Some((p, q)) =>
        projectsPart := p;
        match ParseU64(Trim(q)) {
          case None => return Err(BadQuota);
          case Some(n) =>
            if n == 0 { return Err(ZeroQuota); }
            quota := Some(n);
        }
      case None =>
    }
    var projects := ParseProjects(projectsPart);
    if projects.Err? { return Err(projects.reason); }
    return Ok(TokenEntry(token, SortDedup(projects.value), quota));
  }

  /** `parse_token_env`. */
  method ParseTokenEnv(raw: string) returns (r: Result<seq<TokenEntry>>)
    ensures r == Parse(raw)
  {
    hide Trim, ParseItem, Split;
    var entries: seq<TokenEntry> := [];
    var parts := Split(raw, ';');
    assert parts[0..] == parts;
    FollowedBy([], TokenEntry("", [], None), ParseItems(Pieces(parts)));
    for i := 0 to |parts|
      invariant Followed(entries, ParseItems(Pieces(parts[i..]))) == ParseItems(Pieces(parts))
    {
      PiecesFrom(parts, i);
      var item := Trim(parts[i]);
      if item == "" { continue; }
      ghost var later := Pieces(parts[i + 1..]);
      ParseItemsCons(item, later);
      var parsed := ParseTokenItem(item);
      if parsed.Err? { return Err(parsed.reason); }
      FollowedBy(entries, parsed.value, ParseItems(later));
      entries := entries + [parsed.value];
    }
    assert entries + [] == entries;
    if entries == [] { return Err(NoEntries); }
    return Ok(entries);
  }

  // ---------------------------------------------------------------- the printer

  function PrintIds(ids: seq<int>): (r: seq<string>)
    ensures |r| == |ids|
  {
    if ids == [] then [] else [IntToString(ids[0])] + PrintIds(ids[1..])
  }

  lemma {:induction false} PrintIdsAt(ids: seq<int>, i: nat)
    requires i < |ids|
    ensures PrintIds(ids)[i] == IntToString(ids[i])
  {
    hide IntToString;
    if i > 0 { PrintIdsAt(ids[1..], i - 1); }
  }

  function PrintScope(e: TokenEntry): string
  {
    Join(PrintIds(e.projects), ',') + (match e.quotaBytes case None => "" case Some(q) => ":" + NatToString(q))
  }

  /** `token@1,2:quota`, `token@1,2`, `token@:quota`, or a bare `token`. */
  function PrintEntry(e: TokenEntry): string
  {
    if e.projects == [] && e.quotaBytes.None? then e.token else e.token + "@" + PrintScope(e)
  }

  function PrintEntries(es: seq<TokenEntry>): (r: seq<string>)
    ensures |r| == |es| && forall i :: 0 <= i < |r| ==> r[i] == PrintEntry(es[i])
  {
    if es == [] then [] else [PrintEntry(es[0])] + PrintEntries(es[1..])
  }

  function Print(es: seq<TokenEntry>): string { Join(PrintEntries(es), ';') }

  /** Entries the list syntax can carry. */
  predicate Printable(e: TokenEntry)
  {
    && e.token != "" && Trimmed(e.token) && ';' !in e.token && '@' !in e.token
    && (forall i :: 0 <= i < |e.projects| ==> I64_MIN <= e.projects[i] <= I64_MAX)
    && (e.quotaBytes.Some? ==> 0 < e.quotaBytes.value <= U64_MAX)
  }

  function Normal(e: TokenEntry): TokenEntry { e.(projects := SortDedup(e.projects)) }

  function NormalAll(es: seq<TokenEntry>): seq<TokenEntry>
  {
    if es == [] then [] else [Normal(es[0])] + NormalAll(es[1..])
  }

  lemma {:induction false} PiecesOfTrimmed(parts: seq<string>)
    requires forall i :: 0 <= i < |parts| ==> Trimmed(parts[i]) && parts[i] != ""
    ensures Pieces(parts) == parts
  {
    if parts != [] {
      TrimTrims(parts[0]);
      PiecesOfTrimmed(parts[1..]);
      assert parts == [parts[0]] + parts[1..];
    }
  }

  lemma IdText(n: int)
    ensures var s := IntToString(n);
            && s != "" && Trimmed(s) && IsDigit(s[|s| - 1])
            && ',' !in s && ':' !in s && ';' !in s && '@' !in s
  {
    var digits := NatToString(if n < 0 then -n else n);
    assert forall i :: 0 <= i < |digits| ==> IsDigit(digits[i]);
  }

  lemma PrintIdsStep(ids: seq<int>)
    requires ids != []
    ensures PrintIds(ids) == [IntToString(ids[0])] + PrintIds(ids[1..])
  {}

  lemma {:induction false} ParseIdsOfPrinted(ids: seq<int>)
    requires forall i :: 0 <= i < |ids| ==> I64_MIN <= ids[i] <= I64_MAX
    ensures ParseIds(PrintIds(ids)) == Ok(ids)
  {
    if ids != [] {
      hide ParseI64, IntToString, ParseIds;
      PrintIdsStep(ids);
      ParseI64OfInt(ids[0]);
      ParseIdsOfPrinted(ids[1..]);
      ParseIdsCons(IntToString(ids[0]), PrintIds(ids[1..]));
      assert ids == [ids[0]] + ids[1..];
    }
  }

  lemma NoIdsReadBack()
    ensures ParseIds(Pieces(Split("", ','))) == Ok([])
  {
    assert Split("", ',') == [""];
    assert [""][1..] == [];
  }

  /** A printed id list is read back in order. */
  lemma IdsReadBack(ids: seq<int>)
    requires forall i :: 0 <= i < |ids| ==> I64_MIN <= ids[i] <= I64_MAX
    ensures ParseIds(Pieces(Split(Join(PrintIds(ids), ','), ','))) == Ok(ids)
  {
    hide ParseIds, Pieces, Split;
    var printed := PrintIds(ids);
    if ids == [] {
      NoIdsReadBack();
    } else {
      forall i | 0 <= i < |printed| ensures Trimmed(printed[i]) && printed[i] != "" && ',' !in printed[i] {
        PrintIdsAt(ids, i);
        IdText(ids[i]);
      }
      SplitJoin(printed, ',');
      PiecesOfTrimmed(printed);
      ParseIdsOfPrinted(ids);
    }
  }

  /** What a list of ids prints: only digits, signs and commas, with a digit at the end. */
  lemma {:induction false} JoinedIdsText(ids: seq<int>)
    ensures var s := Join(PrintIds(ids), ',');
            && ':' !in s && ';' !in s && '@' !in s
            && (ids != [] ==> s != "" && IsDigit(s[|s| - 1]))
  {
    if ids != [] {
      IdText(ids[0]);
      if |ids| > 1 {
        PrintIdsStep(ids);
        JoinedIdsText(ids[1..]);
      }
    }
  }

  lemma ScopeReadsBack(e: TokenEntry)
    requires Printable(e)
    ensures ParseScope(PrintScope(e)) == Ok((e.quotaBytes, Join(PrintIds(e.projects), ',')))
  {
    hide SplitOnce, FindChar, Join, PrintIds, NatToString;
    var ids := Join(PrintIds(e.projects), ',');
    JoinedIdsText(e.projects);
    match e.quotaBytes {
      case None =>
        assert PrintScope(e) == ids;
      case Some(q) =>
        IdText(q);
        assert IntToString(q) == NatToString(q);
        assert PrintScope(e) == ids + [':'] + NatToString(q);
        SplitOnceAfter(ids, ':', NatToString(q));
        TrimTrims(NatToString(q));
        ParseU64OfNat(q);
    }
  }

  lemma EntryReadsBack(e: TokenEntry)
    requires Printable(e)
    ensures ParseItem(PrintEntry(e)) == Ok(Normal(e))
  {
    if e.projects == [] && e.quotaBytes.None? {
    } else {
      assert PrintEntry(e) == e.token + ['@'] + PrintScope(e);
      SplitOnceAfter(e.token, '@', PrintScope(e));
      TrimTrims(e.token);
      ScopeReadsBack(e);
      IdsReadBack(e.projects);
    }
  }

  /** A printed entry is one trimmed, non-empty piece. */
  lemma EntryText(e: TokenEntry)
    requires Printable(e)
    ensures var s := PrintEntry(e); s != "" && Trimmed(s) && ';' !in s
  {
    var ids := Join(PrintIds(e.projects), ',');
    JoinedIdsText(e.projects);
    var scope := PrintScope(e);
    match e.quotaBytes {
      case None => assert scope == ids;
      case Some(q) =>
        IdText(q);
        assert IntToString(q) == NatToString(q);
        assert scope[|scope| - 1] == NatToString(q)[|NatToString(q)| - 1];
    }
    var s := PrintEntry(e);
    assert s[0] == e.token[0];
    if !(e.projects == [] && e.quotaBytes.None?) {
      assert s[|s| - 1] == scope[|scope| - 1];
    }
  }

  lemma {:induction false} ItemsReadBack(es: seq<TokenEntry>)
    requires forall i :: 0 <= i < |es| ==> Printable(es[i])
    ensures ParseItems(PrintEntries(es)) == Ok(NormalAll(es))
  {
    if es != [] {
      EntryReadsBack(es[0]);
      assert PrintEntries(es)[1..] == PrintEntries(es[1..]);
      ItemsReadBack(es[1..]);
    }
  }

  /** Parsing a printed list returns its entries, each project list strictly ascending. */
  lemma ParsePrint(es: seq<TokenEntry>)
    requires es != [] && forall i :: 0 <= i < |es| ==> Printable(es[i])
    ensures Parse(Print(es)) == Ok(NormalAll(es))
  {
    var printed := PrintEntries(es);
    forall i | 0 <= i < |printed| ensures Trimmed(printed[i]) && printed[i] != "" && ';' !in printed[i] { EntryText(es[i]); }
    SplitJoin(printed, ';');
    PiecesOfTrimmed(printed);
    ItemsReadBack(es);
  }

  // ---------------------------------------------------------------- every accepted input

  /** Entries in the form parsing leaves them. */
  predicate Parsed(e: TokenEntry) { Printable(e) && Ascending(e.projects) }

  lemma {:induction false} PiecesText(parts: seq<string>, c: char)
    requires forall i :: 0 <= i < |parts| ==> c !in parts[i]
    ensures forall i :: 0 <= i < |Pieces(parts)| ==> Pieces(parts)[i] != "" && Trimmed(Pieces(parts)[i]) && c !in Pieces(parts)[i]
  {
    if parts != [] {
      TrimTrims(parts[0]);
      PiecesText(parts[1..], c);
    }
  }

  lemma {:induction false} ParsedIdsInRange(parts: seq<string>)
    ensures ParseIds(parts).Ok? ==> forall i :: 0 <= i < |ParseIds(parts).value| ==> I64_MIN <= ParseIds(parts).value[i] <= I64_MAX
  {
    if parts != [] { ParsedIdsInRange(parts[1..]); }
  }

  lemma ScopeQuota(scope: string)
    ensures var s := ParseScope(scope); s.Ok? && s.value.0.Some? ==> 0 < s.value.0.value <= U64_MAX
  {
    hide SplitOnce, Trim;
  }

  /** The ids that parsing keeps. */
  lemma IdsParsed(parts: seq<string>)
    requires ParseIds(parts).Ok?
    ensures var projects := SortDedup(ParseIds(parts).value);
            Ascending(projects) && forall i :: 0 <= i < |projects| ==> I64_MIN <= projects[i] <= I64_MAX
  {
    hide ParseIds, SortDedup;
    ParsedIdsInRange(parts);
    var ids := ParseIds(parts).value;
    SortDedupSorts(ids);
    var projects := SortDedup(ids);
    forall i | 0 <= i < |projects| ensures I64_MIN <= projects[i] <= I64_MAX {
      assert projects[i] in projects;
    }
  }

  lemma ItemParsed(item: string)
    requires item != "" && Trimmed(item) && ';' !in item
    ensures ParseItem(item).Ok? ==> Parsed(ParseItem(item).value)
  {
    hide ParseIds, ParseScope, Pieces, Split, SortDedup, Trim, FindChar;
    match SplitOnce(item, '@') {
      case None =>
      case Some((token, scope)) =>
        TrimTrims(token);
        ScopeQuota(scope);
        if ParseItem(item).Ok? {
          IdsParsed(Pieces(Split(ParseScope(scope).value.1, ',')));
        }
    }
  }

  lemma {:induction false} ItemsParsed(items: seq<string>)
    requires forall i :: 0 <= i < |items| ==> items[i] != "" && Trimmed(items[i]) && ';' !in items[i]
    ensures ParseItems(items).Ok? ==> forall i :: 0 <= i < |ParseItems(items).value| ==> Parsed(ParseItems(items).value[i])
  {
    if items != [] {
      ItemParsed(items[0]);
      ItemsParsed(items[1..]);
    }
  }

  lemma {:induction false} NormalOfParsed(es: seq<TokenEntry>)
    requires forall i :: 0 <= i < |es| ==> Parsed(es[i])
    ensures NormalAll(es) == es
  {
    if es != [] {
      SortDedupKeepsAscending(es[0].projects);
      NormalOfParsed(es[1..]);
      assert es == [es[0]] + es[1..];
    }
  }

  /** On every accepted input: the entries are well formed, and printing and parsing them changes nothing. */
  lemma ParsePrintParse(raw: string)
    requires Parse(raw).Ok?
    ensures forall i :: 0 <= i < |Parse(raw).value| ==> Parsed(Parse(raw).value[i])
    ensures Parse(Print(Parse(raw).value)) == Parse(raw)
  {
    var parts := Split(raw, ';');
    PiecesText(parts, ';');
    ItemsParsed(Pieces(parts));
    var es := Parse(raw).value;
    ParsePrint(es);
    NormalOfParsed(es);
  }

  lemma {:induction false} NormalAllAt(es: seq<TokenEntry>)
    ensures |NormalAll(es)| == |es| && forall i :: 0 <= i < |es| ==> NormalAll(es)[i] == Normal(es[i])
  {
    if es != [] { NormalAllAt(es[1..]); }
  }

  lemma AcceptsNoEmptyList(raw: string)
    ensures Parse(raw) != Ok([])
  {
    hide ParseItems;
  }

  lemma SortDedupKeeps(ids: seq<int>, id: int)
    requires id in ids
    ensures id in SortDedup(ids)
  {
    SortDedupSorts(ids);
  }

  /** Sorting drops no id. */
  lemma NormalIsPrintable(e: TokenEntry)
    requires Printable(Normal(e))
    ensures Printable(e)
  {
    hide SortDedup, Trimmed;
    forall j | 0 <= j < |e.projects| ensures I64_MIN <= e.projects[j] <= I64_MAX {
      SortDedupKeeps(e.projects, e.projects[j]);
    }
  }

  /** A list of entries survives printing and parsing exactly when it is non-empty and printable. */
  lemma PrintReadsBackIff(es: seq<TokenEntry>)
    ensures Parse(Print(es)) == Ok(NormalAll(es)) <==> es != [] && forall i :: 0 <= i < |es| ==> Printable(es[i])
  {
    hide Parse, Print, Printable, Normal;
    if Parse(Print(es)) == Ok(NormalAll(es)) {
      AcceptsNoEmptyList(Print(es));
      ParsePrintParse(Print(es));
      NormalAllAt(es);
      forall i | 0 <= i < |es| ensures Printable(es[i]) {
        assert Parsed(NormalAll(es)[i]);
        NormalIsPrintable(es[i]);
      }
    } else if es != [] && forall i :: 0 <= i < |es| ==> Printable(es[i]) {
      ParsePrint(es);
    }
  }
}
