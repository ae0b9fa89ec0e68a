/**
 The admission gate: tokens, configuration validation, counters and the decision pipeline
 (crates/app/cce-admission/src/{token,config,context,metrics,middleware}.rs).
 */
module Admission {
  import opened Clock
  import opened Text
  import opened RateLimit
  import opened TokenList
  import opened Query
  import opened Paths
  import opened GatewayPaths

  const MIN_TOKEN_LEN: nat := 16

  // ---------------------------------------------------------------- tokens

  /** The digest of a token; SHA-256 itself stays a parameter. */
  type HashToken = string -> TokenHash

  /** Collision freedom, for the results that need it. */
  ghost predicate Injective(hash: HashToken) { forall a, b :: hash(a) == hash(b) ==> a == b }

  lemma OrXorZero(d: bv8, a: bv8, b: bv8)
    ensures (d | (a ^ b)) == 0 <==> d == 0 && a == b
  {}

  /** `equal_hashes`: the accumulated difference is zero exactly for equal digests. */
  method EqualHashes(left: seq<bv8>, right: seq<bv8>) returns (equal: bool)
    requires |left| == |right|
    ensures equal <==> left == right
  {
    var diff: bv8 := 0;
    for i := 0 to |left|
      invariant diff == 0 <==> left[..i] == right[..i]
    {
      OrXorZero(diff, left[i], right[i]);
      assert left[..i + 1] == left[..i] + [left[i]] && right[..i + 1] == right[..i] + [right[i]];
      diff := diff | (left[i] ^ right[i]);
    }
    assert left[..|left|] == left && right[..|right|] == right;
    return diff == 0;
  }

  datatype StoredToken = StoredToken(hash: TokenHash, projects: seq<int>, quotaBytes: Option<nat>)

  function Stored(e: TokenEntry, hash: HashToken): StoredToken
  {
    StoredToken(hash(e.token), e.projects, e.quotaBytes)
  }

  /** `TokenStore::from_entries`. */
  function FromEntries(entries: seq<TokenEntry>, hash: HashToken): seq<StoredToken>
  {
    if entries == [] then [] else [Stored(entries[0], hash)] + FromEntries(entries[1..], hash)
  }

  function FindHash(store: seq<StoredToken>, candidate: TokenHash): (r: Option<StoredToken>)
    ensures r.Some? ==> r.value.hash == candidate
  {
    if store == [] then None
    else if store[0].hash == candidate then Some(store[0])
    else FindHash(store[1..], candidate)
  }

  /** `TokenStore::authenticate`. */
  function Authenticate(store: seq<StoredToken>, presented: string, hash: HashToken): (r: Option<StoredToken>)
    ensures r.Some? ==> r.value.hash == hash(presented)
  {
    if |presented| < MIN_TOKEN_LEN then None else FindHash(store, hash(presented))
  }

  function FindEntry(entries: seq<TokenEntry>, token: string): Option<TokenEntry>
  {
    if entries == [] then None
    else if entries[0].token == token then Some(entries[0])
    else FindEntry(entries[1..], token)
  }

  lemma {:induction false} FindHashIsFindEntry(entries: seq<TokenEntry>, token: string, hash: HashToken)
    requires Injective(hash)
    ensures FindHash(FromEntries(entries, hash), hash(token))
            == match FindEntry(entries, token) case None => None case Some(e) => Some(Stored(e, hash))
  {
    if entries != [] {
      FindHashIsFindEntry(entries[1..], token, hash);
      assert FromEntries(entries, hash)[1..] == FromEntries(entries[1..], hash);
    }
  }

  // ---------------------------------------------------------------- configuration

  datatype AdmissionConfig = AdmissionConfig(
    enabled: bool,
    tokens: seq<TokenEntry>,
    managementTokens: seq<TokenEntry>,
    publicPathPrefixes: seq<string>,
    rateLimitPerMin: nat,
    maxBodyBytes: nat)

  datatype ConfigError = NoTokens | ShortToken | BadScope | DuplicateToken | EmptyPrefix

  predicate GoodEntry(e: TokenEntry)
  {
    |e.token| >= MIN_TOKEN_LEN && forall i :: 0 <= i < |e.projects| ==> e.projects[i] > 0
  }

  predicate DistinctHashes(entries: seq<TokenEntry>, hash: HashToken)
  {
    forall i, j :: 0 <= i < j < |entries| ==> hash(entries[i].token) != hash(entries[j].token)
  }

  predicate ValidConfig(c: AdmissionConfig, hash: HashToken)
  {
    c.enabled ==>
      var all := c.tokens + c.managementTokens;
      && all != []
      && (forall i :: 0 <= i < |all| ==> GoodEntry(all[i]))
      && DistinctHashes(all, hash)
      && "" !in c.publicPathPrefixes
  }

  lemma NoneDistinct(all: seq<TokenEntry>, hash: HashToken)
    requires all == []
    ensures DistinctHashes(all, hash)
  {}

  lemma SameHash(all: seq<TokenEntry>, i: nat, j: nat, hash: HashToken)
    requires i < j < |all| && hash(all[i].token) == hash(all[j].token)
    ensures !DistinctHashes(all, hash)
  {}

  lemma DistinctSnoc(all: seq<TokenEntry>, i: nat, hash: HashToken)
    requires i < |all| && DistinctHashes(all[..i], hash)
    requires forall j :: 0 <= j < i ==> hash(all[j].token) != hash(all[i].token)
    ensures DistinctHashes(all[..i + 1], hash)
  {}

  /** What each reason for refusing a configuration says of it. */
  ghost predicate Explains(c: AdmissionConfig, hash: HashToken, error: ConfigError)
  {
    match error
    case NoTokens => c.tokens == [] && c.managementTokens == []
    case ShortToken => exists e :: e in c.tokens + c.managementTokens && |e.token| < MIN_TOKEN_LEN
    case BadScope => exists e, id :: e in c.tokens + c.managementTokens && id in e.projects && id <= 0
    case DuplicateToken => !DistinctHashes(c.tokens + c.managementTokens, hash)
    case EmptyPrefix => "" in c.publicPathPrefixes
  }

  lemma ShortExplains(c: AdmissionConfig, hash: HashToken, i: nat)
    requires i < |c.tokens + c.managementTokens| && |(c.tokens + c.managementTokens)[i].token| < MIN_TOKEN_LEN
    ensures Explains(c, hash, ShortToken)
  {
    assert (c.tokens + c.managementTokens)[i] in c.tokens + c.managementTokens;
  }

  lemma ScopeExplains(c: AdmissionConfig, hash: HashToken, i: nat, j: nat)
    requires i < |c.tokens + c.managementTokens| && j < |(c.tokens + c.managementTokens)[i].projects|
    requires (c.tokens + c.managementTokens)[i].projects[j] <= 0
    ensures Explains(c, hash, BadScope)
  {
    var e := (c.tokens + c.managementTokens)[i];
    assert e in c.tokens + c.managementTokens && e.projects[j] in e.projects;
  }

  lemma Reasons(c: AdmissionConfig, hash: HashToken)
    ensures c.tokens == [] && c.managementTokens == [] ==> Explains(c, hash, NoTokens)
    ensures !DistinctHashes(c.tokens + c.managementTokens, hash) ==> Explains(c, hash, DuplicateToken)
    ensures "" in c.publicPathPrefixes ==> Explains(c, hash, EmptyPrefix)
  {
    hide DistinctHashes;
  }

  /** `AdmissionConfig::validate`. */
  method Validate(c: AdmissionConfig, hash: HashToken) returns (error: Option<ConfigError>)
    ensures error.None? <==> ValidConfig(c, hash)
    ensures error.Some? ==> c.enabled && Explains(c, hash, error.value)
  {
    hide DistinctHashes, Explains;
    Reasons(c, hash);
    if !c.enabled { return None; }
    if |c.tokens| == 0 && |c.managementTokens| == 0 { return Some(NoTokens); }
    var all := c.tokens + c.managementTokens;
    var seen: seq<TokenHash> := [];
    NoneDistinct(all[..0], hash);
    for i := 0 to |all|
      invariant |seen| == i && forall j :: 0 <= j < i ==> seen[j] == hash(all[j].token)
      invariant forall j :: 0 <= j < i ==> GoodEntry(all[j])
      invariant DistinctHashes(all[..i], hash)
    {
      var entry := all[i];
      if |entry.token| < MIN_TOKEN_LEN {
        ShortExplains(c, hash, i);
        return Some(ShortToken);
      }
      if exists j :: 0 <= j < |entry.projects| && entry.projects[j] <= 0 {
        ghost var j :| 0 <= j < |entry.projects| && entry.projects[j] <= 0;
        ScopeExplains(c, hash, i, j);
        return Some(BadScope);
      }
      var h := hash(entry.token);
      if h in seen {
        var j :| 0 <= j < i && seen[j] == h;
        SameHash(all, j, i, hash);
        return Some(DuplicateToken);
      }
      DistinctSnoc(all, i, hash);
      seen := seen + [h];
    }
    assert all[..|all|] == all;
    if "" in c.publicPathPrefixes { return Some(EmptyPrefix); }
    return None;
  }

  lemma {:induction false} FindEntryFinds(entries: seq<TokenEntry>, token: string, hash: HashToken)
    requires DistinctHashes(entries, hash)
    ensures FindEntry(entries, token).Some? <==> exists i :: 0 <= i < |entries| && entries[i].token == token
    ensures forall i :: 0 <= i < |entries| && entries[i].token == token ==> FindEntry(entries, token) == Some(entries[i])
  {
    if entries != [] {
      FindEntryFinds(entries[1..], token, hash);
      forall i | 0 <= i < |entries| && entries[i].token == token
        ensures FindEntry(entries, token) == Some(entries[i])
      {
        if i > 0 { assert entries[1..][i - 1].token == token; }
      }
    }
  }

  // ---------------------------------------------------------------- requests

  /** What the middleware reads of a request; `bodyProject` is the top-level integer
      `project_id` of a JSON body, if any. */
  datatype HttpRequest = HttpRequest(
    path: string,
    query: Option<string>,
    authorization: Option<string>,
    apiToken: Option<string>,
    isGet: bool,
    contentType: Option<string>,
    bodyLen: nat,
    bodyProject: Option<int>)

  function ToLower(s: string): string
  {
    if s == "" then "" else [if 'A' <= s[0] <= 'Z' then (s[0] as int + 32) as char else s[0]] + ToLower(s[1..])
  }

  function NonEmptyTrimmed(v: string): Option<string>
  {
    if Trim(v) == "" then None else Some(Trim(v))
  }

  function BearerToken(authorization: Option<string>): Option<string>
  {
    if authorization.None? then None
    else
      match SplitOnce(authorization.value, ' ')
      case None => None
      case Some((scheme, token)) => if ToLower(scheme) == "bearer" then NonEmptyTrimmed(token) else None
  }

  /** `presented_token`: the bearer header first, then `x-api-token`. */
  function PresentedToken(r: HttpRequest): Option<string>
  {
    var bearer := BearerToken(r.authorization);
    if bearer.Some? then bearer
    else if r.apiToken.None? then None
    else NonEmptyTrimmed(r.apiToken.value)
  }

  datatype Context = Context(projects: seq<int>, isAdmin: bool)
  {
    /** `allows_project`. */
    predicate AllowsProject(id: int) { (isAdmin && projects == []) || id in projects }

    /** `allows_path`. */
    predicate AllowsPath(path: string) { isAdmin || IsGatewayPath(path) }
  }

  datatype GateConfig = GateConfig(
    store: seq<StoredToken>,
    adminStore: seq<StoredToken>,
    publicPrefixes: seq<string>,
    rateLimitPerMin: nat,
    maxBodyBytes: nat)

  datatype Identity = Identity(token: StoredToken, isAdmin: bool)
  {
    function Ctx(): Context { Context(token.projects, isAdmin) }
  }

  /** The stored token of a request, management tokens first. */
  function Identify(g: GateConfig, r: HttpRequest, hash: HashToken): Option<Identity>
  {
    match PresentedToken(r)
    case None => None
    case Some(t) =>
      match Authenticate(g.adminStore, t, hash)
      case Some(entry) => Some(Identity(entry, true))
      case None =>
        match Authenticate(g.store, t, hash)
        case Some(entry) => Some(Identity(entry, false))
        case None => None
  }

  lemma BearerLowered()
    ensures ToLower("Bearer") == "bearer"
  {
    hide ToLower;
    LowerCons('r', "");
    assert ToLower("r") == "r" by { assert "r" == ['r'] + ""; }
    LowerCons('e', "r");
    assert ToLower("er") == "er" by { assert "er" == ['e'] + "r"; }
    LowerCons('r', "er");
    assert ToLower("rer") == "rer" by { assert "rer" == ['r'] + "er"; }
    LowerCons('a', "rer");
    assert ToLower("arer") == "arer" by { assert "arer" == ['a'] + "rer"; }
    LowerCons('e', "arer");
    assert ToLower("earer") == "earer" by { assert "earer" == ['e'] + "arer"; }
    LowerCons('B', "earer");
    assert "Bearer" == ['B'] + "earer";
  }

  lemma LowerCons(a: char, s: string)
    ensures ToLower("") == ""
    ensures ToLower([a] + s) == [if 'A' <= a <= 'Z' then (a as int + 32) as char else a] + ToLower(s)
  {
    assert ([a] + s)[1..] == s;
  }

  /** A well-formed bearer header decides, whatever the other header says. */
  lemma BearerWins(r: HttpRequest, token: string)
    requires r.authorization == Some("Bearer " + token) && token != "" && Trimmed(token)
    ensures PresentedToken(r) == Some(token)
  {
    hide ToLower, SplitOnce, Trim;
    assert "Bearer " + token == "Bearer" + [' '] + token;
    SplitOnceAfter("Bearer", ' ', token);
    TrimTrims(token);
    BearerLowered();
  }

  predicate HasBearer(r: HttpRequest) { BearerToken(r.authorization).Some? }

  /** A bearer header is a scheme that reads `bearer` in any case, a blank, and a token that is not blank. */
  lemma BearerIff(r: HttpRequest, scheme: string, rest: string)
    requires ' ' !in scheme && r.authorization == Some(scheme + [' '] + rest)
    ensures HasBearer(r) <==> ToLower(scheme) == "bearer" && Trim(rest) != ""
    ensures HasBearer(r) ==> PresentedToken(r) == Some(Trim(rest))
  {
    hide ToLower, SplitOnce, Trim;
    SplitOnceAfter(scheme, ' ', rest);
  }

  lemma {:induction false} ToLowerAt(s: string)
    ensures |ToLower(s)| == |s|
    ensures forall i :: 0 <= i < |s| ==> ToLower(s)[i] == if 'A' <= s[i] <= 'Z' then (s[i] as int + 32) as char else s[i]
  {
    if s != "" { ToLowerAt(s[1..]); }
  }

  /** Without a blank there is none. */
  lemma NoBearer(r: HttpRequest)
    requires r.authorization.Some? ==> ' ' !in r.authorization.value
    ensures !HasBearer(r)
  {
    hide ToLower, Trim;
    if r.authorization.Some? { assert SplitOnce(r.authorization.value, ' ') == None; }
  }

  /** Then, and then only, the other header counts: its text between white space, if there is any. */
  lemma ApiTokenCounts(r: HttpRequest, lead: string, core: string, tail: string)
    requires !HasBearer(r) && AllSpace(lead) && AllSpace(tail) && Trimmed(core)
    ensures r.apiToken == Some(lead + core + tail) ==> PresentedToken(r) == if core == "" then None else Some(core)
    ensures r.apiToken == None ==> PresentedToken(r) == None
  {
    hide BearerToken, Trim;
    TrimIs(lead, core, tail);
  }

  lemma FindEntryDistinct(a: seq<TokenEntry>, b: seq<TokenEntry>, token: string, hash: HashToken)
    requires DistinctHashes(a + b, hash)
    ensures DistinctHashes(a, hash) && DistinctHashes(b, hash)
    ensures forall i, j :: 0 <= i < |a| && 0 <= j < |b| ==> a[i].token != b[j].token
  {
    var all := a + b;
    forall i, j | 0 <= i < j < |a| ensures hash(a[i].token) != hash(a[j].token) { assert all[i] == a[i] && all[j] == a[j]; }
    forall i, j | 0 <= i < j < |b| ensures hash(b[i].token) != hash(b[j].token) { assert all[|a| + i] == b[i] && all[|a| + j] == b[j]; }
    forall i, j | 0 <= i < |a| && 0 <= j < |b| ensures a[i].token != b[j].token { assert all[i] == a[i] && all[|a| + j] == b[j]; }
  }

  /**
   Who a request is, under a validated configuration: the holder of the management entry with
   the presented token, else of the gateway entry with it, else nobody.
   */
  lemma IdentifiesConfigured(c: AdmissionConfig, g: GateConfig, r: HttpRequest, hash: HashToken)
    requires c.enabled && ValidConfig(c, hash) && Injective(hash)
    requires g.store == FromEntries(c.tokens, hash) && g.adminStore == FromEntries(c.managementTokens, hash)
    ensures forall i :: 0 <= i < |c.managementTokens| && PresentedToken(r) == Some(c.managementTokens[i].token) ==>
              Identify(g, r, hash) == Some(Identity(Stored(c.managementTokens[i], hash), true))
    ensures forall i :: 0 <= i < |c.tokens| && PresentedToken(r) == Some(c.tokens[i].token) ==>
              Identify(g, r, hash) == Some(Identity(Stored(c.tokens[i], hash), false))
    ensures Identify(g, r, hash).Some? ==>
              || (exists i :: 0 <= i < |c.managementTokens| && PresentedToken(r) == Some(c.managementTokens[i].token))
              || (exists i :: 0 <= i < |c.tokens| && PresentedToken(r) == Some(c.tokens[i].token))
  {
    hide PresentedToken, Authenticate, DistinctHashes, GoodEntry;
    if PresentedToken(r).Some? {
      var t := PresentedToken(r).value;
      AuthenticatesEntries(c.tokens, c.managementTokens, hash, t);
    }
  }

  /** Both stores of a validated configuration, for one presented value. */
  lemma AuthenticatesEntries(tokens: seq<TokenEntry>, management: seq<TokenEntry>, hash: HashToken, t: string)
    requires Injective(hash) && DistinctHashes(tokens + management, hash)
    requires forall i :: 0 <= i < |tokens + management| ==> GoodEntry((tokens + management)[i])
    ensures forall i :: 0 <= i < |management| && management[i].token == t ==>
              Authenticate(FromEntries(management, hash), t, hash) == Some(Stored(management[i], hash))
    ensures forall i :: 0 <= i < |tokens| && tokens[i].token == t ==>
              && Authenticate(FromEntries(management, hash), t, hash) == None
              && Authenticate(FromEntries(tokens, hash), t, hash) == Some(Stored(tokens[i], hash))
    ensures Authenticate(FromEntries(management, hash), t, hash).Some? ==> exists i :: 0 <= i < |management| && management[i].token == t
    ensures Authenticate(FromEntries(tokens, hash), t, hash).Some? ==> exists i :: 0 <= i < |tokens| && tokens[i].token == t
  {
    hide DistinctHashes;
    FindEntryDistinct(tokens, management, t, hash);
    FindHashIsFindEntry(tokens, t, hash);
    FindHashIsFindEntry(management, t, hash);
    FindEntryFinds(tokens, t, hash);
    FindEntryFinds(management, t, hash);
    forall i | 0 <= i < |tokens| ensures |tokens[i].token| >= MIN_TOKEN_LEN { assert GoodEntry((tokens + management)[i]); }
    forall i | 0 <= i < |management| ensures |management[i].token| >= MIN_TOKEN_LEN {
      assert (tokens + management)[|tokens| + i] == management[i];
    }
  }

  predicate BodyInspected(r: HttpRequest)
  {
    r.contentType.Some? && "application/json" <= r.contentType.value && !r.isGet
  }

  function QueryProjectOf(query: Option<string>): Option<int>
  {
    if query.None? then None else ScanPairs(Split(query.value, '&'))
  }

  function AsList(o: Option<int>): seq<int> { match o case None => [] case Some(x) => [x] }

  /** The project ids a request names, in the order they are checked. */
  function Candidates(r: HttpRequest): seq<int>
  {
    AsList(ProjectIdFromPath(r.path)) + AsList(QueryProjectOf(r.query))
    + if BodyInspected(r) && r.bodyLen != 0 then AsList(r.bodyProject) else []
  }

  // ---------------------------------------------------------------- counters

  const TWO_64: nat := 0x1_0000_0000_0000_0000

  datatype Outcome = Public | Admitted(who: Identity) | AuthRejected | ScopeRejected | RateRejected | BodyRejected

  /** `AdmissionMetrics`: `fetch_add` on 64-bit counters wraps around. */
  class AdmissionMetrics {
    var admitted: nat
    var authRejections: nat
    var scopeRejections: nat
    var rateRejections: nat
    var bodyRejections: nat
    var quotaRejections: nat

    constructor ()
      ensures Snapshot() == ZERO_STATS
    {
      admitted, authRejections, scopeRejections, rateRejections, bodyRejections, quotaRejections := 0, 0, 0, 0, 0, 0;
    }

    function Snapshot(): AdmissionStats
      reads this
    {
      AdmissionStats(admitted, authRejections, scopeRejections, rateRejections, bodyRejections, quotaRejections)
    }

    method Record(o: Outcome)
      modifies this
      ensures Snapshot() == old(Snapshot()).Bump(o)
    {
      match o {
        case Public =>
        case Admitted(_) => admitted := (admitted + 1) % TWO_64;
        case AuthRejected => authRejections := (authRejections + 1) % TWO_64;
        case ScopeRejected => scopeRejections := (scopeRejections + 1) % TWO_64;
        case RateRejected => rateRejections := (rateRejections + 1) % TWO_64;
        case BodyRejected => bodyRejections := (bodyRejections + 1) % TWO_64;
      }
    }
  }

  datatype AdmissionStats = AdmissionStats(admitted: nat, auth: nat, scope: nat, rate: nat, body: nat, quota: nat)
  {
    function Bump(o: Outcome): AdmissionStats
    {
      match o
      case Public => this
      case Admitted(_) => this.(admitted := (admitted + 1) % TWO_64)
      case AuthRejected => this.(auth := (auth + 1) % TWO_64)
      case ScopeRejected => this.(scope := (scope + 1) % TWO_64)
      case RateRejected => this.(rate := (rate + 1) % TWO_64)
      case BodyRejected => this.(body := (body + 1) % TWO_64)
    }
  }

  const ZERO_STATS := AdmissionStats(0, 0, 0, 0, 0, 0)

  // ---------------------------------------------------------------- the pipeline

  /** Whether a request gets as far as the rate check, and with which identity. */
  function Reaches(g: GateConfig, r: HttpRequest, hash: HashToken): Option<Identity>
  {
    if IsPublicPath(r.path, g.publicPrefixes) then None
    else
      var who := Identify(g, r, hash);
      if who.Some? && who.value.Ctx().AllowsPath(r.path) then who else None
  }

  predicate AllAllowed(c: Context, ids: seq<int>) { forall i :: 0 <= i < |ids| ==> c.AllowsProject(ids[i]) }

  predicate BodyTooLarge(g: GateConfig, r: HttpRequest) { BodyInspected(r) && r.bodyLen > g.maxBodyBytes }

  /** The decision of `admission_middleware`, with the buckets it leaves. */
  function Decide(g: GateConfig, m: Buckets, r: HttpRequest, now: Instant, hash: HashToken): (Outcome, Buckets)
  {
    if IsPublicPath(r.path, g.publicPrefixes) then (Public, m)
    else
      match Identify(g, r, hash)
      case None => (AuthRejected, m)
      case Some(who) =>
        if !who.Ctx().AllowsPath(r.path) then (ScopeRejected, m)
        else
          var hit := Request(who.token.hash, now);
          var m' := After(g.rateLimitPerMin, m, hit);
          if !Admits(g.rateLimitPerMin, m, hit) then (RateRejected, m')
          else if BodyTooLarge(g, r) then (BodyRejected, m')
          else if AllAllowed(who.Ctx(), Candidates(r)) then (Admitted(who), m')
          else (ScopeRejected, m')
  }

  /** The ids the middleware collects; none when the body is too large to inspect. */
  method CollectCandidates(r: HttpRequest, maxBodyBytes: nat) returns (ids: Option<seq<int>>)
    ensures ids.None? <==> BodyInspected(r) && r.bodyLen > maxBodyBytes
    ensures ids.Some? ==> ids.value == Candidates(r)
  {
    hide ProjectIdFromPath, ScanPairs, Split;
    var candidates: seq<int> := [];
    var fromPath := ProjectIdFromPath(r.path);
    if fromPath.Some? { candidates := candidates + [fromPath.value]; }
    var fromQuery := ProjectIdFromQuery(r.query);
    if fromQuery.Some? { candidates := candidates + [fromQuery.value]; }
    if BodyInspected(r) {
      if r.bodyLen > maxBodyBytes { return None; }
      if r.bodyLen != 0 && r.bodyProject.Some? { candidates := candidates + [r.bodyProject.value]; }
    }
    return Some(candidates);
  }

  class AdmissionGate {
    const config: GateConfig
    const hashToken: HashToken
    const limiter: RateLimiter
    const metrics: AdmissionMetrics

    constructor (c: AdmissionConfig, hash: HashToken)
      requires c.rateLimitPerMin <= U32_MAX
      ensures fresh(limiter) && fresh(metrics) && hashToken == hash
      ensures config == GateConfig(FromEntries(c.tokens, hash), FromEntries(c.managementTokens, hash),
                                   c.publicPathPrefixes, c.rateLimitPerMin, c.maxBodyBytes)
      ensures limiter.rateLimitPerMin == config.rateLimitPerMin
      ensures limiter.buckets == map[] && metrics.Snapshot() == ZERO_STATS
    {
      config := GateConfig(FromEntries(c.tokens, hash), FromEntries(c.managementTokens, hash),
                           c.publicPathPrefixes, c.rateLimitPerMin, c.maxBodyBytes);
      hashToken := hash;
      var l := new RateLimiter(c.rateLimitPerMin);
      var m := new AdmissionMetrics();
      limiter, metrics := l, m;
    }

    /** `admission_middleware`. */
    method Handle(r: HttpRequest, now: Instant) returns (o: Outcome)
      requires limiter.rateLimitPerMin == config.rateLimitPerMin
      modifies limiter, metrics
      ensures (o, limiter.buckets) == Decide(config, old(limiter.buckets), r, now, hashToken)
      ensures metrics.Snapshot() == old(metrics.Snapshot()).Bump(o)
    {
      hide IsPublicPath, PresentedToken, Authenticate, IsGatewayPath, ProjectIdFromPath, ScanPairs, Split, Admits, After, Candidates;
      o := Public;
      if IsPublicPath(r.path, config.publicPrefixes) { return; }
      var token := PresentedToken(r);
      if token.None? {
        o := AuthRejected;
        metrics.Record(o);
        return;
      }
      var isAdmin := true;
      var entry := Authenticate(config.adminStore, token.value, hashToken);
      if entry.None? {
        isAdmin := false;
        entry := Authenticate(config.store, token.value, hashToken);
        if entry.None? {
          o := AuthRejected;
          metrics.Record(o);
          return;
        }
      }
      var who := Identity(entry.value, isAdmin);
      var context := who.Ctx();
      if !context.AllowsPath(r.path) {
        o := ScopeRejected;
        metrics.Record(o);
        return;
      }
      var ok := limiter.CheckRate(entry.value.hash, now);
      if !ok {
        o := RateRejected;
        metrics.Record(o);
        return;
      }
      var candidates := CollectCandidates(r, config.maxBodyBytes);
      if candidates.None? {
        o := BodyRejected;
        metrics.Record(o);
        return;
      }
      var ids := candidates.value;
      for i := 0 to |ids|
        invariant forall j :: 0 <= j < i ==> context.AllowsProject(ids[j])
        invariant metrics.Snapshot() == old(metrics.Snapshot())
        invariant limiter.buckets == After(config.rateLimitPerMin, old(limiter.buckets), Request(entry.value.hash, now))
      {
        if !context.AllowsProject(ids[i]) {
          o := ScopeRejected;
          metrics.Record(o);
          return;
        }
      }
      o := Admitted(who);
      metrics.Record(o);
    }
  }

  /** The project ids a request names, as a set of facts about its parts. */
  predicate Names(r: HttpRequest, id: int)
  {
    || ProjectIdFromPath(r.path) == Some(id)
    || (r.query.Some? && ScanPairs(Split(r.query.value, '&')) == Some(id))
    || (BodyInspected(r) && r.bodyLen != 0 && r.bodyProject == Some(id))
  }

  /**
   Who is admitted: exactly the requests outside the public paths that present a known token,
   on a path it may call, within its rate, with a body within bounds, naming only its projects.
   */
  lemma AdmittedIff(g: GateConfig, m: Buckets, r: HttpRequest, now: Instant, hash: HashToken, who: Identity)
    ensures Decide(g, m, r, now, hash).0 == Admitted(who) <==>
            && !IsPublicPath(r.path, g.publicPrefixes)
            && Identify(g, r, hash) == Some(who)
            && (who.isAdmin || IsGatewayPath(r.path))
            && Admits(g.rateLimitPerMin, m, Request(who.token.hash, now))
            && !(BodyInspected(r) && r.bodyLen > g.maxBodyBytes)
            && (forall id :: Names(r, id) ==> id in who.token.projects || (who.isAdmin && who.token.projects == []))
  {
    hide ProjectIdFromPath, ScanPairs, Split, IsPublicPath, Identify, IsGatewayPath, Admits, After;
    var ids := Candidates(r);
    assert forall id :: Names(r, id) <==> id in ids;
    if AllAllowed(who.Ctx(), ids) {
      forall id | Names(r, id) ensures who.Ctx().AllowsProject(id) {
        var i :| 0 <= i < |ids| && ids[i] == id;
      }
    } else {
      var i :| 0 <= i < |ids| && !who.Ctx().AllowsProject(ids[i]);
      assert Names(r, ids[i]);
    }
  }

  /** A request that does not reach the rate check leaves every bucket unchanged; one that does
      is charged to its own token only, whatever is decided afterwards. */
  lemma ChargesOnlyItsToken(g: GateConfig, m: Buckets, r: HttpRequest, now: Instant, hash: HashToken)
    ensures var (o, m') := Decide(g, m, r, now, hash);
            && (Reaches(g, r, hash).None? ==> m' == m && (o.Public? || o.AuthRejected? || o.ScopeRejected?))
            && (Reaches(g, r, hash).Some? ==> m' == After(g.rateLimitPerMin, m, Request(Reaches(g, r, hash).value.token.hash, now)))
            && (o.Admitted? ==> Reaches(g, r, hash) == Some(o.who) && Admits(g.rateLimitPerMin, m, Request(o.who.token.hash, now)))
  {
    hide IsPublicPath, Identify, IsGatewayPath, Admits, After, Candidates;
  }

  // ---------------------------------------------------------------- runs

  datatype Arrival = Arrival(request: HttpRequest, now: Instant)

  type Run = seq<Arrival>

  function Outcomes(g: GateConfig, m: Buckets, run: Run, hash: HashToken): (os: seq<Outcome>)
    ensures |os| == |run|
    decreases |run|
  {
    if run == [] then []
    else
      var (o, m') := Decide(g, m, run[0].request, run[0].now, hash);
      [o] + Outcomes(g, m', run[1..], hash)
  }

  /** The counters after a run. */
  function StatsAfter(s: AdmissionStats, os: seq<Outcome>): AdmissionStats
    decreases |os|
  {
    if os == [] then s else StatsAfter(s.Bump(os[0]), os[1..])
  }

  datatype Kind = KPublic | KAdmitted | KAuth | KScope | KRate | KBody

  function KindOf(o: Outcome): Kind
  {
    match o
    case Public => KPublic
    case Admitted(_) => KAdmitted
    case AuthRejected => KAuth
    case ScopeRejected => KScope
    case RateRejected => KRate
    case BodyRejected => KBody
  }

  function CountKind(os: seq<Outcome>, k: Kind): nat
  {
    if os == [] then 0 else (if KindOf(os[0]) == k then 1 else 0) + CountKind(os[1..], k)
  }

  /** The counter of a kind of outcome; public requests have none. */
  function Counter(s: AdmissionStats, k: Kind): nat
    requires k != KPublic
  {
    match k
    case KAdmitted => s.admitted
    case KAuth => s.auth
    case KScope => s.scope
    case KRate => s.rate
    case KBody => s.body
  }

  lemma BumpCounts(s: AdmissionStats, o: Outcome, k: Kind)
    requires k != KPublic
    ensures Counter(s.Bump(o), k) == if KindOf(o) == k then (Counter(s, k) + 1) % TWO_64 else Counter(s, k)
  {}

  lemma AddMod(a: nat, b: nat)
    ensures ((a + 1) % TWO_64 + b) % TWO_64 == (a + (1 + b)) % TWO_64
  {}

  /** Each counter has counted its own outcomes, modulo the width of the counter. */
  lemma {:induction false} CounterCounts(s: AdmissionStats, os: seq<Outcome>, k: Kind)
    requires k != KPublic && Counter(s, k) < TWO_64
    ensures Counter(StatsAfter(s, os), k) == (Counter(s, k) + CountKind(os, k)) % TWO_64
    decreases |os|
  {
    if os != [] {
      hide Counter;
      BumpCounts(s, os[0], k);
      CounterCounts(s.Bump(os[0]), os[1..], k);
      AddMod(Counter(s, k), CountKind(os[1..], k));
    }
  }

  lemma {:induction false} KindsPartition(os: seq<Outcome>)
    ensures CountKind(os, KPublic) + CountKind(os, KAdmitted) + CountKind(os, KAuth)
            + CountKind(os, KScope) + CountKind(os, KRate) + CountKind(os, KBody) == |os|
  {
    if os != [] { KindsPartition(os[1..]); }
  }

  /** Requests to the public paths. */
  function PublicRequests(g: GateConfig, run: Run): nat
  {
    if run == [] then 0
    else (if IsPublicPath(run[0].request.path, g.publicPrefixes) then 1 else 0) + PublicRequests(g, run[1..])
  }

  lemma {:induction false} PublicOutcomes(g: GateConfig, m: Buckets, run: Run, hash: HashToken)
    ensures CountKind(Outcomes(g, m, run, hash), KPublic) == PublicRequests(g, run)
    decreases |run|
  {
    hide IsPublicPath, Identify, IsGatewayPath, Admits, After, Candidates;
    if run != [] {
      var (o, m') := Decide(g, m, run[0].request, run[0].now, hash);
      PublicOutcomes(g, m', run[1..], hash);
      assert Outcomes(g, m, run, hash)[1..] == Outcomes(g, m', run[1..], hash);
    }
  }

  /** After any run of fewer than 2^64 requests, the five counters add up to the requests
      outside the public paths, and each is the number of its own outcomes. */
  lemma CountersConserve(g: GateConfig, m: Buckets, run: Run, hash: HashToken)
    requires |run| < TWO_64
    ensures var os := Outcomes(g, m, run, hash);
            var s := StatsAfter(ZERO_STATS, os);
            && s.admitted + s.auth + s.scope + s.rate + s.body == |run| - PublicRequests(g, run)
            && s.admitted == CountKind(os, KAdmitted) && s.auth == CountKind(os, KAuth)
            && s.scope == CountKind(os, KScope) && s.rate == CountKind(os, KRate) && s.body == CountKind(os, KBody)
  {
    hide Outcomes, StatsAfter, CountKind, PublicRequests;
    var os := Outcomes(g, m, run, hash);
    forall k: Kind | k != KPublic ensures Counter(StatsAfter(ZERO_STATS, os), k) == CountKind(os, k) {
      CounterCounts(ZERO_STATS, os, k);
      KindAtMostAll(os, k);
    }
    assert forall k: Kind {:trigger CountKind(os, k)} :: k != KPublic ==> Counter(StatsAfter(ZERO_STATS, os), k) == CountKind(os, k);
    KindsPartition(os);
    PublicOutcomes(g, m, run, hash);
  }

  lemma {:induction false} KindAtMostAll(os: seq<Outcome>, k: Kind)
    ensures CountKind(os, k) <= |os|
  {
    if os != [] { KindAtMostAll(os[1..], k); }
  }

  /** The hits of a run on the rate limiter. */
  function Hits(g: GateConfig, run: Run, hash: HashToken): seq<Request>
  {
    if run == [] then []
    else
      var who := Reaches(g, run[0].request, hash);
      (if who.Some? then [Request(who.value.token.hash, run[0].now)] else []) + Hits(g, run[1..], hash)
  }

  /** How many requests of one token a run admits in `[lo, hi)`. */
  function AdmittedFor(g: GateConfig, m: Buckets, run: Run, hash: HashToken, token: TokenHash, lo: int, hi: int): nat
    decreases |run|
  {
    if run == [] then 0
    else
      var (o, m') := Decide(g, m, run[0].request, run[0].now, hash);
      (if o.Admitted? && o.who.token.hash == token && Within(run[0].now, lo, hi) then 1 else 0)
      + AdmittedFor(g, m', run[1..], hash, token, lo, hi)
  }

  lemma {:induction false} AdmittedAreHits(g: GateConfig, m: Buckets, run: Run, hash: HashToken, token: TokenHash, lo: int, hi: int)
    ensures AdmittedFor(g, m, run, hash, token, lo, hi) <= AdmittedIn(g.rateLimitPerMin, m, Hits(g, run, hash), token, lo, hi)
    decreases |run|
  {
    hide Decide, Reaches, Admits, After;
    if run != [] {
      var r, now := run[0].request, run[0].now;
      var (o, m') := Decide(g, m, r, now, hash);
      ChargesOnlyItsToken(g, m, r, now, hash);
      AdmittedAreHits(g, m', run[1..], hash, token, lo, hi);
      var hits, who := Hits(g, run, hash), Reaches(g, r, hash);
      if who.Some? {
        assert hits[0] == Request(who.value.token.hash, now) && hits[1..] == Hits(g, run[1..], hash);
      } else {
        assert hits == Hits(g, run[1..], hash);
      }
    }
  }

  predicate InTimeOrder(run: Run) { forall i, j :: 0 <= i < j < |run| ==> run[i].now <= run[j].now }

  lemma {:induction false} HitTimes(g: GateConfig, run: Run, hash: HashToken, token: TokenHash, t: Instant)
    requires InTimeOrder(run) && forall i :: 0 <= i < |run| ==> t <= run[i].now
    ensures var ts := Times(Hits(g, run, hash), token);
            NonDecreasing(ts) && forall i :: 0 <= i < |ts| ==> t <= ts[i]
  {
    hide Reaches;
    if run != [] {
      HitTimes(g, run[1..], hash, token, run[0].now);
      var hits, who := Hits(g, run, hash), Reaches(g, run[0].request, hash);
      if who.Some? {
        assert hits[1..] == Hits(g, run[1..], hash);
      } else {
        assert hits == Hits(g, run[1..], hash);
      }
    }
  }

  /**
   The whole gate keeps the limiter's promise: in any interval of `k` minutes a token gets
   fewer than `(k + 1) * limit` requests through, in every run of every mix of requests.
   */
  lemma GateSlidingBound(g: GateConfig, run: Run, hash: HashToken, token: TokenHash, lo: int, k: nat)
    requires 0 < g.rateLimitPerMin < U32_MAX && InTimeOrder(run)
    ensures AdmittedFor(g, map[], run, hash, token, lo, lo + k * RATE_WINDOW) < (k + 1) * g.rateLimitPerMin
  {
    hide AdmittedFor, AdmittedIn, Hits, Times, InTimeOrder, NonDecreasing;
    assert InTimeOrder(run);
    AdmittedAreHits(g, map[], run, hash, token, lo, lo + k * RATE_WINDOW);
    HitTimes(g, run, hash, token, 0);
    SlidingBound(g.rateLimitPerMin, Hits(g, run, hash), token, lo, k);
  }

  // ---------------------------------------------------------------- who is admitted in a run

  /** A configured token, in one of the two lists. */
  datatype Holder = Holder(entry: TokenEntry, isManagement: bool)
  {
    function AsIdentity(hash: HashToken): Identity { Identity(Stored(entry, hash), isManagement) }

    /** Whether a project id is covered by the entry. */
    predicate Covers(id: int) { id in entry.projects || (isManagement && entry.projects == []) }
  }

  predicate Configured(c: AdmissionConfig, who: Holder)
  {
    who.entry in if who.isManagement then c.managementTokens else c.tokens
  }

  /** The gate of a configuration. */
  function GateOf(c: AdmissionConfig, hash: HashToken): GateConfig
  {
    GateConfig(FromEntries(c.tokens, hash), FromEntries(c.managementTokens, hash), c.publicPathPrefixes, c.rateLimitPerMin, c.maxBodyBytes)
  }

  /** A request that counts against the token's rate: it presents the token, on a path the token may call. */
  predicate OwnHit(c: AdmissionConfig, who: Holder, r: HttpRequest)
  {
    && !IsPublicPath(r.path, c.publicPathPrefixes)
    && PresentedToken(r) == Some(who.entry.token)
    && (who.isManagement || IsGatewayPath(r.path))
  }

  /** The times of the token's own such requests. */
  function OwnHits(c: AdmissionConfig, who: Holder, run: Run): seq<Instant>
  {
    if run == [] then []
    else (if OwnHit(c, who, run[0].request) then [run[0].now] else []) + OwnHits(c, who, run[1..])
  }

  /** The hit that opened the window of the last one: each window opens at the first hit a minute after its predecessor's opener. */
  function Opener(ts: seq<Instant>): (i: nat)
    requires ts != []
    ensures i < |ts|
  {
    if |ts| == 1 then 0
    else
      var n := |ts| - 1;
      var o := Opener(ts[..n]);
      if DurationSince(ts[n], ts[o]) >= RATE_WINDOW then n else o
  }

  /** Whether the last of the hits is within the rate: its window has not yet seen more than the limit. */
  predicate HasRoom(limit: nat, ts: seq<Instant>)
    requires ts != []
  {
    limit == 0 || limit == U32_MAX || |ts| - Opener(ts) <= limit
  }

  /** The bucket some hits leave. */
  function BucketAfter(ts: seq<Instant>): Option<RateBucket>
  {
    if ts == [] then None else Some(Hit(BucketAfter(ts[..|ts| - 1]), ts[|ts| - 1]))
  }

  lemma {:induction false} BucketIs(ts: seq<Instant>)
    requires ts != []
    ensures var n := |ts| - Opener(ts);
            BucketAfter(ts) == Some(RateBucket(ts[Opener(ts)], if n < U32_MAX then n else U32_MAX))
  {
    var n := |ts| - 1;
    if n == 0 {
      assert ts[..0] == [] && BucketAfter([]) == None;
    } else {
      BucketIs(ts[..n]);
    }
  }

  /** The buckets after a run. */
  function BucketsAfter(g: GateConfig, m: Buckets, run: Run, hash: HashToken): Buckets
    decreases |run|
  {
    if run == [] then m else BucketsAfter(g, Decide(g, m, run[0].request, run[0].now, hash).1, run[1..], hash)
  }

  lemma {:induction false} OutcomeAt(g: GateConfig, m: Buckets, run: Run, hash: HashToken, i: nat)
    requires i < |run|
    ensures Outcomes(g, m, run, hash)[i] == Decide(g, BucketsAfter(g, m, run[..i], hash), run[i].request, run[i].now, hash).0
    decreases i
  {
    hide Decide;
    if i > 0 {
      var m' := Decide(g, m, run[0].request, run[0].now, hash).1;
      OutcomeAt(g, m', run[1..], hash, i - 1);
      assert run[1..][i - 1] == run[i] && run[..i][1..] == run[1..][..i - 1];
    }
  }

  /** Which requests reach the rate check with the token's digest: its own hits. */
  lemma ReachesIff(c: AdmissionConfig, who: Holder, r: HttpRequest, hash: HashToken)
    requires c.enabled && ValidConfig(c, hash) && Injective(hash) && Configured(c, who)
    ensures var reached := Reaches(GateOf(c, hash), r, hash);
            && (reached.Some? && reached.value.token.hash == hash(who.entry.token) <==> OwnHit(c, who, r))
            && (OwnHit(c, who, r) ==> reached == Some(who.AsIdentity(hash)))
  {
    hide IsPublicPath, PresentedToken, IsGatewayPath, ValidConfig, FromEntries;
    var g := GateOf(c, hash);
    IdentifiesConfigured(c, g, r, hash);
    var list := if who.isManagement then c.managementTokens else c.tokens;
    var i :| 0 <= i < |list| && list[i] == who.entry;
    if OwnHit(c, who, r) { assert Identify(g, r, hash) == Some(who.AsIdentity(hash)); }
    var reached := Reaches(g, r, hash);
    if reached.Some? && reached.value.token.hash == hash(who.entry.token) {
      IdentityHash(g, r, hash);
      assert PresentedToken(r) == Some(who.entry.token);
      assert Identify(g, r, hash) == Some(who.AsIdentity(hash));
    }
  }

  lemma IdentityHash(g: GateConfig, r: HttpRequest, hash: HashToken)
    ensures Identify(g, r, hash).Some? ==> PresentedToken(r).Some? && Identify(g, r, hash).value.token.hash == hash(PresentedToken(r).value)
  {
    hide PresentedToken, FindHash;
  }

  lemma BucketSnoc(ts: seq<Instant>, now: Instant)
    ensures BucketAfter(ts + [now]) == Some(Hit(BucketAfter(ts), now))
  {
    assert (ts + [now])[..|ts|] == ts;
  }

  /** The bucket of a token is what its own hits leave, whatever other requests do. */
  lemma {:induction false} OwnBucket(c: AdmissionConfig, who: Holder, m: Buckets, run: Run, hash: HashToken, ts: seq<Instant>)
    requires c.enabled && ValidConfig(c, hash) && Injective(hash) && Configured(c, who) && c.rateLimitPerMin != 0
    requires Lookup(m, hash(who.entry.token)) == BucketAfter(ts)
    ensures Lookup(BucketsAfter(GateOf(c, hash), m, run, hash), hash(who.entry.token)) == BucketAfter(ts + OwnHits(c, who, run))
    decreases |run|
  {
    hide Decide, Reaches, ValidConfig, Configured, OwnHit, FromEntries, BucketAfter;
    if run == [] {
      assert ts + [] == ts;
    } else {
      var g, r, now := GateOf(c, hash), run[0].request, run[0].now;
      ReachesIff(c, who, r, hash);
      ChargesOnlyItsToken(g, m, r, now, hash);
      var m' := Decide(g, m, r, now, hash).1;
      if OwnHit(c, who, r) {
        BucketSnoc(ts, now);
        OwnBucket(c, who, m', run[1..], hash, ts + [now]);
        assert ts + [now] + OwnHits(c, who, run[1..]) == ts + OwnHits(c, who, run);
      } else {
        OwnBucket(c, who, m', run[1..], hash, ts);
        assert OwnHits(c, who, run) == OwnHits(c, who, run[1..]);
      }
    }
  }

  lemma {:induction false} OwnHitsSnoc(c: AdmissionConfig, who: Holder, run: Run, a: Arrival)
    ensures OwnHits(c, who, run + [a]) == OwnHits(c, who, run) + if OwnHit(c, who, a.request) then [a.now] else []
  {
    hide OwnHit;
    if run == [] {
      assert run + [a] == [a] && [a][1..] == [];
    } else {
      assert (run + [a])[1..] == run[1..] + [a];
      OwnHitsSnoc(c, who, run[1..], a);
    }
  }

  /** An own hit is within the rate exactly when its window has room. */
  lemma {:induction false} RoomIff(c: AdmissionConfig, who: Holder, run: Run, i: nat, hash: HashToken)
    requires c.enabled && ValidConfig(c, hash) && Injective(hash) && Configured(c, who) && c.rateLimitPerMin <= U32_MAX
    requires i < |run| && OwnHit(c, who, run[i].request)
    ensures OwnHits(c, who, run[..i + 1]) != []
    ensures Admits(c.rateLimitPerMin, BucketsAfter(GateOf(c, hash), map[], run[..i], hash), Request(hash(who.entry.token), run[i].now))
            <==> HasRoom(c.rateLimitPerMin, OwnHits(c, who, run[..i + 1]))
  {
    hide OwnHit, ValidConfig, Configured, Hit, Opener, OwnHits, BucketsAfter;
    var before, now := OwnHits(c, who, run[..i]), run[i].now;
    assert run[..i + 1] == run[..i] + [run[i]];
    OwnHitsSnoc(c, who, run[..i], run[i]);
    if c.rateLimitPerMin != 0 {
      assert BucketAfter([]) == None;
      OwnBucket(c, who, map[], run[..i], hash, []);
      assert [] + before == before;
      BucketSnoc(before, now);
      BucketIs(before + [now]);
    }
  }

  /** The request is within the rate: the window of the token's own requests has room for it. */
  predicate WithinRate(c: AdmissionConfig, who: Holder, run: Run, i: nat)
    requires i < |run|
  {
    OwnHits(c, who, run[..i + 1]) != [] && HasRoom(c.rateLimitPerMin, OwnHits(c, who, run[..i + 1]))
  }

  /** The body is one the middleware reads, and longer than it may be. */
  predicate BodyTooLong(c: AdmissionConfig, r: HttpRequest) { BodyInspected(r) && r.bodyLen > c.maxBodyBytes }

  /**
   Who is admitted, in terms of the configuration and of the requests alone: the `i`-th request
   of a run is let through as the holder of a configured entry exactly when it presents that
   entry's token, on a path it may call, while the window of the token's own requests has room,
   with a body within bounds, and every project it names is covered by the entry.
   */
  lemma {:induction false} AdmittedInRunIff(c: AdmissionConfig, who: Holder, run: Run, i: nat, hash: HashToken)
    requires c.enabled && ValidConfig(c, hash) && Injective(hash) && Configured(c, who) && c.rateLimitPerMin <= U32_MAX
    requires i < |run|
    ensures var r := run[i].request;
            Outcomes(GateOf(c, hash), map[], run, hash)[i] == Admitted(who.AsIdentity(hash)) <==>
            && OwnHit(c, who, r)
            && WithinRate(c, who, run, i) && !BodyTooLong(c, r)
            && (forall id :: Names(r, id) ==> who.Covers(id))
  {
    hide Decide, Outcomes, BucketsAfter, OwnHit, OwnHits, ValidConfig, Admits, Names, HasRoom, FromEntries, Identify, IsPublicPath, IsGatewayPath, Configured;
    var g, r, now := GateOf(c, hash), run[i].request, run[i].now;
    var m := BucketsAfter(g, map[], run[..i], hash);
    OutcomeAt(g, map[], run, hash, i);
    AdmittedIff(g, m, r, now, hash, who.AsIdentity(hash));
    ReachesIff(c, who, r, hash);
    if OwnHit(c, who, r) { RoomIff(c, who, run, i, hash); }
  }

  // ---------------------------------------------------------------- who is rejected in a run, and why

  predicate Presents(r: HttpRequest, who: Holder) { PresentedToken(r) == Some(who.entry.token) }

  /** A configured holder's token makes a request the holder's. */
  lemma PresentedIsIdentified(c: AdmissionConfig, who: Holder, r: HttpRequest, hash: HashToken)
    requires c.enabled && ValidConfig(c, hash) && Injective(hash) && Configured(c, who) && Presents(r, who)
    ensures Identify(GateOf(c, hash), r, hash) == Some(who.AsIdentity(hash))
  {
    hide PresentedToken, ValidConfig, FromEntries, Identify;
    IdentifiesConfigured(c, GateOf(c, hash), r, hash);
    var list := if who.isManagement then c.managementTokens else c.tokens;
    var i :| 0 <= i < |list| && list[i] == who.entry;
  }

  /** Whoever is identified holds a configured entry whose token was presented. */
  lemma IdentifiedHolds(c: AdmissionConfig, r: HttpRequest, hash: HashToken) returns (who: Holder)
    requires c.enabled && ValidConfig(c, hash) && Injective(hash) && Identify(GateOf(c, hash), r, hash).Some?
    ensures Configured(c, who) && Presents(r, who) && Identify(GateOf(c, hash), r, hash) == Some(who.AsIdentity(hash))
  {
    hide PresentedToken, ValidConfig, FromEntries, Identify;
    IdentifiesConfigured(c, GateOf(c, hash), r, hash);
    if j :| 0 <= j < |c.managementTokens| && PresentedToken(r) == Some(c.managementTokens[j].token) {
      who := Holder(c.managementTokens[j], true);
    } else {
      var j :| 0 <= j < |c.tokens| && PresentedToken(r) == Some(c.tokens[j].token);
      who := Holder(c.tokens[j], false);
    }
  }

  lemma AllAllowedIff(who: Holder, r: HttpRequest, hash: HashToken)
    ensures AllAllowed(who.AsIdentity(hash).Ctx(), Candidates(r)) <==> forall id :: Names(r, id) ==> who.Covers(id)
  {
    hide ProjectIdFromPath, ScanPairs, Split;
    var ids, x := Candidates(r), who.AsIdentity(hash).Ctx();
    assert forall id :: Names(r, id) <==> id in ids;
    if AllAllowed(x, ids) {
      forall id | Names(r, id) ensures who.Covers(id) {
        var i :| 0 <= i < |ids| && ids[i] == id;
        assert x.AllowsProject(ids[i]);
      }
    } else {
      var i :| 0 <= i < |ids| && !x.AllowsProject(ids[i]);
      assert Names(r, ids[i]);
    }
  }

  /** A holder that names a project which its entry does not cover. */
  ghost predicate OutOfScope(who: Holder, r: HttpRequest)
  {
    exists id :: Names(r, id) && !who.Covers(id)
  }

  /** What becomes of a holder's request outside the public paths. */
  ghost function HolderDecision(c: AdmissionConfig, who: Holder, run: Run, i: nat, hash: HashToken): Outcome
    requires i < |run|
  {
    var r := run[i].request;
    if !OwnHit(c, who, r) then ScopeRejected
    else if !WithinRate(c, who, run, i) then RateRejected
    else if BodyTooLong(c, r) then BodyRejected
    else if OutOfScope(who, r) then ScopeRejected
    else Admitted(who.AsIdentity(hash))
  }

  /** In a run, a configured holder's requests fare as their own history says. */
  lemma {:induction false} HolderOutcome(c: AdmissionConfig, who: Holder, run: Run, i: nat, hash: HashToken)
    requires c.enabled && ValidConfig(c, hash) && Injective(hash) && Configured(c, who) && c.rateLimitPerMin <= U32_MAX
    requires i < |run| && Presents(run[i].request, who) && !IsPublicPath(run[i].request.path, c.publicPathPrefixes)
    ensures Outcomes(GateOf(c, hash), map[], run, hash)[i] == HolderDecision(c, who, run, i, hash)
  {
    hide Outcomes, BucketsAfter, OwnHits, HasRoom, ValidConfig, Admits, After, Names, Candidates, FromEntries, Identify, IsPublicPath, IsGatewayPath, Configured, PresentedToken;
    var g, r := GateOf(c, hash), run[i].request;
    OutcomeAt(g, map[], run, hash, i);
    PresentedIsIdentified(c, who, r, hash);
    AllAllowedIff(who, r, hash);
    if OwnHit(c, who, r) { RoomIff(c, who, run, i, hash); }
  }

  lemma {:induction false} NobodyOutcome(c: AdmissionConfig, run: Run, i: nat, hash: HashToken)
    requires i < |run|
    ensures var r, o := run[i].request, Outcomes(GateOf(c, hash), map[], run, hash)[i];
            && (o.Public? <==> IsPublicPath(r.path, c.publicPathPrefixes))
            && (!o.Public? && Identify(GateOf(c, hash), r, hash).None? ==> o.AuthRejected?)
  {
    hide Outcomes, BucketsAfter, Admits, After, Candidates, FromEntries, Identify, IsPublicPath, IsGatewayPath;
    OutcomeAt(GateOf(c, hash), map[], run, hash, i);
  }

  /**
   Why a request of a run is not let through, in terms of the configuration and of the requests
   alone: it presents no configured token; or it presents one, on a path that token may not call;
   or the window of the token's own requests is full; or there is room, but the body is too long;
   or the body is not, but the request names a project that the entry does not cover.
   */
  lemma {:induction false} RejectedInRunIff(c: AdmissionConfig, run: Run, i: nat, hash: HashToken)
    requires c.enabled && ValidConfig(c, hash) && Injective(hash) && c.rateLimitPerMin <= U32_MAX
    requires i < |run|
    ensures var r, o := run[i].request, Outcomes(GateOf(c, hash), map[], run, hash)[i];
            && (o.AuthRejected? <==> !IsPublicPath(r.path, c.publicPathPrefixes) && forall who :: Configured(c, who) ==> !Presents(r, who))
            && (o.RateRejected? <==> exists who :: Configured(c, who) && OwnHit(c, who, r) && !WithinRate(c, who, run, i))
            && (o.BodyRejected? <==> exists who :: Configured(c, who) && OwnHit(c, who, r) && WithinRate(c, who, run, i) && BodyTooLong(c, r))
            && (o.ScopeRejected? <==>
                  && !IsPublicPath(r.path, c.publicPathPrefixes)
                  && exists who :: Configured(c, who) && Presents(r, who)
                       && (OwnHit(c, who, r) ==> WithinRate(c, who, run, i) && !BodyTooLong(c, r) && OutOfScope(who, r)))
  {
    hide Outcomes, OwnHit, Presents, Configured, WithinRate, ValidConfig, Names, FromEntries, Identify, IsPublicPath;
    var g, r := GateOf(c, hash), run[i].request;
    NobodyOutcome(c, run, i, hash);
    HitsPresent(c, r);
    if !IsPublicPath(r.path, c.publicPathPrefixes) {
      forall who | Configured(c, who) && Presents(r, who) ensures Identify(g, r, hash).Some? { PresentedIsIdentified(c, who, r, hash); }
      if Identify(g, r, hash).Some? { var who := IdentifiedHolds(c, r, hash); }
      forall who | Configured(c, who) && Presents(r, who)
        ensures Outcomes(g, map[], run, hash)[i] == HolderDecision(c, who, run, i, hash)
      {
        HolderOutcome(c, who, run, i, hash);
      }
    }
  }

  lemma HitsPresent(c: AdmissionConfig, r: HttpRequest)
    ensures forall who :: OwnHit(c, who, r) ==> Presents(r, who) && !IsPublicPath(r.path, c.publicPathPrefixes)
  {
    hide IsPublicPath, PresentedToken, IsGatewayPath;
  }

  // ---------------------------------------------------------------- where a gateway token may go, and with what body

  /** In a run, a gateway token's request to a path without `/ingest/` before its query is rejected, whatever its projects. */
  lemma {:induction false} GatewayTokenStaysInIngest(c: AdmissionConfig, who: Holder, run: Run, i: nat, hash: HashToken)
    requires c.enabled && ValidConfig(c, hash) && Injective(hash) && Configured(c, who) && c.rateLimitPerMin <= U32_MAX
    requires i < |run| && Presents(run[i].request, who) && !IsPublicPath(run[i].request.path, c.publicPathPrefixes)
    requires !who.isManagement && !HasBeforeQuery(run[i].request.path, "/ingest/")
    ensures Outcomes(GateOf(c, hash), map[], run, hash)[i] == ScopeRejected
  {
    hide Outcomes, ValidConfig, Configured, Presents, IsPublicPath, IsGatewayPath, WithinRate, FromEntries, Names;
    HolderOutcome(c, who, run, i, hash);
    GatewayPathIff(run[i].request.path);
  }

  /** So to every project route of the API but the four ingest routes, for any project and with any query. */
  lemma {:induction false} GatewayTokenOnRoute(c: AdmissionConfig, who: Holder, run: Run, i: nat, hash: HashToken, k: nat, projectId: int, ps: Params)
    requires c.enabled && ValidConfig(c, hash) && Injective(hash) && Configured(c, who) && c.rateLimitPerMin <= U32_MAX
    requires i < |run| && Presents(run[i].request, who) && !IsPublicPath(run[i].request.path, c.publicPathPrefixes)
    requires k < |TEMPLATE_SUFFIXES| == |TEMPLATE_SEGMENTS| && ValidParams(ps)
    requires run[i].request.path == Built(ExpandProject(PROJECT_DETAIL_TEMPLATE + TEMPLATE_SUFFIXES[k], projectId), ps)
    ensures !who.isManagement && !IsIngestRoute(TEMPLATE_SEGMENTS[k]) ==> Outcomes(GateOf(c, hash), map[], run, hash)[i] == ScopeRejected
    ensures who.isManagement || IsIngestRoute(TEMPLATE_SEGMENTS[k]) ==> OwnHit(c, who, run[i].request)
  {
    hide Outcomes, ValidConfig, Configured, IsPublicPath, IsGatewayPath, WithinRate, FromEntries, Names, ExpandProject, Built, TEMPLATE_SUFFIXES, TEMPLATE_SEGMENTS, PresentedToken, IsIngestRoute;
    HolderOutcome(c, who, run, i, hash);
    RouteIsGatewayIff(k, projectId, ps);
  }

  /** A public path is a prefix of the configuration, alone or with whole segments behind it. */
  lemma PublicPathIff(path: string, prefixes: seq<string>)
    ensures IsPublicPath(path, prefixes) <==> exists i :: 0 <= i < |prefixes| && prefixes[i] <= path && StartsSegment(path[|prefixes[i]|..])
  {
    forall i | 0 <= i < |prefixes|
      ensures (path == prefixes[i] || prefixes[i] + "/" <= path) <==> prefixes[i] <= path && StartsSegment(path[|prefixes[i]|..])
    {
      var p := prefixes[i];
      if p <= path {
        assert path == p + path[|p|..];
        if path[|p|..] == "" { assert path == p; }
      }
    }
  }

  /** The bodies the middleware reads: JSON, with or without parameters of the type, and not of a GET. */
  lemma BodyInspectedIff(r: HttpRequest, contentType: string)
    requires r.contentType == Some(contentType)
    ensures BodyInspected(r) <==> !r.isGet && exists parameters :: contentType == "application/json" + parameters
  {
    if "application/json" <= contentType { assert contentType == "application/json" + contentType[|"application/json"|..]; }
  }

  /** In a run, a JSON body over the bound is rejected, and one that names a project not covered is; a GET's is neither. */
  lemma {:induction false} JsonBodyIsChecked(c: AdmissionConfig, who: Holder, run: Run, i: nat, hash: HashToken, parameters: string, id: int)
    requires c.enabled && ValidConfig(c, hash) && Injective(hash) && Configured(c, who) && c.rateLimitPerMin <= U32_MAX
    requires i < |run| && OwnHit(c, who, run[i].request) && WithinRate(c, who, run, i)
    requires run[i].request.contentType == Some("application/json" + parameters)
    ensures var r, o := run[i].request, Outcomes(GateOf(c, hash), map[], run, hash)[i];
            && (o == BodyRejected <==> !r.isGet && r.bodyLen > c.maxBodyBytes)
            && (!r.isGet && 0 < r.bodyLen <= c.maxBodyBytes && r.bodyProject == Some(id) && !who.Covers(id) ==> o == ScopeRejected)
  {
    hide Outcomes, ValidConfig, Configured, OwnHit, WithinRate, FromEntries, IsPublicPath, ProjectIdFromPath, ScanPairs, Split;
    HitsPresent(c, run[i].request);
    HolderOutcome(c, who, run, i, hash);
    BodyInspectedIff(run[i].request, "application/json" + parameters);
    if run[i].request.bodyProject == Some(id) && BodyInspected(run[i].request) && run[i].request.bodyLen != 0 { assert Names(run[i].request, id); }
  }

  // ---------------------------------------------------------------- whether the scope is enforced

  /** The project ids a request mentions: in its path, in any pair of its query, in its body. */
  predicate Mentions(r: HttpRequest, id: int)
  {
    || ProjectIdFromPath(r.path) == Some(id)
    || (r.query.Some? && NamesProject(Split(r.query.value, '&'), id))
    || (BodyInspected(r) && r.bodyLen != 0 && r.bodyProject == Some(id))
  }

  lemma NamesAreMentioned(r: HttpRequest)
    ensures forall id :: Names(r, id) ==> Mentions(r, id)
    ensures (r.query.Some? ==> AllNamedAreRead(Split(r.query.value, '&'))) ==> forall id :: Mentions(r, id) ==> Names(r, id)
  {
    hide ProjectIdFromPath, ScanPairs, NamesProject, Split, BodyInspected;
    forall id | Names(r, id) ensures Mentions(r, id) {
      if r.query.Some? && ScanPairs(Split(r.query.value, '&')) == Some(id) { ReadIsNamed(Split(r.query.value, '&'), id); }
    }
  }

  /** Whatever the token, a request that passes the checks mentions only projects that the token covers. */
  ghost predicate ScopeIsEnforced(r: HttpRequest)
  {
    forall x: Context :: AllAllowed(x, Candidates(r)) ==> forall id :: Mentions(r, id) ==> x.AllowsProject(id)
  }

  /** That is so exactly when every id mentioned is one of those the middleware reads. */
  lemma ScopeIsEnforcedIff(r: HttpRequest)
    ensures ScopeIsEnforced(r) <==> forall id :: Mentions(r, id) ==> Names(r, id)
  {
    hide ProjectIdFromPath, ScanPairs, Split, NamesProject, Mentions;
    var ids := Candidates(r);
    assert forall id :: Names(r, id) <==> id in ids;
    if ScopeIsEnforced(r) {
      var x := Context(ids, false);
      assert AllAllowed(x, ids);
      forall id | Mentions(r, id) ensures Names(r, id) { assert x.AllowsProject(id); }
    }
    if forall id :: Mentions(r, id) ==> Names(r, id) {
      forall x: Context, id | AllAllowed(x, ids) && Mentions(r, id) ensures x.AllowsProject(id) {
        var i :| 0 <= i < |ids| && ids[i] == id;
      }
    }
  }

  /** In a run, who is admitted covers every project mentioned, if the query's projects are all read. */
  lemma {:induction false} AdmittedWithinScope(c: AdmissionConfig, who: Holder, run: Run, i: nat, hash: HashToken)
    requires c.enabled && ValidConfig(c, hash) && Injective(hash) && Configured(c, who) && c.rateLimitPerMin <= U32_MAX
    requires i < |run| && Outcomes(GateOf(c, hash), map[], run, hash)[i] == Admitted(who.AsIdentity(hash))
    requires var query := run[i].request.query; query.Some? ==> AllNamedAreRead(Split(query.value, '&'))
    ensures forall id :: Mentions(run[i].request, id) ==> who.Covers(id)
  {
    hide Outcomes, ValidConfig, Configured, OwnHit, WithinRate, Names, Mentions, AllNamedAreRead, Split, FromEntries;
    AdmittedInRunIff(c, who, run, i, hash);
    NamesAreMentioned(run[i].request);
  }

  /** The query `x&project_id=9` is let through for every token that the rest of the request fits, whether it covers 9 or not. */
  lemma {:induction false} UncheckedProjectIsAdmitted(c: AdmissionConfig, who: Holder, run: Run, i: nat, hash: HashToken)
    requires c.enabled && ValidConfig(c, hash) && Injective(hash) && Configured(c, who) && c.rateLimitPerMin <= U32_MAX
    requires i < |run| && OwnHit(c, who, run[i].request) && WithinRate(c, who, run, i) && !BodyTooLong(c, run[i].request)
    requires var r := run[i].request;
             && r.query == Some("x&project_id=9")
             && forall id :: Names(r.(query := None), id) ==> who.Covers(id)
    ensures Outcomes(GateOf(c, hash), map[], run, hash)[i] == Admitted(who.AsIdentity(hash)) && Mentions(run[i].request, 9)
  {
    hide Outcomes, ValidConfig, Configured, OwnHit, WithinRate, BodyTooLong, ScanPairs, NamesProject, Split, FromEntries, ProjectIdFromPath;
    NamedButNotRead();
    AdmittedInRunIff(c, who, run, i, hash);
    var r := run[i].request;
    forall id | Names(r, id) ensures who.Covers(id) { assert Names(r.(query := None), id); }
  }

  /** Nobody else is admitted. */
  lemma {:induction false} OnlyHoldersAdmitted(c: AdmissionConfig, run: Run, i: nat, hash: HashToken)
    requires c.enabled && ValidConfig(c, hash) && Injective(hash) && i < |run|
    ensures var o := Outcomes(GateOf(c, hash), map[], run, hash)[i];
            o.Admitted? ==> exists who :: Configured(c, who) && o.who == who.AsIdentity(hash)
  {
    hide Decide, Outcomes, BucketsAfter, ValidConfig, Admits, FromEntries, Identify, IsPublicPath, IsGatewayPath, PresentedToken;
    var g, r, now := GateOf(c, hash), run[i].request, run[i].now;
    var m := BucketsAfter(g, map[], run[..i], hash);
    OutcomeAt(g, map[], run, hash, i);
    var o := Outcomes(g, map[], run, hash)[i];
    if o.Admitted? {
      AdmittedIff(g, m, r, now, hash, o.who);
      IdentifiesConfigured(c, g, r, hash);
      if j :| 0 <= j < |c.managementTokens| && PresentedToken(r) == Some(c.managementTokens[j].token) {
        assert Configured(c, Holder(c.managementTokens[j], true));
        assert o.who == Holder(c.managementTokens[j], true).AsIdentity(hash);
      } else {
        var j :| 0 <= j < |c.tokens| && PresentedToken(r) == Some(c.tokens[j].token);
        assert Configured(c, Holder(c.tokens[j], false));
        assert o.who == Holder(c.tokens[j], false).AsIdentity(hash);
      }
    }
  }
}
