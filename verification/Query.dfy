/**
 Query strings: the client's printer (crates/app/cce-transport/src/query.rs) and the
 admission layer's reader of `project_id` (crates/app/cce-admission/src/middleware.rs).

 A Rust string is the sequence of its UTF-8 bytes, each written as the character of that code.
 */
module Query {
  import opened Text

  predicate IsBytes(s: string) { forall i :: 0 <= i < |s| ==> s[i] as int < 256 }

  // ---------------------------------------------------------------- percent encoding

  /** The unreserved characters of RFC 3986, section 2.3. */
  predicate Unreserved(c: char)
  {
    'A' <= c <= 'Z' || 'a' <= c <= 'z' || '0' <= c <= '9' || c == '-' || c == '_' || c == '.' || c == '~'
  }

  /** An upper-case hexadecimal digit, as `{:02X}` prints it. */
  function HexDigit(n: nat): char
    requires n < 16
  {
    if n < 10 then ('0' as nat + n) as char else ('A' as nat + (n - 10)) as char
  }

  lemma HexDigitValue(n: nat)
    requires n < 16
    ensures HexValue(HexDigit(n)) == Some(n) && Unreserved(HexDigit(n))
  {}

  function EncodeByte(b: char): string
    requires b as int < 256
  {
    if Unreserved(b) then [b] else ['%', HexDigit(b as nat / 16), HexDigit(b as nat % 16)]
  }

  function Encode(raw: string): string
    requires IsBytes(raw)
  {
    if raw == "" then "" else EncodeByte(raw[0]) + Encode(raw[1..])
  }

  lemma {:induction false} EncodeSnoc(raw: string, b: char)
    requires IsBytes(raw) && b as int < 256
    ensures Encode(raw + [b]) == Encode(raw) + EncodeByte(b)
  {
    if raw == "" {
      assert raw + [b] == [b];
      assert [b][1..] == "";
    } else {
      assert (raw + [b])[1..] == raw[1..] + [b];
      EncodeSnoc(raw[1..], b);
    }
  }

  /** `urlencoding_sanitize`. */
  method UrlencodingSanitize(raw: string) returns (out: string)
    requires IsBytes(raw)
    ensures out == Encode(raw)
  {
    out := "";
    for i := 0 to |raw|
      invariant out == Encode(raw[..i])
    {
      var byte := raw[i];
      if Unreserved(byte) {
        out := out + [byte];
      } else {
        out := out + ['%', HexDigit(byte as nat / 16), HexDigit(byte as nat % 16)];
      }
      EncodeSnoc(raw[..i], byte);
      assert raw[..i + 1] == raw[..i] + [byte];
    }
    assert raw[..|raw|] == raw;
  }

  /** Percent-decoding (RFC 3986, section 2.1); a `%` without two digits is malformed. */
  function Decode(s: string): Option<string>
    decreases |s|
  {
    if s == "" then Some("")
    else if s[0] != '%' then
      match Decode(s[1..])
      case None => None
      case Some(t) => Some([s[0]] + t)
    else if |s| < 3 then None
    else
      match (HexValue(s[1]), HexValue(s[2]), Decode(s[3..]))
      case (Some(h), Some(l), Some(t)) => Some([(16 * h + l) as char] + t)
      case _ => None
  }

  /** What the encoder may write: unreserved characters, and upper-case escapes of the others. */
  predicate Canonical(s: string)
    decreases |s|
  {
    s == ""
    || (Unreserved(s[0]) && Canonical(s[1..]))
    || ( && s[0] == '%' && |s| >= 3
         && IsUpperHex(s[1]) && IsUpperHex(s[2])
         && !Unreserved((16 * HexValue(s[1]).value + HexValue(s[2]).value) as char)
         && Canonical(s[3..]))
  }

  predicate IsUpperHex(c: char) { '0' <= c <= '9' || 'A' <= c <= 'F' }

  lemma EscapeReadsBack(b: char, t: string)
    requires b as int < 256 && !Unreserved(b) && Decode(t).Some? && Canonical(t)
    ensures Decode(EncodeByte(b) + t) == Some([b] + Decode(t).value) && Canonical(EncodeByte(b) + t)
  {
    HexDigitValue(b as nat / 16);
    HexDigitValue(b as nat % 16);
    assert (EncodeByte(b) + t)[3..] == t;
  }

  /** Decoding inverts encoding, and the encoder writes only canonical text. */
  lemma {:induction false} DecodeEncode(raw: string)
    requires IsBytes(raw)
    ensures Decode(Encode(raw)) == Some(raw) && Canonical(Encode(raw))
  {
    if raw != "" {
      var b, t := raw[0], Encode(raw[1..]);
      DecodeEncode(raw[1..]);
      assert raw == [b] + raw[1..];
      if Unreserved(b) {
        assert (EncodeByte(b) + t)[1..] == t;
      } else {
        EscapeReadsBack(b, t);
      }
    }
  }

  /** A canonical escape is what the encoder writes for its byte. */
  lemma EscapeDecodes(s: string, t: string)
    requires |s| >= 3 && s[0] == '%' && IsUpperHex(s[1]) && IsUpperHex(s[2])
    requires !Unreserved((16 * HexValue(s[1]).value + HexValue(s[2]).value) as char)
    requires Decode(s[3..]) == Some(t) && IsBytes(t) && Encode(t) == s[3..]
    ensures Decode(s).Some? && IsBytes(Decode(s).value) && Encode(Decode(s).value) == s
  {
    hide Encode, IsBytes;
    var h, l := HexValue(s[1]).value, HexValue(s[2]).value;
    var b := (16 * h + l) as char;
    assert Decode(s) == Some([b] + t);
    EscapeOf(s[1], s[2]);
    BytesCons(b, t);
    EncodeCons(b, t);
    assert s == ['%', s[1], s[2]] + s[3..];
  }

  lemma EscapeOf(c: char, d: char)
    requires IsUpperHex(c) && IsUpperHex(d)
    ensures var b := (16 * HexValue(c).value + HexValue(d).value) as char;
            !Unreserved(b) ==> EncodeByte(b) == ['%', c, d]
  {}

  lemma BytesCons(b: char, t: string)
    requires b as int < 256 && IsBytes(t)
    ensures IsBytes([b] + t)
  {}

  lemma EncodeCons(b: char, t: string)
    requires b as int < 256 && IsBytes(t)
    ensures Encode([b] + t) == EncodeByte(b) + Encode(t)
  {
    assert ([b] + t)[1..] == t;
  }

  /** Encoding inverts decoding on canonical text: the encoder's image is all of it. */
  lemma {:induction false} EncodeDecode(s: string)
    requires Canonical(s)
    ensures Decode(s).Some? && IsBytes(Decode(s).value) && Encode(Decode(s).value) == s
    decreases |s|
  {
    hide Encode;
    if s == "" {
      EncodeNothing();
    } else if Unreserved(s[0]) {
      EncodeDecode(s[1..]);
      EncodeCons(s[0], Decode(s[1..]).value);
      assert s == [s[0]] + s[1..];
    } else {
      EncodeDecode(s[3..]);
      EscapeDecodes(s, Decode(s[3..]).value);
    }
  }

  lemma EncodeNothing()
    ensures Encode("") == ""
  {}

  lemma {:induction false} CanonicalChars(s: string)
    requires Canonical(s)
    ensures forall i :: 0 <= i < |s| ==> Unreserved(s[i]) || s[i] == '%'
    decreases |s|
  {
    if s != "" { CanonicalChars(if s[0] == '%' then s[3..] else s[1..]); }
  }

  /** No separator of a query survives encoding. */
  lemma EncodedHasNoSeparator(raw: string)
    requires IsBytes(raw)
    ensures '&' !in Encode(raw) && '=' !in Encode(raw) && '?' !in Encode(raw)
  {
    hide Encode, Decode, Canonical;
    DecodeEncode(raw);
    CanonicalChars(Encode(raw));
  }

  // ---------------------------------------------------------------- the query builder

  datatype QueryParam =
    | Text(text: string)
    | Number(number: nat)
    | Bool(flag: bool)
    | List(items: seq<string>)
  {
    predicate Valid()
    {
      match this
      case Text(t) => IsBytes(t)
      case Number(n) => n <= U64_MAX
      case Bool(_) => true
      case List(items) => forall i :: 0 <= i < |items| ==> IsBytes(items[i])
    }

    function Render(): string
      requires Valid()
    {
      match this
      case Text(t) => Encode(t)
      case Number(n) => NatToString(n)
      case Bool(b) => if b then "true" else "false"
      case List(items) => JoinIsBytes(items); Encode(Join(items, ','))
    }
  }

  lemma {:induction false} JoinIsBytes(items: seq<string>)
    requires forall i :: 0 <= i < |items| ==> IsBytes(items[i])
    ensures IsBytes(Join(items, ','))
  {
    if |items| > 1 { JoinIsBytes(items[1..]); }
  }

  lemma RenderHasNoSeparator(v: QueryParam)
    requires v.Valid()
    ensures '&' !in v.Render() && '=' !in v.Render() && '?' !in v.Render()
  {
    match v {
      case Text(t) => EncodedHasNoSeparator(t);
      case Number(n) =>
      case Bool(_) =>
      case List(items) =>
        JoinIsBytes(items);
        EncodedHasNoSeparator(Join(items, ','));
    }
  }

  type Params = seq<(string, QueryParam)>

  predicate ValidParams(ps: Params) { forall i :: 0 <= i < |ps| ==> ps[i].1.Valid() }

  /** Keys are written as they are, so they must hold no separator. */
  predicate CleanKeys(ps: Params) { forall i :: 0 <= i < |ps| ==> '&' !in ps[i].0 && '=' !in ps[i].0 }

  function Pair(p: (string, QueryParam)): string
    requires p.1.Valid()
  {
    p.0 + ['='] + p.1.Render()
  }

  function Pairs(ps: Params): (r: seq<string>)
    requires ValidParams(ps)
    ensures |r| == |ps| && forall i :: 0 <= i < |r| ==> r[i] == Pair(ps[i])
  {
    if ps == [] then [] else [Pair(ps[0])] + Pairs(ps[1..])
  }

  function Built(path: string, ps: Params): string
    requires ValidParams(ps)
  {
    if ps == [] then path else path + ['?'] + Join(Pairs(ps), '&')
  }

  lemma {:induction false} JoinSnoc(parts: seq<string>, p: string, c: char)
    requires parts != []
    ensures Join(parts + [p], c) == Join(parts, c) + [c] + p
  {
    if |parts| == 1 {
      assert (parts + [p])[1..] == [p];
    } else {
      assert (parts + [p])[1..] == parts[1..] + [p];
      JoinSnoc(parts[1..], p, c);
    }
  }

  /** `GraphQuery`: a path and the parameters appended so far. */
  class GraphQuery {
    const path: string
    var params: Params

    constructor (path: string)
      ensures this.path == path && params == []
    {
      this.path := path;
      params := [];
    }

    method Param(key: string, value: QueryParam)
      requires value.Valid() && ValidParams(params)
      modifies this`params
      ensures params == old(params) + [(key, value)] && ValidParams(params)
    {
      params := params + [(key, value)];
    }

    method Build() returns (out: string)
      requires ValidParams(params)
      ensures out == Built(path, params)
    {
      if |params| == 0 { return path; }
      out := path + ['?'];
      var first := true;
      for i := 0 to |params|
        invariant first == (i == 0)
        invariant out == path + ['?'] + Join(Pairs(params)[..i], '&')
      {
        AppendPair(path + ['?'], Pairs(params), i, params[i].0, params[i].1.Render());
        if !first {
          out := out + ['&'];
        }
        first := false;
        out := out + params[i].0;
        out := out + ['='];
        out := out + params[i].1.Render();
      }
      assert Pairs(params)[..|params|] == Pairs(params);
    }
  }

  /** One round of the builder's loop, on the text written so far. */
  lemma AppendPair(start: string, parts: seq<string>, i: nat, key: string, value: string)
    requires i < |parts| && parts[i] == key + ['='] + value
    ensures start + Join(parts[..i + 1], '&')
            == start + Join(parts[..i], '&') + (if i == 0 then [] else ['&']) + key + ['='] + value
  {
    assert parts[..i + 1] == parts[..i] + [parts[i]];
    if i > 0 { JoinSnoc(parts[..i], parts[i], '&'); }
  }

  // ---------------------------------------------------------------- reading a built query

  /** Reads a URL back: the path, and each `key=value` of its query with the value still encoded. */
  function ReadUrl(url: string): (string, seq<Option<(string, string)>>)
  {
    match SplitOnce(url, '?')
    case None => (url, [])
    case Some((path, query)) => (path, SplitPairs(Split(query, '&')))
  }

  function SplitPairs(parts: seq<string>): (r: seq<Option<(string, string)>>)
    ensures |r| == |parts| && forall i :: 0 <= i < |r| ==> r[i] == SplitOnce(parts[i], '=')
  {
    if parts == [] then [] else [SplitOnce(parts[0], '=')] + SplitPairs(parts[1..])
  }

  /** The path and every parameter come back in order, values as they were rendered. */
  lemma ReadBuilt(path: string, ps: Params)
    requires ValidParams(ps) && CleanKeys(ps) && '?' !in path
    ensures var (p, pairs) := ReadUrl(Built(path, ps));
            && p == path && |pairs| == |ps|
            && forall i :: 0 <= i < |ps| ==> pairs[i] == Some((ps[i].0, ps[i].1.Render()))
  {
    if ps != [] {
      var parts := Pairs(ps);
      SplitOnceAfter(path, '?', Join(parts, '&'));
      forall i | 0 <= i < |ps| ensures '&' !in parts[i] && SplitOnce(parts[i], '=') == Some((ps[i].0, ps[i].1.Render())) {
        RenderHasNoSeparator(ps[i].1);
        SplitOnceAfter(ps[i].0, '=', ps[i].1.Render());
      }
      SplitJoin(parts, '&');
    }
  }

  /** What a reader that knows the parameter's kind makes of its rendered text. */
  function ReadAs(kind: QueryParam, rendered: string): Option<QueryParam>
  {
    match kind
    case Text(_) => (match Decode(rendered) case None => None case Some(t) => Some(Text(t)))
    case Number(_) => (match ParseU64(rendered) case None => None case Some(n) => Some(Number(n)))
    case Bool(_) => if rendered == "true" then Some(Bool(true)) else if rendered == "false" then Some(Bool(false)) else None
    case List(_) => (match Decode(rendered) case None => None case Some(t) => Some(List(Split(t, ','))))
  }

  /** A list can be told from its joined text exactly when it is non-empty and comma-free. */
  predicate Separable(v: QueryParam)
  {
    v.List? ==> v.items != [] && forall i :: 0 <= i < |v.items| ==> ',' !in v.items[i]
  }

  lemma RenderedValueReadsBackIff(v: QueryParam)
    requires v.Valid()
    ensures ReadAs(v, v.Render()) == Some(v) <==> Separable(v)
  {
    match v {
      case Text(t) => DecodeEncode(t);
      case Number(n) => ParseU64OfNat(n);
      case Bool(_) =>
      case List(items) =>
        JoinIsBytes(items);
        DecodeEncode(Join(items, ','));
        if Separable(v) { SplitJoin(items, ','); }
    }
  }

  // ---------------------------------------------------------------- the admission layer's reader

  /** The scan of `project_id_from_query`: it gives up at the first pair without `=`. */
  function ScanPairs(parts: seq<string>): Option<int>
  {
    if parts == [] then None
    else
      match SplitOnce(parts[0], '=')
      case None => None
      case Some((key, value)) => if key == "project_id" then ParseI64(value) else ScanPairs(parts[1..])
  }

  /** `project_id_from_query`. */
  method ProjectIdFromQuery(query: Option<string>) returns (r: Option<int>)
    ensures r == if query.None? then None else ScanPairs(Split(query.value, '&'))
  {
    if query.None? { return None; }
    var pairs := Split(query.value, '&');
    for i := 0 to |pairs|
      invariant ScanPairs(pairs) == ScanPairs(pairs[i..])
    {
      match SplitOnce(pairs[i], '=') {
        case None => return None;
        case Some((key, value)) =>
          if key == "project_id" { return ParseI64(value); }
      }
      assert pairs[i..][1..] == pairs[i + 1..];
    }
    return None;
  }

  /** The first parameter with the key. */
  function FirstWith(key: string, ps: Params): (r: Option<QueryParam>)
    requires ValidParams(ps)
    ensures r.Some? ==> r.value.Valid()
  {
    if ps == [] then None else if ps[0].0 == key then Some(ps[0].1) else FirstWith(key, ps[1..])
  }

  /** The query part of a built URL. */
  function QueryOf(url: string): Option<string>
  {
    match SplitOnce(url, '?')
    case None => None
    case Some((_, q)) => Some(q)
  }

  lemma {:induction false} ScanOfPairs(ps: Params)
    requires ValidParams(ps) && CleanKeys(ps)
    ensures ScanPairs(Pairs(ps)) == match FirstWith("project_id", ps)
                                    case None => None
                                    case Some(v) => ParseI64(v.Render())
  {
    if ps != [] {
      SplitOnceAfter(ps[0].0, '=', ps[0].1.Render());
      assert Pairs(ps)[1..] == Pairs(ps[1..]);
      ScanOfPairs(ps[1..]);
    }
  }

  /** What the admission layer reads from a URL. */
  function QueryProject(url: string): Option<int>
  {
    match QueryOf(url)
    case None => None
    case Some(q) => ScanPairs(Split(q, '&'))
  }

  /**
   From any built URL the reader gets the first `project_id` number when it fits an `i64`,
   and nothing when no parameter has that key.
   */
  lemma ProjectIdOfBuilt(path: string, ps: Params)
    requires ValidParams(ps) && CleanKeys(ps) && '?' !in path
    ensures match FirstWith("project_id", ps)
            case None => QueryProject(Built(path, ps)) == None
            case Some(Number(n)) => QueryProject(Built(path, ps)) == if n <= I64_MAX then Some(n) else None
            case Some(v) => QueryProject(Built(path, ps)) == ParseI64(v.Render())
  {
    if ps != [] {
      var parts := Pairs(ps);
      SplitOnceAfter(path, '?', Join(parts, '&'));
      forall i | 0 <= i < |ps| ensures '&' !in parts[i] { RenderHasNoSeparator(ps[i].1); }
      SplitJoin(parts, '&');
      ScanOfPairs(ps);
      var v := FirstWith("project_id", ps);
      if v.Some? && v.value.Number? {
        ParseI64OfInt(v.value.number);
      }
    }
  }

  // ---------------------------------------------------------------- the projects a query names

  const PROJECT_KEY := "project_id="

  /** The id a pair of a query names, if it is a project id that is a number. */
  function PairProject(pair: string): Option<int>
  {
    if PROJECT_KEY <= pair then ParseI64(pair[|PROJECT_KEY|..]) else None
  }

  /** The project ids the pairs of a query name. */
  predicate NamesProject(pairs: seq<string>, id: int)
  {
    exists i :: 0 <= i < |pairs| && PairProject(pairs[i]) == Some(id)
  }

  /** The reader looks at a pair as a reader of `project_id=` does, but gives up without an equals sign. */
  lemma PairKey(pair: string)
    ensures SplitOnce(pair, '=').None? ==> !(PROJECT_KEY <= pair)
    ensures SplitOnce(pair, '=').Some? ==>
              (SplitOnce(pair, '=').value.0 == "project_id" <==> PROJECT_KEY <= pair)
              && (PROJECT_KEY <= pair ==> SplitOnce(pair, '=').value.1 == pair[|PROJECT_KEY|..])
  {
    hide SplitOnce;
    var split := SplitOnce(pair, '=');
    if split.Some? && split.value.0 == "project_id" { assert pair == PROJECT_KEY + split.value.1; }
    if PROJECT_KEY <= pair {
      var value := pair[|PROJECT_KEY|..];
      assert pair == "project_id" + ['='] + value;
      SplitOnceAfter("project_id", '=', value);
    }
  }

  /** The first pair with the key. */
  predicate IsFirstProject(pairs: seq<string>, first: nat)
  {
    first < |pairs| && PROJECT_KEY <= pairs[first] && forall i :: 0 <= i < first ==> !(PROJECT_KEY <= pairs[i])
  }

  /** What the reader gets: the first pair's id, if every pair before it has an equals sign. */
  lemma {:induction false} ScanStopsAtFirst(pairs: seq<string>, first: nat)
    requires IsFirstProject(pairs, first)
    ensures ScanPairs(pairs) == if forall i :: 0 <= i < first ==> '=' in pairs[i] then PairProject(pairs[first]) else None
    decreases first
  {
    hide SplitOnce, ParseI64;
    PairKey(pairs[0]);
    if first > 0 {
      ScanStopsAtFirst(pairs[1..], first - 1);
      assert forall i :: 0 <= i < first - 1 ==> pairs[1..][i] == pairs[i + 1];
      assert forall i :: 1 <= i < first ==> pairs[i] == pairs[1..][i - 1];
    }
  }

  lemma {:induction false} ScanFindsNone(pairs: seq<string>)
    requires forall i :: 0 <= i < |pairs| ==> !(PROJECT_KEY <= pairs[i])
    ensures ScanPairs(pairs) == None
  {
    hide SplitOnce, ParseI64;
    if pairs != [] {
      PairKey(pairs[0]);
      ScanFindsNone(pairs[1..]);
    }
  }

  /** Every project id that the pairs name is the one the reader gets. */
  ghost predicate AllNamedAreRead(pairs: seq<string>)
  {
    forall id :: NamesProject(pairs, id) ==> ScanPairs(pairs) == Some(id)
  }

  /**
   The reader gets every project id that a query names exactly when it names none, or when every
   pair before the first `project_id` has an equals sign, that one's value is a number that fits
   an `i64`, and each later one's value repeats it or is no such number.
   */
  lemma AllNamedAreReadIff(pairs: seq<string>, first: nat)
    requires IsFirstProject(pairs, first)
    ensures AllNamedAreRead(pairs) <==>
            || (forall i :: first <= i < |pairs| ==> PairProject(pairs[i]).None?)
            || ( && (forall i :: 0 <= i < first ==> '=' in pairs[i])
                 && PairProject(pairs[first]).Some?
                 && forall i :: first < i < |pairs| ==> PairProject(pairs[i]).None? || PairProject(pairs[i]) == PairProject(pairs[first]))
  {
    hide ScanPairs, PairProject;
    ScanStopsAtFirst(pairs, first);
    NoneBefore(pairs, first);
    if AllNamedAreRead(pairs) {
      forall i | 0 <= i < |pairs| && PairProject(pairs[i]).Some? ensures ScanPairs(pairs) == PairProject(pairs[i]) {
        assert NamesProject(pairs, PairProject(pairs[i]).value);
      }
    }
  }

  lemma NoneBefore(pairs: seq<string>, first: nat)
    requires IsFirstProject(pairs, first)
    ensures forall i :: 0 <= i < first ==> PairProject(pairs[i]).None?
  {
    hide ParseI64;
  }

  /** Without such a pair nothing is named and nothing is read. */
  lemma NothingNamed(pairs: seq<string>)
    requires forall i :: 0 <= i < |pairs| ==> !(PROJECT_KEY <= pairs[i])
    ensures AllNamedAreRead(pairs) && ScanPairs(pairs) == None && forall id :: !NamesProject(pairs, id)
  {
    hide ScanPairs, ParseI64;
    ScanFindsNone(pairs);
  }

  /** What the reader gets is always named. */
  lemma {:induction false} ReadIsNamed(pairs: seq<string>, id: int)
    requires ScanPairs(pairs) == Some(id)
    ensures NamesProject(pairs, id)
  {
    hide SplitOnce, ParseI64;
    PairKey(pairs[0]);
    if !(PROJECT_KEY <= pairs[0]) {
      ReadIsNamed(pairs[1..], id);
      var i :| 0 <= i < |pairs[1..]| && PairProject(pairs[1..][i]) == Some(id);
      assert pairs[i + 1] == pairs[1..][i];
    } else {
      assert PairProject(pairs[0]) == Some(id);
    }
  }

  /** A pair without an equals sign hides the project behind it, and a second project is never read. */
  lemma NamedButNotRead()
    ensures ScanPairs(Split("x&project_id=9", '&')) == None && NamesProject(Split("x&project_id=9", '&'), 9)
    ensures ScanPairs(Split("project_id=1&project_id=9", '&')) == Some(1) && NamesProject(Split("project_id=1&project_id=9", '&'), 9)
  {
    hide Split, ScanPairs, NamesProject, PairProject, ParseI64, SplitOnce;
    ProjectPair("project_id=1", 1);
    ProjectPair("project_id=9", 9);
    TwoPairs("x", "project_id=9");
    TwoPairs("project_id=1", "project_id=9");
    SecondOfTwo("x", "project_id=9", 9);
    SecondOfTwo("project_id=1", "project_id=9", 9);
    assert "x&project_id=9" == "x" + ['&'] + "project_id=9";
    assert "project_id=1&project_id=9" == "project_id=1" + ['&'] + "project_id=9";
  }

  /** Of two pairs the second of which names a project, the reader gets none if the first has no equals sign, and the first's. */
  lemma SecondOfTwo(a: string, b: string, id: int)
    requires PairProject(b) == Some(id) && PROJECT_KEY <= b
    ensures NamesProject([a, b], id)
    ensures '=' !in a ==> ScanPairs([a, b]) == None
    ensures PROJECT_KEY <= a ==> ScanPairs([a, b]) == PairProject(a)
  {
    hide ScanPairs, PairProject, SplitOnce;
    var pairs := [a, b];
    assert pairs[0] == a && pairs[1] == b;
    PairKey(a);
    if PROJECT_KEY <= a { ScanStopsAtFirst(pairs, 0); } else { ScanStopsAtFirst(pairs, 1); }
  }

  lemma ProjectPair(pair: string, n: nat)
    requires n < 10 && pair == PROJECT_KEY + [DigitChar(n)]
    ensures PROJECT_KEY <= pair && '&' !in pair && PairProject(pair) == Some(n)
  {
    hide ParseI64, PairProject, IntToString;
    OneDigit(n);
    ParseI64OfInt(n);
    PairProjectIs(pair, [DigitChar(n)]);
  }

  lemma OneDigit(n: nat)
    requires n < 10
    ensures IntToString(n) == [DigitChar(n)]
  {}

  lemma PairProjectIs(pair: string, value: string)
    requires pair == PROJECT_KEY + value
    ensures PROJECT_KEY <= pair && PairProject(pair) == ParseI64(value)
  {
    hide ParseI64;
    assert pair[|PROJECT_KEY|..] == value;
  }

  lemma TwoPairs(a: string, b: string)
    requires '&' !in a && '&' !in b
    ensures Split(a + ['&'] + b, '&') == [a, b]
  {
    hide SplitOnce;
    SplitCons(a, '&', b);
    assert SplitOnce(b, '&').None?;
    assert Split(b, '&') == [b];
  }
}
