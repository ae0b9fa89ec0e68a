/**
 The error envelope of the plugin interface (crates/app/cce-plugin-sdk/src/ffi.rs) and its
 reading as JSON strings (section 7 of RFC 8259).
 */
module ErrorJson {
  import opened Text

  /** `str::replace` of one character. */
  function ReplaceChar(s: string, c: char, with: string): string
  {
    if s == "" then "" else (if s[0] == c then with else [s[0]]) + ReplaceChar(s[1..], c, with)
  }

  const BACKSLASH: char := '\\'
  const QUOTE: char := '\"'

  /** The two successive replacements of `error_json`. */
  function Escaped(s: string): string
  {
    ReplaceChar(ReplaceChar(s, BACKSLASH, [BACKSLASH, BACKSLASH]), QUOTE, [BACKSLASH, QUOTE])
  }

  function EscapeChar(c: char): string
  {
    if c == BACKSLASH || c == QUOTE then [BACKSLASH, c] else [c]
  }

  /** One pass over the characters. */
  function OnePass(s: string): string
  {
    if s == "" then "" else EscapeChar(s[0]) + OnePass(s[1..])
  }

  lemma {:induction false} ReplaceCharAppend(a: string, b: string, c: char, with: string)
    ensures ReplaceChar(a + b, c, with) == ReplaceChar(a, c, with) + ReplaceChar(b, c, with)
  {
    if a == "" {
      assert a + b == b;
    } else {
      assert (a + b)[1..] == a[1..] + b;
      ReplaceCharAppend(a[1..], b, c, with);
    }
  }

  /** The order of the two replacements makes them one escape. */
  lemma {:induction false} EscapedIsOnePass(s: string)
    ensures Escaped(s) == OnePass(s)
  {
    if s != "" {
      EscapedIsOnePass(s[1..]);
      var head := if s[0] == BACKSLASH then [BACKSLASH, BACKSLASH] else [s[0]];
      var rest := ReplaceChar(s[1..], BACKSLASH, [BACKSLASH, BACKSLASH]);
      ReplaceCharAppend(head, rest, QUOTE, [BACKSLASH, QUOTE]);
      assert ReplaceChar(head, QUOTE, [BACKSLASH, QUOTE]) == EscapeChar(s[0]) by {
        if s[0] == BACKSLASH {
          assert head[1..] == [BACKSLASH] && head[1..][1..] == [];
        } else {
          assert head[1..] == [];
        }
      }
    }
  }

  predicate IsControl(c: char) { c < ' ' }

  /** The character of a two-character escape. */
  function Unescape(c: char): Option<char>
  {
    if c == QUOTE || c == BACKSLASH || c == '/' then Some(c)
    else if c == 'b' then Some(8 as char)
    else if c == 'f' then Some(12 as char)
    else if c == 'n' then Some(10 as char)
    else if c == 'r' then Some(13 as char)
    else if c == 't' then Some(9 as char)
    else None
  }

  /** The code unit of `\uXXXX`, where it is a character. */
  function UnescapeHex(s: string): Option<char>
    requires |s| >= 4
  {
    match (HexValue(s[0]), HexValue(s[1]), HexValue(s[2]), HexValue(s[3]))
    case (Some(a), Some(b), Some(c), Some(d)) =>
      var n := 4096 * a + 256 * b + 16 * c + d;
      if n < 0xd800 || 0xe000 <= n < 0x10000 then Some(n as char) else None
    case _ => None
  }

  /** Reads a JSON string after its opening quote: its text, and what follows the closing one. */
  function ScanString(s: string): Option<(string, string)>
    decreases |s|
  {
    if s == "" || IsControl(s[0]) then None
    else if s[0] == QUOTE then Some(("", s[1..]))
    else if s[0] != BACKSLASH then Prepend(s[0], ScanString(s[1..]))
    else if |s| < 2 then None
    else if s[1] == 'u' then
      if |s| < 6 || UnescapeHex(s[2..]).None? then None else Prepend(UnescapeHex(s[2..]).value, ScanString(s[6..]))
    else if Unescape(s[1]).None? then None
    else Prepend(Unescape(s[1]).value, ScanString(s[2..]))
  }

  function Prepend(c: char, r: Option<(string, string)>): Option<(string, string)>
  {
    if r.None? then None else Some(([c] + r.value.0, r.value.1))
  }

  predicate NoControls(s: string) { forall i :: 0 <= i < |s| ==> !IsControl(s[i]) }

  /** An escaped text reads back, and the scanner stops at its closing quote, exactly when it holds no control character. */
  lemma {:induction false} ScanOnePass(s: string, t: string)
    ensures ScanString(OnePass(s) + [QUOTE] + t) == if NoControls(s) then Some((s, t)) else None
  {
    var u := OnePass(s) + [QUOTE] + t;
    if s == "" {
      assert u == [QUOTE] + t && u[1..] == t;
    } else {
      var v := OnePass(s[1..]) + [QUOTE] + t;
      ScanOnePass(s[1..], t);
      assert u == EscapeChar(s[0]) + v;
      assert s == [s[0]] + s[1..];
      assert NoControls(s) <==> !IsControl(s[0]) && NoControls(s[1..]);
      if s[0] == BACKSLASH || s[0] == QUOTE {
        assert u[2..] == v;
      } else {
        assert u[1..] == v;
      }
    }
  }

  // ---------------------------------------------------------------- the envelope

  datatype ErrorKind =
    ScriptError | Timeout | InvalidOutput | LogicError | ResourceError | CircuitBroken | NotFound | ExecutionFailed

  /** `error_type_str`. */
  function ErrorTypeStr(k: ErrorKind): string
  {
    match k
    case ScriptError => "script"
    case Timeout => "timeout"
    case InvalidOutput => "invalid_output"
    case LogicError => "logic"
    case ResourceError => "resource"
    case CircuitBroken => "circuit_broken"
    case NotFound => "not_found"
    case ExecutionFailed => "execution_failed"
  }

  const BEFORE_MESSAGE: string := "{\"result\":\"error\",\"message\":\""
  const BEFORE_TYPE: string := ",\"error_type\":\""

  /** An envelope: two fixed parts, each followed by a string and its closing quote, and a brace. */
  function EnvelopeWith(first: string, message: string, second: string, kind: string): string
  {
    first + Escaped(message) + [QUOTE] + second + kind + [QUOTE] + "}"
  }

  /** `error_json`, with the error's message text. */
  function Envelope(message: string, k: ErrorKind): string
  {
    EnvelopeWith(BEFORE_MESSAGE, message, BEFORE_TYPE, ErrorTypeStr(k))
  }

  /** The string that follows a fixed part, and what comes after it. */
  function ReadField(before: string, s: string): Option<(string, string)>
  {
    if before <= s then ScanString(s[|before|..]) else None
  }

  /** A host's reading: the message string, the type string, and nothing after the brace. */
  function ReadEnvelopeWith(first: string, second: string, s: string): Option<(string, string)>
  {
    match ReadField(first, s)
    case None => None
    case Some((message, rest)) =>
      match ReadField(second, rest)
      case None => None
      case Some((kind, end)) => if end == "}" then Some((message, kind)) else None
  }

  function ReadEnvelope(s: string): Option<(string, string)> { ReadEnvelopeWith(BEFORE_MESSAGE, BEFORE_TYPE, s) }

  lemma ReadFieldOf(before: string, message: string, t: string)
    ensures ReadField(before, before + (OnePass(message) + [QUOTE] + t)) == if NoControls(message) then Some((message, t)) else None
  {
    hide ScanString, OnePass, NoControls;
    assert (before + (OnePass(message) + [QUOTE] + t))[|before|..] == OnePass(message) + [QUOTE] + t;
    ScanOnePass(message, t);
  }

  predicate PlainChar(c: char) { 'a' <= c <= 'z' || c == '_' }

  lemma TypeIsPlain(k: ErrorKind)
    ensures forall i :: 0 <= i < |ErrorTypeStr(k)| ==> PlainChar(ErrorTypeStr(k)[i])
  {}

  lemma {:induction false} PlainText(s: string)
    requires forall i :: 0 <= i < |s| ==> PlainChar(s[i])
    ensures OnePass(s) == s && NoControls(s)
  {
    if s != "" {
      PlainText(s[1..]);
      assert s == [s[0]] + s[1..];
    }
  }

  /** The types are told apart by their strings. */
  lemma ErrorTypesDistinct(a: ErrorKind, b: ErrorKind)
    ensures ErrorTypeStr(a) == ErrorTypeStr(b) ==> a == b
  {
    assert |ErrorTypeStr(a)| == |ErrorTypeStr(b)| ==> ErrorTypeStr(a)[0] == ErrorTypeStr(b)[0] ==> a == b;
  }

  lemma ReadBackWith(first: string, message: string, second: string, kind: string)
    requires OnePass(kind) == kind && NoControls(kind)
    ensures ReadEnvelopeWith(first, second, EnvelopeWith(first, message, second, kind))
            == if NoControls(message) then Some((message, kind)) else None
  {
    hide ReadField, OnePass, Escaped, NoControls;
    EscapedIsOnePass(message);
    var rest := second + (kind + [QUOTE] + "}");
    assert EnvelopeWith(first, message, second, kind) == first + (OnePass(message) + [QUOTE] + rest);
    ReadFieldOf(first, message, rest);
    ReadFieldOf(second, kind, "}");
  }

  /** The envelope gives message and type back exactly when the message holds no control character; else it is no JSON. */
  lemma EnvelopeReadsBack(message: string, k: ErrorKind)
    ensures ReadEnvelope(Envelope(message, k)) == if NoControls(message) then Some((message, ErrorTypeStr(k))) else None
  {
    hide ReadEnvelopeWith, EnvelopeWith, OnePass, NoControls, ErrorTypeStr;
    TypeIsPlain(k);
    PlainText(ErrorTypeStr(k));
    ReadBackWith(BEFORE_MESSAGE, message, BEFORE_TYPE, ErrorTypeStr(k));
  }

  /** An envelope of readable text belongs to one message and one kind of error. */
  lemma EnvelopeDeterminesError(m: string, k: ErrorKind, n: string, l: ErrorKind)
    requires NoControls(m) && Envelope(m, k) == Envelope(n, l)
    ensures m == n && k == l
  {
    hide ReadEnvelope, Envelope, NoControls, ErrorTypeStr;
    EnvelopeReadsBack(m, k);
    EnvelopeReadsBack(n, l);
    ErrorTypesDistinct(k, l);
  }
}
