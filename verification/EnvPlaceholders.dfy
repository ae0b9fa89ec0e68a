/**
 Placeholder expansion of configuration strings (crates/core/cce-config/src/env_loader.rs).

 The source rewrites the string in place and searches again from the same position, so an
 expanded value is itself searched for placeholders, together with what stands around it. The
 loop need not stop; where it does, `Resolve` is the string it leaves.
 */
module EnvPlaceholders {
  import opened Text

  type Env = map<string, string>

  /** No `${` in the string. */
  predicate Clean(s: string)
  {
    |s| < 2 || (!(s[0] == '$' && s[1] == '{') && Clean(s[1..]))
  }

  /** What stands before and after the first `${`. */
  function Cut(s: string): Option<(string, string)>
  {
    if |s| < 2 then None
    else if s[0] == '$' && s[1] == '{' then Some(("", s[2..]))
    else
      match Cut(s[1..])
      case None => None
      case Some((x, t)) => Some(([s[0]] + x, t))
  }

  lemma {:induction false} CutSound(s: string)
    ensures Cut(s).None? <==> Clean(s)
    ensures Cut(s).Some? ==> s == Cut(s).value.0 + "${" + Cut(s).value.1 && Clean(Cut(s).value.0)
  {
    if |s| >= 2 && !(s[0] == '$' && s[1] == '{') { CutSound(s[1..]); }
  }

  lemma {:induction false} CutAt(x: string, t: string)
    requires Clean(x)
    ensures Cut(x + "${" + t) == Some((x, t))
  {
    if x != "" {
      assert (x + "${" + t)[1..] == x[1..] + "${" + t;
      CutAt(x[1..], t);
      assert [x[0]] + x[1..] == x;
    }
  }

  predicate EndsInDollar(x: string) { x != "" && x[|x| - 1] == '$' }

  /** Text that neither holds a `${` nor ends in a `$` shifts the first one after it. */
  lemma {:induction false} CutShift(x: string, t: string)
    requires Clean(x) && !EndsInDollar(x)
    ensures Cut(t).None? ==> Cut(x + t).None?
    ensures Cut(t).Some? ==> Cut(x + t) == Some((x + Cut(t).value.0, Cut(t).value.1))
  {
    if x == "" {
      assert x + t == t;
      if Cut(t).Some? { assert x + Cut(t).value.0 == Cut(t).value.0; }
    } else {
      var s, y := x + t, x[1..];
      assert s[1..] == y + t;
      CutShift(y, t);
      if Cut(t).Some? {
        assert [x[0]] + (y + Cut(t).value.0) == x + Cut(t).value.0;
      }
    }
  }

  lemma {:induction false} CleanInit(x: string)
    requires Clean(x) && x != ""
    ensures Clean(x[..|x| - 1])
  {
    if |x| > 1 {
      assert x[..|x| - 1][1..] == x[1..][..|x[1..]| - 1];
      CleanInit(x[1..]);
    }
  }

  /** `str::find("${")`. */
  function FindOpen(s: string): Option<nat>
  {
    match Cut(s)
    case None => None
    case Some((x, _)) => Some(|x|)
  }

  /** What one iteration of the loop finds in the unsearched rest of the string. */
  datatype Found =
    | Nothing
    | Placeholder(before: string, value: string, after: string)   // of a set variable
    | Unresolved(before: string, after: string)                   // a `${` left as it is

  function Look(env: Env, rest: string): Found
  {
    match Cut(rest)
    case None => Nothing
    case Some((x, t)) =>
      match SplitOnce(t, '}')
      case None => Unresolved(x, t)
      case Some((name, after)) => if name in env then Placeholder(x, env[name], after) else Unresolved(x, t)
  }

  /** Reading `${name}` after text without `${`. */
  lemma LookAt(env: Env, x: string, name: string, t: string)
    requires Clean(x) && name in env && '}' !in name
    ensures Look(env, x + "${" + name + "}" + t) == Placeholder(x, env[name], t)
  {
    assert x + "${" + name + "}" + t == x + "${" + (name + "}" + t);
    CutAt(x, name + "}" + t);
    SplitOnceAfter(name, '}', t);
  }

  /** How a copied prefix `x` changes what an iteration finds. */
  function Prefixed(x: string, f: Found): Found
  {
    match f
    case Nothing => Nothing
    case Placeholder(p, v, t) => Placeholder(x + p, v, t)
    case Unresolved(p, t) => Unresolved(x + p, t)
  }

  lemma LookShift(env: Env, x: string, t: string)
    requires Clean(x) && !EndsInDollar(x)
    ensures Look(env, x + t) == Prefixed(x, Look(env, t))
  {
    CutShift(x, t);
  }

  // ---------------------------------------------------------------- the loop

  /** The loop's state: the string before `start`, and from `start` on. */
  datatype State = State(done: string, rest: string)

  /** One iteration; a state in which nothing is found is final. */
  function Step(f: Found, s: State): State
  {
    match f
    case Nothing => s
    case Placeholder(x, v, t) => State(s.done, x + v + t)
    case Unresolved(x, t) => State(s.done + (x + "${"), t)
  }

  predicate Halted(env: Env, s: State) { Look(env, s.rest).Nothing? }

  function Iterate(env: Env, s: State, n: nat): State
    decreases n
  {
    if n == 0 then s else Iterate(env, Step(Look(env, s.rest), s), n - 1)
  }

  /** The string a state stands for. */
  function TextOf(s: State): string { s.done + s.rest }

  /** Whether the loop stops on an input. */
  ghost predicate Stops(env: Env, input: string)
  {
    exists n {:trigger Iterate(env, State("", input), n)} :: Halted(env, Iterate(env, State("", input), n))
  }

  lemma {:induction false} HaltedStays(env: Env, s: State, n: nat)
    requires Halted(env, s)
    ensures Iterate(env, s, n) == s
    decreases n
  {
    if n > 0 { HaltedStays(env, s, n - 1); }
  }

  lemma NothingIsFinal(env: Env, s: State, n: nat)
    requires FindOpen(s.rest).None?
    ensures Iterate(env, s, n) == s
  {
    HaltedStays(env, s, n);
  }

  lemma StepsLeft(env: Env, s: State, n: nat)
    requires FindOpen(s.rest).Some? && Halted(env, Iterate(env, s, n))
    ensures n > 0 && Iterate(env, s, n) == Iterate(env, Step(Look(env, s.rest), s), n - 1)
  {}

  lemma {:induction false} IterateAdd(env: Env, s: State, m: nat, n: nat)
    ensures Iterate(env, s, m + n) == Iterate(env, Iterate(env, s, m), n)
    decreases m
  {
    if m > 0 { IterateAdd(env, Step(Look(env, s.rest), s), m - 1, n); }
  }

  /** All final states of a run are one. */
  lemma FinalIsUnique(env: Env, s: State, m: nat)
    requires Halted(env, Iterate(env, s, m))
    ensures forall n {:trigger Iterate(env, s, n)} :: Halted(env, Iterate(env, s, n)) ==> Iterate(env, s, n) == Iterate(env, s, m)
  {
    forall n: nat {:trigger Iterate(env, s, n)} | Halted(env, Iterate(env, s, n)) ensures Iterate(env, s, n) == Iterate(env, s, m) {
      if n <= m {
        IterateAdd(env, s, n, m - n);
        HaltedStays(env, Iterate(env, s, n), m - n);
      } else {
        IterateAdd(env, s, m, n - m);
        HaltedStays(env, Iterate(env, s, m), n - m);
      }
    }
  }

  /** Searching `}` from the placeholder's start skips its two opening characters. */
  lemma FindClose(t: string)
    ensures FindChar("${" + t, '}') == if FindChar(t, '}').None? then None else Some(FindChar(t, '}').value + 2)
  {
    hide FindChar;
    assert "${" + t == ['$'] + (['{'] + t);
    FindSkips('$', ['{'] + t, '}');
    FindSkips('{', t, '}');
  }

  lemma FindSkips(a: char, s: string, c: char)
    requires a != c
    ensures FindChar([a] + s, c) == if FindChar(s, c).None? then None else Some(FindChar(s, c).value + 1)
  {
    assert ([a] + s)[1..] == s;
  }

  /** The slices around the first `${` of the string from `start` on. */
  lemma OpenSlices(s: string, start: nat, pos: nat)
    requires start <= |s| && FindOpen(s[start..]) == Some(pos)
    ensures start + pos + 2 <= |s|
    ensures Cut(s[start..]) == Some((s[start..start + pos], s[start + pos + 2..]))
    ensures s[start + pos..] == "${" + s[start + pos + 2..]
    ensures s[..start + pos + 2] == s[..start] + (s[start..start + pos] + "${")
  {
    var rest := s[start..];
    CutSound(rest);
    var x, t := Cut(rest).value.0, Cut(rest).value.1;
    assert s[start..start + pos] == rest[..pos] == x;
    assert s[start + pos + 2..] == rest[pos + 2..] == t;
    assert s == s[..start] + (x + "${" + t);
  }

  lemma NameSlices(s: string, at: nat, end: nat, t: string)
    requires at <= |s| && s[at..] == "${" + t && 2 <= end < |t| + 2
    ensures at + end < |s|
    ensures s[at + 2..at + end] == t[..end - 2] && s[at + end + 1..] == t[end - 1..]
  {
    assert s[at + 2..] == t;
    assert s[at + 2..at + end] == s[at + 2..][..end - 2];
    assert s[at + end + 1..] == s[at + 2..][end - 1..];
  }

  /** No `}` after the opening: the placeholder is left as it is. */
  lemma LookUnclosed(env: Env, s: string, start: nat, at: nat)
    requires start <= at <= |s| && FindOpen(s[start..]) == Some(at - start)
    requires FindChar(s[at..], '}') == None
    ensures at + 2 <= |s| && Look(env, s[start..]) == Unresolved(s[start..at], s[at + 2..])
  {
    hide Cut, FindChar;
    OpenSlices(s, start, at - start);
    FindClose(s[at + 2..]);
  }

  lemma SplitOnceAt(t: string, k: nat)
    requires FindChar(t, '}') == Some(k)
    ensures k < |t| && SplitOnce(t, '}') == Some((t[..k], t[k + 1..]))
  {
    hide FindChar;
  }

  lemma LookCut(env: Env, rest: string, x: string, t: string, name: string, after: string)
    requires Cut(rest) == Some((x, t)) && SplitOnce(t, '}') == Some((name, after))
    ensures Look(env, rest) == if name in env then Placeholder(x, env[name], after) else Unresolved(x, t)
  {
    hide Cut, SplitOnce;
  }

  lemma LookClosedParts(env: Env, rest: string, x: string, t: string, end: nat)
    requires Cut(rest) == Some((x, t)) && FindChar("${" + t, '}') == Some(end)
    ensures 2 <= end < |t| + 2
    ensures var name := t[..end - 2];
            Look(env, rest) == if name in env then Placeholder(x, env[name], t[end - 1..]) else Unresolved(x, t)
  {
    hide Cut, FindChar, SplitOnce, Look;
    FindClose(t);
    SplitOnceAt(t, end - 2);
    LookCut(env, rest, x, t, t[..end - 2], t[end - 1..]);
  }

  /** A `}` after the opening: the placeholder is replaced if its name is set. */
  lemma LookClosed(env: Env, s: string, start: nat, at: nat, end: nat)
    requires start <= at <= |s| && FindOpen(s[start..]) == Some(at - start)
    requires FindChar(s[at..], '}') == Some(end)
    ensures 2 <= end && at + end < |s|
    ensures var name := s[at + 2..at + end];
            Look(env, s[start..]) == if name in env then Placeholder(s[start..at], env[name], s[at + end + 1..])
                                     else Unresolved(s[start..at], s[at + 2..])
  {
    hide Cut, FindChar, Look, FindOpen;
    OpenSlices(s, start, at - start);
    var t := s[at + 2..];
    LookClosedParts(env, s[start..], s[start..at], t, end);
    NameSlices(s, at, end, t);
  }

  lemma SpliceAt(s: string, start: nat, at: nat, v: string, t: string)
    requires start <= at <= |s|
    ensures var s' := s[..at] + v + t;
            start <= |s'| && s'[..start] == s[..start] && s'[start..] == s[start..at] + v + t
  {}

  /** The loop's variables, as a state. */
  function At(s: string, start: nat): State
    requires start <= |s|
  {
    State(s[..start], s[start..])
  }

  /** Replacing the placeholder in place is one iteration. */
  lemma ReplaceIsStep(env: Env, s: string, start: nat, at: nat, end: nat)
    requires start <= at <= |s| && FindOpen(s[start..]) == Some(at - start)
    requires FindChar(s[at..], '}') == Some(end)
    ensures 2 <= end && at + end < |s|
    ensures var name := s[at + 2..at + end];
            name in env ==>
              var s' := s[..at] + env[name] + s[at + end + 1..];
              start <= |s'| && At(s', start) == Step(Look(env, s[start..]), At(s, start))
  {
    LookClosed(env, s, start, at, end);
    var name := s[at + 2..at + end];
    if name in env {
      SpliceAt(s, start, at, env[name], s[at + end + 1..]);
    }
  }

  /** Moving past a `${` that stays is one iteration. */
  lemma SkipIsStep(env: Env, s: string, start: nat, at: nat)
    requires start <= at <= |s| && FindOpen(s[start..]) == Some(at - start)
    requires match FindChar(s[at..], '}')
             case None => true
             case Some(end) => 2 <= end && at + end < |s| && s[at + 2..at + end] !in env
    ensures at + 2 <= |s| && At(s, at + 2) == Step(Look(env, s[start..]), At(s, start))
  {
    hide Look, Cut, FindChar, FindOpen;
    OpenSlices(s, start, at - start);
    match FindChar(s[at..], '}') {
      case None => LookUnclosed(env, s, start, at);
      case Some(end) => LookClosed(env, s, start, at, end);
    }
  }

  /** `resolve_env_placeholders`: called where its loop stops, it leaves the text of the final state. */
  method ResolveEnvPlaceholders(input: string, env: Env) returns (result: string)
    requires Stops(env, input)
    ensures forall n {:trigger Iterate(env, State("", input), n)} ::
              Halted(env, Iterate(env, State("", input), n)) ==> result == TextOf(Iterate(env, State("", input), n))
  {
    hide Look, Cut, FindOpen, FindChar, Step;
    result := input;
    var start := 0;
    ghost var last: nat :| Halted(env, Iterate(env, State("", input), last));
    ghost var steps: nat := last;
    assert At(input, 0) == State("", input);
    while true
      invariant 0 <= start <= |result|
      invariant Iterate(env, At(result, start), steps) == Iterate(env, State("", input), last)
      decreases steps
    {
      match FindOpen(result[start..]) {
        case None =>
          NothingIsFinal(env, At(result, start), steps);
          assert result == result[..start] + result[start..];
          FinalIsUnique(env, State("", input), last);
          return;
        case Some(pos) =>
          StepsLeft(env, At(result, start), steps);
          steps := steps - 1;
          var varStart := start + pos;
          OpenSlices(result, start, pos);
          match FindChar(result[varStart..], '}') {
            case Some(end) =>
              var varEnd := varStart + end;
              ReplaceIsStep(env, result, start, varStart, end);
              var varName := result[varStart + 2..varEnd];
              if varName in env {
                result := result[..varStart] + env[varName] + result[varEnd + 1..];
                continue;
              }
            case None =>
          }
          SkipIsStep(env, result, start, varStart);
          start := varStart + 2;
      }
    }
  }

  // ---------------------------------------------------------------- the string it leaves

  /** The string the loop leaves, where it stops. */
  ghost function Resolve(env: Env, input: string): string
    requires Stops(env, input)
  {
    var n: nat :| Halted(env, Iterate(env, State("", input), n));
    TextOf(Iterate(env, State("", input), n))
  }

  lemma ResolveIs(env: Env, input: string, n: nat)
    requires Halted(env, Iterate(env, State("", input), n))
    ensures Stops(env, input) && Resolve(env, input) == TextOf(Iterate(env, State("", input), n))
  {
    FinalIsUnique(env, State("", input), n);
  }

  /** What is already done is never looked at again. */
  lemma {:induction false} DoneIsKept(env: Env, d: string, s: State, n: nat)
    ensures Iterate(env, State(d + s.done, s.rest), n) == State(d + Iterate(env, s, n).done, Iterate(env, s, n).rest)
    decreases n
  {
    hide Look;
    if n > 0 {
      var f := Look(env, s.rest);
      if f.Unresolved? { assert d + (s.done + (f.before + "${")) == d + s.done + (f.before + "${"); }
      DoneIsKept(env, d, Step(f, s), n - 1);
    }
  }

  // The three cases of the loop, as equations on strings.

  lemma ResolveNothing(env: Env, s: string)
    requires Look(env, s).Nothing?
    ensures Stops(env, s) && Resolve(env, s) == s
  {
    hide Look;
    assert Iterate(env, State("", s), 0) == State("", s);
    ResolveIs(env, s, 0);
  }

  lemma FirstStep(env: Env, s: string, n: nat)
    requires !Look(env, s).Nothing? && Halted(env, Iterate(env, State("", s), n))
    ensures n > 0 && Iterate(env, State("", s), n) == Iterate(env, Step(Look(env, s), State("", s)), n - 1)
  {
    hide Look;
  }

  lemma ResolvePlaceholder(env: Env, s: string, f: Found)
    requires Look(env, s) == f && f.Placeholder?
    ensures Stops(env, s) <==> Stops(env, f.before + f.value + f.after)
    ensures Stops(env, s) ==> Resolve(env, s) == Resolve(env, f.before + f.value + f.after)
  {
    hide Look;
    var next := f.before + f.value + f.after;
    if Stops(env, s) {
      var n: nat :| Halted(env, Iterate(env, State("", s), n));
      FirstStep(env, s, n);
      ResolveIs(env, s, n);
      ResolveIs(env, next, n - 1);
    }
    if Stops(env, next) {
      var n: nat :| Halted(env, Iterate(env, State("", next), n));
      assert Iterate(env, State("", s), n + 1) == Iterate(env, State("", next), n);
      ResolveIs(env, s, n + 1);
    }
  }

  lemma ResolveUnresolved(env: Env, s: string, f: Found)
    requires Look(env, s) == f && f.Unresolved?
    ensures Stops(env, s) <==> Stops(env, f.after)
    ensures Stops(env, s) ==> Resolve(env, s) == f.before + "${" + Resolve(env, f.after)
  {
    hide Look;
    var d := f.before + "${";
    assert "" + d == d && d + "" == d;
    if Stops(env, s) {
      var n: nat :| Halted(env, Iterate(env, State("", s), n));
      FirstStep(env, s, n);
      DoneIsKept(env, d, State("", f.after), n - 1);
      ResolveIs(env, s, n);
      ResolveIs(env, f.after, n - 1);
      var last := Iterate(env, State("", f.after), n - 1);
      assert d + last.done + last.rest == d + (last.done + last.rest);
    }
    if Stops(env, f.after) {
      var n: nat :| Halted(env, Iterate(env, State("", f.after), n));
      DoneIsKept(env, d, State("", f.after), n);
      assert Iterate(env, State("", s), n + 1) == Iterate(env, State(d + "", f.after), n);
      ResolveIs(env, s, n + 1);
    }
  }

  /** The name of a found placeholder. */
  lemma NameOf(env: Env, s: string) returns (name: string)
    requires Look(env, s).Placeholder?
    ensures name in env && '}' !in name && env[name] == Look(env, s).value && Clean(Look(env, s).before)
  {
    CutSound(s);
    name := SplitOnce(Cut(s).value.1, '}').value.0;
  }

  /** A string is longer than what stands after its first placeholder. */
  lemma AfterIsShorter(env: Env, s: string)
    requires !Look(env, s).Nothing?
    ensures |Look(env, s).after| < |s|
  {
    CutSound(s);
  }

  lemma Reassociate(x: string, p: string, v: string, q: string)
    ensures x + p + v + q == x + (p + v + q)
  {}

  lemma {:induction false} CopiesFrom(env: Env, x: string, t: string, n: nat)
    requires Clean(x) && !EndsInDollar(x)
    requires Halted(env, Iterate(env, State("", t), n))
    ensures Stops(env, t) && Stops(env, x + t) && Resolve(env, x + t) == x + Resolve(env, t)
    decreases n
  {
    hide Look, Clean;
    LookShift(env, x, t);
    ResolveIs(env, t, n);
    var f := Look(env, t);
    match f {
      case Nothing =>
        ResolveNothing(env, t);
        ResolveNothing(env, x + t);
      case Placeholder(p, v, q) =>
        FirstStep(env, t, n);
        ResolvePlaceholder(env, t, f);
        ResolvePlaceholder(env, x + t, Prefixed(x, f));
        Reassociate(x, p, v, q);
        CopiesFrom(env, x, p + v + q, n - 1);
      case Unresolved(p, q) =>
        ResolveUnresolved(env, t, f);
        ResolveUnresolved(env, x + t, Prefixed(x, f));
        Reassociate(x, p, "${", Resolve(env, q));
    }
  }

  lemma {:induction false} CopiesTo(env: Env, x: string, t: string, n: nat)
    requires Clean(x) && !EndsInDollar(x)
    requires Halted(env, Iterate(env, State("", x + t), n))
    ensures Stops(env, t)
    decreases n
  {
    hide Look, Clean;
    LookShift(env, x, t);
    ResolveIs(env, x + t, n);
    var f := Look(env, t);
    match f {
      case Nothing => ResolveNothing(env, t);
      case Placeholder(p, v, q) =>
        FirstStep(env, x + t, n);
        ResolvePlaceholder(env, t, f);
        Reassociate(x, p, v, q);
        CopiesTo(env, x, p + v + q, n - 1);
      case Unresolved(p, q) =>
        ResolveUnresolved(env, t, f);
        ResolveUnresolved(env, x + t, Prefixed(x, f));
    }
  }

  /** Text without a placeholder that cannot start one is copied, whatever follows. */
  lemma ResolveCopies(env: Env, x: string, t: string)
    requires Clean(x) && !EndsInDollar(x)
    ensures Stops(env, x + t) <==> Stops(env, t)
    ensures Stops(env, t) ==> Resolve(env, x + t) == x + Resolve(env, t)
  {
    hide Look, Clean;
    if Stops(env, t) {
      var n: nat :| Halted(env, Iterate(env, State("", t), n));
      CopiesFrom(env, x, t, n);
    }
    if Stops(env, x + t) {
      var n: nat :| Halted(env, Iterate(env, State("", x + t), n));
      CopiesTo(env, x, t, n);
    }
  }
}
