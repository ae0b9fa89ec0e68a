/**
 When the in-place placeholder expansion of crates/core/cce-config/src/env_loader.rs is the
 expansion a reader expects: one pass from left to right, in which values are only copied.
 */
module SinglePassExpansion {
  import opened Text
  import opened EnvPlaceholders
  import opened ExpansionStops

  /** Left-to-right expansion in which values are copied, never searched. */
  function SinglePass(env: Env, s: string): string
    decreases |s|
  {
    var f := Look(env, s);
    if f.Nothing? then s
    else
      AfterIsShorter(env, s);
      match f
      case Placeholder(x, v, t) => x + v + SinglePass(env, t)
      case Unresolved(x, t) => x + "${" + SinglePass(env, t)
  }

  predicate PrefixComparable(a: string, b: string) { a <= b || b <= a }

  /** The loop stops on every input, and leaves what the single pass gives. */
  ghost predicate IsSinglePass(env: Env)
  {
    forall s :: Stops(env, s) && Resolve(env, s) == SinglePass(env, s)
  }

  /** Text after a dollar that is, begins or is the beginning of the rest of a set variable's placeholder. */
  predicate Completes(env: Env, z: string)
  {
    exists n :: n in env && '}' !in n && PrefixComparable(z, "{" + n + "}")
  }

  /** No dollar of the text completes a placeholder, whatever follows. */
  predicate Safe(env: Env, w: string)
  {
    forall i :: 0 <= i < |w| && w[i] == '$' ==> !Completes(env, w[i + 1..])
  }

  /** Neither a value's own dollars nor one in front of it completes a placeholder. */
  predicate NoValueCompletes(env: Env)
  {
    forall a :: a in env && '}' !in a ==> Safe(env, "$" + env[a])
  }

  // ---------------------------------------------------------------- values that complete nothing

  lemma PrefixesOfOne(a: string, b: string, s: string)
    requires a <= s && b <= s
    ensures PrefixComparable(a, b)
  {}

  lemma SafeEnd(env: Env, w: string, a: string)
    requires Safe(env, w) && a in env && '}' !in a
    ensures !EndsInDollar(w)
  {
    if EndsInDollar(w) {
      assert w[|w|..] == "";
      assert PrefixComparable("", "{" + a + "}");
      assert Completes(env, w[|w|..]);
    }
  }

  lemma SafeTail(env: Env, w: string, k: nat)
    requires Safe(env, w) && k <= |w|
    ensures Safe(env, w[k..])
  {
    forall i | 0 <= i < |w[k..]| && w[k..][i] == '$' ensures !Completes(env, w[k..][i + 1..]) {
      assert w[k + i] == '$' && w[k..][i + 1..] == w[k + i + 1..];
    }
  }

  lemma OpenCompletes(env: Env, w: string, t: string, n: string, after: string)
    requires n in env && '}' !in n && w + t == n + ['}'] + after
    ensures Completes(env, "{" + w)
  {
    assert "{" + (w + t) == "{" + n + "}" + after;
    PrefixesOfOne("{" + w, "{" + n + "}", "{" + (w + t));
  }

  /** At a dollar that completes nothing, no set placeholder opens. */
  lemma SafeOpen(env: Env, x: string, w: string, t: string)
    requires Clean(x) && !Completes(env, "{" + w)
    ensures Look(env, x + "${" + (w + t)) == Unresolved(x, w + t)
  {
    hide PrefixComparable, Completes, SplitOnce, Cut, Clean;
    CutAt(x, w + t);
    var close := SplitOnce(w + t, '}');
    if close.Some? && close.value.0 in env {
      OpenCompletes(env, w, t, close.value.0, close.value.1);
    }
  }

  /** Safe text is copied, whatever follows it. */
  lemma {:induction false} SafeIsCopied(env: Env, w: string, t: string, a: string)
    requires Safe(env, w) && a in env && '}' !in a
    ensures Stops(env, w + t) <==> Stops(env, t)
    ensures Stops(env, t) ==> Resolve(env, w + t) == w + Resolve(env, t)
    decreases |w|
  {
    hide Look, Safe, Stops, Completes;
    CutSound(w);
    match Cut(w) {
      case None =>
        SafeEnd(env, w, a);
        ResolveCopies(env, w, t);
      case Some((x, u)) =>
        assert w[|x|] == '$' && w[|x| + 1..] == "{" + u;
        SafeAt(env, w, |x|);
        SafeOpen(env, x, u, t);
        assert w + t == x + "${" + (u + t);
        ResolveUnresolved(env, w + t, Unresolved(x, u + t));
        assert w[|x| + 2..] == u;
        SafeTail(env, w, |x| + 2);
        SafeIsCopied(env, u, t, a);
        if Stops(env, t) { assert x + "${" + (u + Resolve(env, t)) == w + Resolve(env, t); }
    }
  }

  lemma SafeAt(env: Env, w: string, i: nat)
    requires Safe(env, w) && i < |w| && w[i] == '$'
    ensures !Completes(env, w[i + 1..])
  {}

  lemma {:induction false} CleanAt(x: string, i: nat)
    requires Clean(x) && i + 1 < |x| && x[i] == '$'
    ensures x[i + 1] != '{'
  {
    if i > 0 { CleanAt(x[1..], i - 1); }
  }

  /** A safe value after clean text, together. */
  lemma SafeJoin(env: Env, x: string, v: string)
    requires Clean(x) && Safe(env, "$" + v)
    ensures Safe(env, x + v)
  {
    var w, d := x + v, "$" + v;
    forall i | 0 <= i < |w| && w[i] == '$' ensures !Completes(env, w[i + 1..]) {
      if i + 1 < |x| {
        CleanAt(x, i);
        assert w[i + 1..][0] != '{';
      } else {
        var j := i + 1 - |x|;
        assert d[j] == '$' by { if i >= |x| { assert d[j] == v[j - 1] == w[i]; } }
        assert d[j + 1..] == w[i + 1..];
      }
    }
  }

  /** If no value completes a placeholder, the loop stops on every input and is the single pass. */
  lemma {:induction false} StopsAsSinglePass(env: Env, s: string)
    requires NoValueCompletes(env)
    ensures Stops(env, s) && Resolve(env, s) == SinglePass(env, s)
    decreases |s|
  {
    hide Look, Stops, Safe, Completes;
    var f := Look(env, s);
    match f {
      case Nothing =>
        ResolveNothing(env, s);
      case Placeholder(x, v, t) =>
        AfterIsShorter(env, s);
        var a := NameOf(env, s);
        StopsAsSinglePass(env, t);
        SafeJoin(env, x, v);
        SafeIsCopied(env, x + v, t, a);
        ResolvePlaceholder(env, s, f);
      case Unresolved(x, t) =>
        AfterIsShorter(env, s);
        StopsAsSinglePass(env, t);
        ResolveUnresolved(env, s, f);
    }
  }

  // ---------------------------------------------------------------- the single pass, character by character

  /** Whether the dollar in front of the text opens a set placeholder. */
  predicate Opens(env: Env, z: string)
  {
    exists n :: n in env && '}' !in n && "{" + n + "}" <= z
  }

  lemma LookAtDollar(env: Env, u: string)
    requires !Opens(env, "{" + u)
    ensures Look(env, "${" + u) == Unresolved("", u)
  {
    assert "" + "${" + u == "${" + u;
    CutAt("", u);
    hide Cut;
  }

  lemma LookCons(env: Env, c: char, t: string)
    requires !(c == '$' && t != "" && t[0] == '{')
    ensures Look(env, [c] + t) == Prefixed([c], Look(env, t))
  {
    hide SplitOnce;
    assert ([c] + t)[1..] == t;
  }

  lemma PassCons(env: Env, c: char, t: string)
    requires Look(env, [c] + t) == Prefixed([c], Look(env, t))
    ensures SinglePass(env, [c] + t) == [c] + SinglePass(env, t)
  {
    hide Look;
    match Look(env, t) {
      case Nothing =>
      case Placeholder(p, v, q) => assert [c] + p + v + SinglePass(env, q) == [c] + (p + v + SinglePass(env, q));
      case Unresolved(p, q) => assert [c] + p + "${" + SinglePass(env, q) == [c] + (p + "${" + SinglePass(env, q));
    }
  }

  lemma PassUnresolved(env: Env, s: string)
    requires Look(env, s).Unresolved?
    ensures SinglePass(env, s) == Look(env, s).before + "${" + SinglePass(env, Look(env, s).after)
  {}

  /** A character that opens nothing is copied. */
  lemma CopyOne(env: Env, s: string)
    requires s != "" && (s[0] == '$' ==> !Opens(env, s[1..]))
    ensures SinglePass(env, s) == [s[0]] + SinglePass(env, s[1..])
  {
    hide SinglePass, Look, Opens;
    var c, t := s[0], s[1..];
    assert s == [c] + t;
    if c == '$' && t != "" && t[0] == '{' {
      var u := t[1..];
      assert t == ['{'] + u && t == "{" + u && s == "${" + u;
      LookAtDollar(env, u);
      PassUnresolved(env, s);
      LookCons(env, '{', u);
      PassCons(env, '{', u);
      assert "" + "${" + SinglePass(env, u) == ['$'] + (['{'] + SinglePass(env, u));
    } else {
      LookCons(env, c, t);
      PassCons(env, c, t);
    }
  }

  /** Text whose dollars open nothing is copied. */
  lemma {:induction false} CopyMany(env: Env, y: string, u: string)
    requires forall i :: 0 <= i < |y| && y[i] == '$' ==> !Opens(env, (y + u)[i + 1..])
    ensures SinglePass(env, y + u) == y + SinglePass(env, u)
  {
    hide SinglePass, Opens;
    if y == "" {
      assert y + u == u;
    } else {
      var t := y[1..];
      assert (y + u)[1..] == t + u;
      forall i | 0 <= i < |t| && t[i] == '$' ensures !Opens(env, (t + u)[i + 1..]) {
        assert y[i + 1] == '$' && (y + u)[i + 2..] == (t + u)[i + 1..];
      }
      CopyOne(env, y + u);
      CopyMany(env, t, u);
      assert [y[0]] + (t + SinglePass(env, u)) == y + SinglePass(env, u);
    }
  }

  lemma PassPlaceholder(env: Env, s: string)
    requires Look(env, s).Placeholder?
    ensures SinglePass(env, s) == Look(env, s).before + Look(env, s).value + SinglePass(env, Look(env, s).after)
  {}

  lemma ExpandOne(env: Env, n: string, t: string)
    requires n in env && '}' !in n
    ensures SinglePass(env, "${" + n + "}" + t) == env[n] + SinglePass(env, t)
  {
    hide Look, SinglePass;
    var s := "${" + n + "}" + t;
    assert "" + "${" + n + "}" + t == s;
    LookAt(env, "", n, t);
    PassPlaceholder(env, s);
    assert "" + env[n] + SinglePass(env, t) == env[n] + SinglePass(env, t);
  }

  lemma CopyPlain(env: Env, s: string)
    requires '$' !in s
    ensures SinglePass(env, s) == s
  {
    hide SinglePass;
    assert s + "" == s;
    CopyMany(env, s, "");
    PassNothing(env);
  }

  lemma PassNothing(env: Env)
    ensures SinglePass(env, "") == ""
  {}

  // ---------------------------------------------------------------- values that complete something

  /** If the loop is the single pass, the single pass copies values. */
  lemma ValuesAreCopied(env: Env, a: string, t: string)
    requires IsSinglePass(env) && a in env && '}' !in a
    ensures SinglePass(env, "$" + env[a] + t) == "$" + env[a] + SinglePass(env, t)
  {
    hide Look, Stops, SinglePass;
    var s := "$" + "${" + a + "}" + t;
    LookAt(env, "$", a, t);
    ResolvePlaceholder(env, s, Look(env, s));
    PassPlaceholder(env, s);
  }

  /** The first dollar of a text that completes a placeholder. */
  lemma {:induction false} FirstUnsafe(env: Env, w: string, i: nat) returns (k: nat)
    requires i < |w| && w[i] == '$' && Completes(env, w[i + 1..])
    ensures k <= i && w[k] == '$' && Completes(env, w[k + 1..])
    ensures forall j :: 0 <= j < k && w[j] == '$' ==> !Completes(env, w[j + 1..])
    decreases i
  {
    hide Completes;
    if j :| 0 <= j < i && w[j] == '$' && Completes(env, w[j + 1..]) { k := FirstUnsafe(env, w, j); } else { k := i; }
  }

  /** Before that dollar the single pass copies, and at it, if the placeholder is all there, expands. */
  lemma ExpandAt(env: Env, w: string, k: nat, n: string, t: string, rest: string)
    requires k < |w| && w[k] == '$' && n in env && '}' !in n
    requires forall j :: 0 <= j < k && w[j] == '$' ==> !Completes(env, w[j + 1..])
    requires w[k + 1..] + t == "{" + n + "}" + rest
    ensures SinglePass(env, w + t) == w[..k] + env[n] + SinglePass(env, rest)
  {
    hide SinglePass;
    var y, u := w[..k], "${" + n + "}" + rest;
    assert w + t == y + ("$" + (w[k + 1..] + t));
    assert u == "$" + ("{" + n + "}" + rest);
    forall j | 0 <= j < |y| && y[j] == '$' ensures !Opens(env, (y + u)[j + 1..]) {
      var z := w[j + 1..];
      assert (w + t)[j + 1..] == z + t;
      if m :| m in env && '}' !in m && "{" + m + "}" <= z + t {
        PrefixesOfOne("{" + m + "}", z, z + t);
      }
    }
    CopyMany(env, y, u);
    ExpandOne(env, n, rest);
    assert y + (env[n] + SinglePass(env, rest)) == y + env[n] + SinglePass(env, rest);
  }

  /** Names, or values, without a dollar. */
  predicate DollarsApart(env: Env)
  {
    (forall n :: n in env ==> '$' !in n) || FreeOf(env, '$')
  }

  /** Without dollars in the values, a value does not begin as text after a dollar does. */
  lemma FirstIsDollar(env: Env, a: string, n: string, k: nat, more: string)
    requires FreeOf(env, '$') && a in env && n in env && k < |"$" + env[a]| && ("$" + env[a])[k] == '$'
    ensures ("$" + env[a])[..k] + env[n] != "$" + env[a] + more
  {
    var w := "$" + env[a];
    assert forall i :: 0 < i < |w| ==> w[i] == env[a][i - 1];
    assert w[..0] + env[n] == env[n];
    assert (w + more)[0] == '$';
  }

  lemma SameRest(y: string, a: string, b: string)
    requires y + a == y + b
    ensures a == b
  {
    assert a == (y + a)[|y|..] && b == (y + b)[|y|..];
  }

  lemma StopsOf(env: Env, s: string)
    requires IsSinglePass(env)
    ensures Stops(env, s)
  {}

  /** A value that is its own placeholder, with more behind it. */
  lemma OwnPlaceholder(env: Env, n: string)
    requires n in env && '}' !in n && "${" + n + "}" <= env[n]
    ensures !IsSinglePass(env)
  {
    hide IsSinglePass, Stops;
    if IsSinglePass(env) {
      StopsOf(env, "${" + n + "}" + "");
      SelfReferenceNeverStops(env, n, "");
    }
  }

  /** A text, from one of its characters on. */
  lemma FromDollar(w: string, k: nat)
    requires k < |w| && w[k] == '$'
    ensures w == w[..k] + ("$" + w[k + 1..])
  {}

  lemma Assoc(x: string, y: string, z: string)
    ensures (x + y) + z == x + (y + z)
  {}

  /** What the single pass makes of a value whose `k`-th dollar, the first that completes one, begins a placeholder. */
  lemma PartExpands(env: Env, a: string, k: nat, n: string)
    requires IsSinglePass(env) && a in env && '}' !in a && n in env && '}' !in n
    requires var w := "$" + env[a];
             && k < |w| && w[k] == '$' && w[k + 1..] <= "{" + n + "}"
             && forall j :: 0 <= j < k && w[j] == '$' ==> !Completes(env, w[j + 1..])
    ensures var w, p := "$" + env[a], "{" + n + "}";
            w[..k] + env[n] == w + SinglePass(env, p[|w| - k - 1..])
  {
    hide SinglePass, Completes, IsSinglePass;
    var w, p := "$" + env[a], "{" + n + "}";
    var z := w[k + 1..];
    var t := p[|z|..];
    assert z + t == p + "";
    ExpandAt(env, w, k, n, t, "");
    PassNothing(env);
    assert w[..k] + env[n] + "" == w[..k] + env[n];
    ValuesAreCopied(env, a, t);
  }

  /** If what is missing of the placeholder is copied, the value is the placeholder. */
  lemma PartIsOwn(env: Env, w: string, k: nat, n: string)
    requires n in env && k < |w| && w[k] == '$' && w[k + 1..] <= "{" + n + "}"
    requires w[..k] + env[n] == w + ("{" + n + "}")[|w| - k - 1..]
    ensures env[n] == "${" + n + "}"
  {
    var p := "{" + n + "}";
    var z := w[k + 1..];
    var t := p[|z|..];
    assert z + t == p;
    FromDollar(w, k);
    Assoc(w[..k], "$" + z, t);
    Assoc("$", z, t);
    SameRest(w[..k], env[n], "$" + p);
    assert "$" + p == "${" + n + "}";
  }

  /** A value that ends in the beginning of a placeholder. */
  lemma PartCompletes(env: Env, a: string, k: nat, n: string)
    requires DollarsApart(env) && a in env && '}' !in a && n in env && '}' !in n
    requires var w := "$" + env[a];
             && k < |w| && w[k] == '$' && w[k + 1..] <= "{" + n + "}"
             && forall j :: 0 <= j < k && w[j] == '$' ==> !Completes(env, w[j + 1..])
    ensures !IsSinglePass(env)
  {
    hide SinglePass, Completes, IsSinglePass, FreeOf;
    if IsSinglePass(env) {
      var w := "$" + env[a];
      var t := ("{" + n + "}")[|w| - k - 1..];
      PartExpands(env, a, k, n);
      if FreeOf(env, '$') {
        FirstIsDollar(env, a, n, k, SinglePass(env, t));
      } else {
        RestHasNone("{" + n + "}", |w| - k - 1);
        CopyPlain(env, t);
        PartIsOwn(env, w, k, n);
        OwnPlaceholder(env, n);
      }
    }
  }

  lemma RestHasNone(p: string, i: nat)
    requires '$' !in p && i <= |p|
    ensures '$' !in p[i..]
  {}

  /** What the single pass makes of a value whose first completing dollar opens a whole placeholder. */
  lemma WholeExpands(env: Env, a: string, k: nat, n: string) returns (rest: string, more: string)
    requires IsSinglePass(env) && a in env && '}' !in a && n in env && '}' !in n
    requires var w := "$" + env[a];
             && k < |w| && w[k] == '$' && "{" + n + "}" <= w[k + 1..]
             && forall j :: 0 <= j < k && w[j] == '$' ==> !Completes(env, w[j + 1..])
    ensures "${" + n + "}" + rest == env[n] + more
  {
    hide SinglePass, Completes, IsSinglePass;
    var w, p := "$" + env[a], "{" + n + "}";
    rest := w[k + 1..][|p|..];
    more := SinglePass(env, rest);
    assert w[k + 1..] + "" == p + rest;
    ExpandAt(env, w, k, n, "", rest);
    assert w + "" == w;
    PassNothing(env);
    ValuesAreCopied(env, a, "");
    assert w[..k] + env[n] + more == w;
    FromDollar(w, k);
    assert w[k + 1..] == p + rest;
    Assoc(w[..k], env[n], more);
    SameRest(w[..k], env[n] + more, "$" + (p + rest));
    assert "${" + n + "}" + rest == "$" + (p + rest);
  }

  lemma PrefixOfShared(a: string, x: string, b: string, y: string)
    requires a + x == b + y && |a| <= |b|
    ensures a <= b
  {
    assert a == (a + x)[..|a|] == (b + y)[..|a|] == b[..|a|];
  }

  /** A value that holds a whole placeholder. */
  lemma WholeCompletes(env: Env, a: string, k: nat, n: string)
    requires DollarsApart(env) && a in env && '}' !in a && n in env && '}' !in n
    requires var w := "$" + env[a];
             && k < |w| && w[k] == '$' && "{" + n + "}" <= w[k + 1..]
             && forall j :: 0 <= j < k && w[j] == '$' ==> !Completes(env, w[j + 1..])
    ensures !IsSinglePass(env)
  {
    hide Completes, IsSinglePass, DollarsApart;
    if IsSinglePass(env) {
      var rest, more := WholeExpands(env, a, k, n);
      var q, v := "${" + n + "}", env[n];
      if |v| >= |q| {
        PrefixOfShared(q, rest, v, more);
        OwnPlaceholder(env, n);
      } else {
        PrefixOfShared(v, more, q, rest);
        ShortValue(env, n);
      }
    }
  }

  /** A value that is the beginning of its own placeholder. */
  lemma ShortValue(env: Env, n: string)
    requires DollarsApart(env) && n in env && '}' !in n
    requires |env[n]| < |n| + 3 && env[n] <= "${" + n + "}"
    ensures !IsSinglePass(env)
  {
    hide IsSinglePass, DollarsApart;
    var v := env[n];
    var w := "$" + v;
    if v == "" {
      assert w[0 + 1..] == "";
      PartCompletes(env, n, 0, n);
    } else {
      assert v[0] == '$' && w[1] == '$' && w[0 + 1..] == v;
      assert !Completes(env, w[0 + 1..]);
      assert w[1 + 1..] <= "{" + n + "}" by { assert w[2..] == v[1..] && ("${" + n + "}")[1..] == "{" + n + "}"; }
      PartCompletes(env, n, 1, n);
    }
  }

  /**
   For every environment whose names, or whose values, hold no dollar: the loop stops on every
   input and is the single pass exactly when no dollar of a value, or in front of one, completes
   a placeholder.
   */
  lemma IsSinglePassIff(env: Env)
    requires DollarsApart(env)
    ensures IsSinglePass(env) <==> NoValueCompletes(env)
  {
    hide Safe, DollarsApart;
    if NoValueCompletes(env) {
      forall s ensures Stops(env, s) && Resolve(env, s) == SinglePass(env, s) { StopsAsSinglePass(env, s); }
    } else {
      var a :| a in env && '}' !in a && !Safe(env, "$" + env[a]);
      var i := UnsafeAt(env, "$" + env[a]);
      var k := FirstUnsafe(env, "$" + env[a], i);
      var n :| n in env && '}' !in n && PrefixComparable(("$" + env[a])[k + 1..], "{" + n + "}");
      if ("$" + env[a])[k + 1..] <= "{" + n + "}" { PartCompletes(env, a, k, n); } else { WholeCompletes(env, a, k, n); }
    }
  }

  lemma UnsafeAt(env: Env, w: string) returns (i: nat)
    requires !Safe(env, w)
    ensures i < |w| && w[i] == '$' && Completes(env, w[i + 1..])
  {
    var k :| 0 <= k < |w| && w[k] == '$' && Completes(env, w[k + 1..]);
    i := k;
  }

  /** Values without a dollar that are not empty and do not begin with a brace are only copied. */
  lemma PlainValuesAreCopied(env: Env, s: string)
    requires FreeOf(env, '$') && forall n :: n in env ==> env[n] != "" && env[n][0] != '{'
    ensures Stops(env, s) && Resolve(env, s) == SinglePass(env, s)
  {
    forall a | a in env && '}' !in a ensures Safe(env, "$" + env[a]) {
      var w := "$" + env[a];
      assert w[0 + 1..] == env[a];
      assert forall i :: 0 < i < |w| ==> w[i] == env[a][i - 1];
    }
    StopsAsSinglePass(env, s);
  }

  // ---------------------------------------------------------------- dollars in both names and values

  /** A variable whose value completes the placeholder of another one, whose name holds a dollar. */
  const MIXED: Env := map["M" := "v", "q${M" := "${qv", "a" := "{q"]

  /** No variable's name begins as the text that the value of `a` opens, but for the one of that name. */
  lemma MixedNames(n: string)
    requires n in MIXED && n != "" && n[0] == 'q'
    ensures n == "q${M"
  {}

  lemma CleanCopy(x: string, w: string)
    requires Clean(x) && w != "" && '$' !in w && !(EndsInDollar(x) && w[0] == '{')
    ensures Clean(x + w) && !EndsInDollar(x + w)
    decreases |x|
  {
    if x == "" {
      assert x + w == w;
      NoDollarIsClean(w);
    } else {
      assert (x + w)[1..] == x[1..] + w;
      CleanCopy(x[1..], w);
    }
  }

  lemma {:induction false} NoDollarIsClean(w: string)
    requires '$' !in w
    ensures Clean(w)
  {
    if |w| >= 2 { NoDollarIsClean(w[1..]); }
  }

  lemma CopyText(x: string, w: string, t: string)
    requires Clean(x) && w != "" && '$' !in w && !(EndsInDollar(x) && w[0] == '{')
    requires Stops(MIXED, t)
    ensures Stops(MIXED, x + w + t) && Resolve(MIXED, x + w + t) == x + w + Resolve(MIXED, t)
  {
    hide Stops;
    CleanCopy(x, w);
    ResolveCopies(MIXED, x + w, t);
  }

  /** An opening that no set name closes is copied, up to a text `w` behind it. */
  lemma OpenIsCopied(x: string, w: string, t: string)
    requires Clean(x) && w != "" && '$' !in w && Look(MIXED, x + "${" + (w + t)) == Unresolved(x, w + t)
    requires Stops(MIXED, t)
    ensures Stops(MIXED, x + "${" + (w + t)) && Resolve(MIXED, x + "${" + (w + t)) == x + "${" + w + Resolve(MIXED, t)
  {
    hide Stops, Look;
    ResolveUnresolved(MIXED, x + "${" + (w + t), Unresolved(x, w + t));
    assert "" + w + t == w + t;
    CopyText("", w, t);
    assert "" + w + Resolve(MIXED, t) == w + Resolve(MIXED, t);
    assert x + "${" + (w + Resolve(MIXED, t)) == x + "${" + w + Resolve(MIXED, t);
  }

  lemma LookUnset(env: Env, x: string, t: string)
    requires Clean(x) && (SplitOnce(t, '}').Some? ==> SplitOnce(t, '}').value.0 !in env)
    ensures Look(env, x + "${" + t) == Unresolved(x, t)
  {
    hide Cut, SplitOnce;
    CutAt(x, t);
  }

  /** The value of the variable with a dollar in its name is copied. */
  lemma OuterIsCopied(x: string, t: string)
    requires Clean(x) && Stops(MIXED, t)
    ensures Stops(MIXED, x + "${qv" + t) && Resolve(MIXED, x + "${qv" + t) == x + "${qv" + Resolve(MIXED, t)
  {
    hide Stops, Look;
    var close := SplitOnce("qv" + t, '}');
    if close.Some? && close.value.0 in MIXED {
      var n := close.value.0;
      assert n + ['}'] + close.value.1 == "qv" + t;
      assert n != "" ==> n[0] == 'q';
      assert |n| > 1 ==> n[1] == 'v';
      MixedNames(n);
    }
    LookUnset(MIXED, x, "qv" + t);
    OpenIsCopied(x, "qv", t);
    assert x + "${" + ("qv" + t) == x + "${qv" + t;
    assert x + "${" + "qv" + Resolve(MIXED, t) == x + "${qv" + Resolve(MIXED, t);
  }

  /** What the value of `a` opens is closed by the placeholder of `M`. */
  lemma OpenedAndClosed(y: string, rest: string)
    requires Clean(y) && Stops(MIXED, rest) && Resolve(MIXED, rest) == SinglePass(MIXED, rest)
    ensures var t := "${" + "M" + "}" + rest;
            Stops(MIXED, y + "${" + ("q" + t)) && Resolve(MIXED, y + "${" + ("q" + t)) == y + "${" + ("q" + SinglePass(MIXED, t))
  {
    hide Stops, Look, SinglePass, Clean;
    var t := "${" + "M" + "}" + rest;
    var s := y + "${" + ("q" + t);
    assert s == y + "${" + "q${M" + "}" + rest by { assert "q" + t == "q${M" + "}" + rest; }
    LookAt(MIXED, y, "q${M", rest);
    ResolvePlaceholder(MIXED, s, Placeholder(y, "${qv", rest));
    OuterIsCopied(y, rest);
    ExpandOne(MIXED, "M", rest);
    OuterText(y, SinglePass(MIXED, rest));
  }

  lemma OuterText(y: string, u: string)
    ensures y + "${qv" + u == y + "${" + ("q" + ("v" + u))
  {
    assert "${qv" == "${" + ("q" + "v");
  }

  /** Behind a dollar, the value of `a` opens a placeholder; what comes of it is what copying gives. */
  lemma OpenedByValue(y: string, t: string)
    requires Clean(y) && MixedBelow(|t| + 1)
    ensures Stops(MIXED, y + "${" + ("q" + t)) && Resolve(MIXED, y + "${" + ("q" + t)) == y + "${" + ("q" + SinglePass(MIXED, t))
  {
    hide Stops, Look, SinglePass, Clean, SplitOnce;
    var close := SplitOnce("q" + t, '}');
    if close.Some? && close.value.0 in MIXED {
      var (n, rest) := close.value;
      ClosedByM(t, n, rest);
      OpenedAndClosed(y, rest);
    } else {
      LookUnset(MIXED, y, "q" + t);
      OpenIsCopied(y, "q", t);
      Assoc(y + "${", "q", SinglePass(MIXED, t));
    }
  }

  lemma ClosedByM(t: string, n: string, rest: string)
    requires n in MIXED && n + ['}'] + rest == "q" + t
    ensures n == "q${M" && t == "${" + "M" + "}" + rest && |rest| < |t|
  {
    assert n != "" ==> n[0] == ("q" + t)[0] == 'q';
    assert n != "";
    MixedNames(n);
    assert t == ("q" + t)[1..];
  }

  ghost predicate MixedBelow(size: nat)
  {
    forall t {:trigger Stops(MIXED, t)} :: |t| < size ==> Stops(MIXED, t) && Resolve(MIXED, t) == SinglePass(MIXED, t)
  }

  lemma {:induction false} MixedIsSinglePass(s: string)
    ensures Stops(MIXED, s) && Resolve(MIXED, s) == SinglePass(MIXED, s)
    decreases |s|
  {
    hide Look, Stops;
    forall t {:trigger Stops(MIXED, t)} | |t| < |s| ensures Stops(MIXED, t) && Resolve(MIXED, t) == SinglePass(MIXED, t) {
      MixedIsSinglePass(t);
    }
    var f := Look(MIXED, s);
    match f {
      case Nothing =>
        ResolveNothing(MIXED, s);
      case Unresolved(x, t) =>
        AfterIsShorter(MIXED, s);
        ResolveUnresolved(MIXED, s, f);
      case Placeholder(x, v, t) =>
        AfterIsShorter(MIXED, s);
        var n := NameOf(MIXED, s);
        MixedValue(n, x, t);
        ResolvePlaceholder(MIXED, s, f);
    }
  }

  lemma MixedValue(n: string, x: string, t: string)
    requires n in MIXED && Clean(x) && MixedBelow(|t| + 1)
    ensures Stops(MIXED, x + MIXED[n] + t) && Resolve(MIXED, x + MIXED[n] + t) == x + MIXED[n] + SinglePass(MIXED, t)
  {
    hide Stops, SinglePass, Clean;
    if n == "M" {
      CopyText(x, "v", t);
    } else if n == "q${M" {
      OuterIsCopied(x, t);
    } else {
      assert MIXED[n] == "{q";
      BraceValue(x, t);
    }
  }

  lemma BraceValue(x: string, t: string)
    requires Clean(x) && MixedBelow(|t| + 1)
    ensures Stops(MIXED, x + "{q" + t) && Resolve(MIXED, x + "{q" + t) == x + "{q" + SinglePass(MIXED, t)
  {
    hide Stops, SinglePass, Clean;
    if EndsInDollar(x) {
      var y := x[..|x| - 1];
      CleanInit(x);
      OpenedByValue(y, t);
      DollarAndBrace(x, t);
      DollarAndBrace(x, SinglePass(MIXED, t));
    } else {
      CopyText(x, "{q", t);
    }
  }

  lemma DollarAndBrace(x: string, u: string)
    requires EndsInDollar(x)
    ensures x + "{q" + u == x[..|x| - 1] + "${" + ("q" + u)
  {
    assert x == x[..|x| - 1] + "$";
  }

  /** With dollars in both names and values, a value can complete a placeholder and the loop still be the single pass. */
  lemma CompletingCanBeHarmless()
    ensures !DollarsApart(MIXED) && !NoValueCompletes(MIXED) && IsSinglePass(MIXED)
  {
    hide Stops, SinglePass;
    assert "q${M"[1] == '$' && MIXED["q${M"][0] == '$';
    var w := "$" + MIXED["a"];
    assert w[0 + 1..] == "{q" <= "{" + "q${M" + "}";
    assert Completes(MIXED, w[0 + 1..]);
    forall s ensures Stops(MIXED, s) && Resolve(MIXED, s) == SinglePass(MIXED, s) { MixedIsSinglePass(s); }
  }
}
