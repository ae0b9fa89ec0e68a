/**
 When the placeholder expansion of crates/core/cce-config/src/env_loader.rs stops.
 */
module ExpansionStops {
  import opened Text
  import opened EnvPlaceholders

  // ---------------------------------------------------------------- by weight

  type Weights = char -> nat

  function Weight(w: Weights, s: string): nat
  {
    if s == "" then 0 else w(s[0]) + Weight(w, s[1..])
  }

  lemma {:induction false} WeightAppend(w: Weights, a: string, b: string)
    ensures Weight(w, a + b) == Weight(w, a) + Weight(w, b)
  {
    if a == "" {
      assert a + b == b;
    } else {
      assert (a + b)[1..] == a[1..] + b;
      WeightAppend(w, a[1..], b);
    }
  }

  /** Every placeholder weighs more than its value. */
  ghost predicate Shrinks(env: Env, w: Weights)
  {
    forall n :: n in env && '}' !in n ==> Weight(w, env[n]) < Weight(w, "${" + n + "}")
  }

  lemma WeightOfThree(w: Weights, a: string, b: string, c: string)
    ensures Weight(w, a + b + c) == Weight(w, a) + Weight(w, b) + Weight(w, c)
  {
    hide Weight;
    WeightAppend(w, a + b, c);
    WeightAppend(w, a, b);
  }

  /** A found placeholder, spelled out. */
  lemma FoundSpelled(env: Env, s: string) returns (n: string)
    requires Look(env, s).Placeholder?
    ensures var f := Look(env, s); n in env && '}' !in n && env[n] == f.value && s == f.before + ("${" + n + "}") + f.after
  {
    hide Cut, SplitOnce;
    CutSound(s);
    var (x, t) := Cut(s).value;
    var (name, after) := SplitOnce(t, '}').value;
    n := name;
    assert s == x + "${" + (n + ['}'] + after);
  }

  lemma PlaceholderWeight(env: Env, w: Weights, s: string)
    requires Look(env, s).Placeholder? && Shrinks(env, w)
    ensures var f := Look(env, s); Weight(w, f.before + f.value + f.after) < Weight(w, s)
  {
    hide Weight, Look;
    var f := Look(env, s);
    var n := FoundSpelled(env, s);
    WeightOfThree(w, f.before, f.value, f.after);
    WeightOfThree(w, f.before, "${" + n + "}", f.after);
  }

  lemma UnresolvedWeight(env: Env, w: Weights, s: string)
    requires Look(env, s).Unresolved?
    ensures Weight(w, Look(env, s).after) <= Weight(w, s)
  {
    CutSound(s);
    WeightAppend(w, Cut(s).value.0 + "${", Cut(s).value.1);
  }

  /** If every placeholder weighs more than its value, by some weights of the characters, the loop stops on every input. */
  lemma {:induction false} ShrinkingStops(env: Env, w: Weights, s: string)
    requires Shrinks(env, w)
    ensures Stops(env, s)
    decreases Weight(w, s), |s|
  {
    hide Look, Weight, Shrinks;
    var f := Look(env, s);
    match f {
      case Nothing => ResolveNothing(env, s);
      case Placeholder(x, v, t) =>
        PlaceholderWeight(env, w, s);
        ShrinkingStops(env, w, x + v + t);
        ResolvePlaceholder(env, s, f);
      case Unresolved(x, t) =>
        UnresolvedWeight(env, w, s);
        AfterIsShorter(env, s);
        ShrinkingStops(env, w, t);
        ResolveUnresolved(env, s, f);
    }
  }

  /** The weights that count one character. */
  function Counting(c: char): Weights { x => if x == c then 1 else 0 }

  lemma {:induction false} CountOf(c: char, s: string)
    ensures Weight(Counting(c), s) == 0 <==> c !in s
  {
    if s != "" { CountOf(c, s[1..]); }
  }

  /** No value holds `c`. */
  predicate FreeOf(env: Env, c: char) { forall n :: n in env ==> c !in env[n] }

  /** It is enough that one of the three characters of a placeholder is in no value. */
  lemma FreeOfOneStops(env: Env, c: char, s: string)
    requires c in "${}" && FreeOf(env, c)
    ensures Stops(env, s)
  {
    forall n | n in env && '}' !in n ensures Weight(Counting(c), env[n]) < Weight(Counting(c), "${" + n + "}") {
      CountOf(c, env[n]);
      CountOf(c, "${" + n + "}");
      var p := "${" + n + "}";
      assert p[0] == '$' && p[1] == '{' && p[|p| - 1] == '}';
    }
    ShrinkingStops(env, Counting(c), s);
  }

  /** Or that every value is shorter than its placeholder. */
  lemma ShorterStops(env: Env, s: string)
    requires forall n :: n in env && '}' !in n ==> |env[n]| < |n| + 3
    ensures Stops(env, s)
  {
    var w: Weights := _ => 1;
    forall n | n in env && '}' !in n ensures Weight(w, env[n]) < Weight(w, "${" + n + "}") {
      WeightIsLength(w, env[n]);
      WeightIsLength(w, "${" + n + "}");
    }
    ShrinkingStops(env, w, s);
  }

  lemma {:induction false} WeightIsLength(w: Weights, s: string)
    requires forall c :: w(c) == 1
    ensures Weight(w, s) == |s|
  {
    if s != "" { WeightIsLength(w, s[1..]); }
  }

  /** Without dollars in the values, the loop stops after at most one iteration for each dollar of the input. */
  lemma {:induction false} StopsWithinDollars(env: Env, s: string) returns (n: nat)
    requires FreeOf(env, '$')
    ensures n <= Weight(Counting('$'), s) && Halted(env, Iterate(env, State("", s), n))
    decreases Weight(Counting('$'), s)
  {
    hide Look, Weight;
    n := 0;
    var f := Look(env, s);
    if !f.Nothing? {
      StepUsesADollar(env, s);
      if f.Placeholder? {
        var m := StopsWithinDollars(env, f.before + f.value + f.after);
        n := m + 1;
      } else {
        var m := StopsWithinDollars(env, f.after);
        var d := f.before + "${";
        assert "" + d == d + "" == d;
        DoneIsKept(env, d, State("", f.after), m);
        n := m + 1;
      }
    }
  }

  lemma StepUsesADollar(env: Env, s: string)
    requires FreeOf(env, '$') && !Look(env, s).Nothing?
    ensures var f, w := Look(env, s), Counting('$');
            Weight(w, if f.Placeholder? then f.before + f.value + f.after else f.after) < Weight(w, s)
  {
    var f, w := Look(env, s), Counting('$');
    CutSound(s);
    if f.Placeholder? {
      forall n | n in env && '}' !in n ensures Weight(w, env[n]) < Weight(w, "${" + n + "}") {
        CountOf('$', env[n]);
        CountOf('$', "${" + n + "}");
        assert ("${" + n + "}")[0] == '$';
      }
      PlaceholderWeight(env, w, s);
    } else {
      WeightAppend(w, f.before + "${", f.after);
      CountOf('$', f.before + "${");
      assert (f.before + "${")[|f.before|] == '$';
    }
  }

  // ---------------------------------------------------------------- runs that never stop

  lemma {:induction false} SelfReferenceRuns(env: Env, n: string, u: string, k: nat)
    requires n in env && '}' !in n && "${" + n + "}" <= env[n]
    ensures !Halted(env, Iterate(env, State("", "${" + n + "}" + u), k))
    decreases k
  {
    hide Look;
    var p := "${" + n + "}";
    var s := State("", p + u);
    assert p + u == "" + "${" + n + "}" + u;
    LookAt(env, "", n, u);
    if k != 0 {
      var more := env[n][|p|..] + u;
      assert env[n] == p + env[n][|p|..];
      assert "" + env[n] + u == p + more;
      SelfReferenceRuns(env, n, more, k - 1);
    }
  }

  /** A value that begins with its own placeholder: the loop never stops on it. */
  lemma SelfReferenceNeverStops(env: Env, n: string, u: string)
    requires n in env && '}' !in n && "${" + n + "}" <= env[n]
    ensures !Stops(env, "${" + n + "}" + u)
  {
    hide Look;
    forall k: nat ensures !Halted(env, Iterate(env, State("", "${" + n + "}" + u), k)) { SelfReferenceRuns(env, n, u, k); }
  }

  // ---------------------------------------------------------------- from all inputs to the values

  function Lone(k: nat): string { seq(k, _ => '$') }

  /** The loop stops on every value, whatever number of dollars stands before it. */
  ghost predicate StopsOnValues(env: Env)
  {
    forall k: nat, n {:trigger Lone(k), env[n]} :: n in env && '}' !in n ==> Stops(env, Lone(k) + env[n])
  }

  ghost predicate StopsOnAll(env: Env) { forall s :: Stops(env, s) }

  /** Of clean text, only the dollars at its end matter. */
  lemma {:induction false} LoneEnd(x: string) returns (y: string, k: nat)
    requires Clean(x)
    ensures x == y + Lone(k) && Clean(y) && !EndsInDollar(y)
    decreases |x|
  {
    if EndsInDollar(x) {
      CleanInit(x);
      var k1;
      y, k1 := LoneEnd(x[..|x| - 1]);
      k := k1 + 1;
      assert Lone(k) == Lone(k1) + "$";
      assert x == x[..|x| - 1] + "$";
    } else {
      y, k := x, 0;
      assert x == x + Lone(0);
    }
  }

  lemma StopsAfterClean(env: Env, x: string, a: string)
    requires StopsOnValues(env) && Clean(x) && a in env && '}' !in a
    ensures Stops(env, x + env[a])
  {
    hide Clean, Lone, Stops, EndsInDollar;
    var y, k := LoneEnd(x);
    assert x + env[a] == y + (Lone(k) + env[a]);
    ResolveCopies(env, y, Lone(k) + env[a]);
  }

  lemma {:induction false} CutAppend(r: string, t: string)
    ensures Cut(r).Some? ==> Cut(r + t) == Some((Cut(r).value.0, Cut(r).value.1 + t))
    ensures Cut(r).None? && Cut(r + t).Some? ==> |Cut(r + t).value.1| < |t|
  {
    if r == "" {
      assert r + t == t;
      CutSound(t);
    } else if |r| == 1 {
      assert (r + t)[1..] == t;
      CutSound(t);
      if t != "" && r[0] == '$' && t[0] == '{' { assert (r + t)[2..] == t[1..]; }
    } else if r[0] == '$' && r[1] == '{' {
      assert (r + t)[2..] == r[2..] + t;
    } else {
      assert (r + t)[1..] == r[1..] + t;
      CutAppend(r[1..], t);
    }
  }

  lemma SplitAppend(q: string, t: string)
    ensures SplitOnce(q, '}').Some? ==> SplitOnce(q + t, '}') == Some((SplitOnce(q, '}').value.0, SplitOnce(q, '}').value.1 + t))
    ensures SplitOnce(q, '}').None? && SplitOnce(q + t, '}').Some? ==> |SplitOnce(q + t, '}').value.1| < |t|
  {
    match SplitOnce(q, '}') {
      case Some((n, after)) =>
        assert q + t == n + ['}'] + (after + t);
        SplitOnceAfter(n, '}', after + t);
      case None =>
        if SplitOnce(q + t, '}').Some? {
          var (n, after) := SplitOnce(q + t, '}').value;
          assert (q + t)[|n|] == '}';
          assert |n| >= |q|;
        }
    }
  }

  /** What more text after it changes about what an iteration finds: nothing, or it reaches into that text. */
  lemma LookAppend(env: Env, r: string, t: string)
    ensures var f, g := Look(env, r), Look(env, r + t);
            && (f.Placeholder? ==> g == Placeholder(f.before, f.value, f.after + t))
            && (f.Unresolved? ==> g == Unresolved(f.before, f.after + t) || (g.Placeholder? && |g.after| < |t|))
            && (f.Nothing? ==> g.Nothing? || |g.after| < |t|)
  {
    hide Cut, SplitOnce;
    CutAppend(r, t);
    match Cut(r) {
      case Some((x, q)) => SplitAppend(q, t);
      case None =>
        if Cut(r + t).Some? {
          var q := Cut(r + t).value.1;
          assert SplitOnce(q, '}').Some? ==> q == SplitOnce(q, '}').value.0 + ['}'] + SplitOnce(q, '}').value.1;
        }
    }
  }

  /** Every shorter text is known to stop, alone and after a value. */
  ghost predicate ShorterStop(env: Env, size: nat)
  {
    && (forall t :: |t| < size ==> Stops(env, t))
    && (forall x, a, t :: Clean(x) && a in env && '}' !in a && |t| < size ==> Stops(env, x + env[a] + t))
  }

  lemma PlaceholderShort(env: Env, s: string, size: nat)
    requires ShorterStop(env, size) && Look(env, s).Placeholder? && |Look(env, s).after| < size
    ensures Stops(env, s)
  {
    hide Look;
    var f := Look(env, s);
    var a := NameOf(env, s);
    assert Stops(env, f.before + env[a] + f.after);
    ResolvePlaceholder(env, s, f);
  }

  /** Text behind one on which the loop stops: the loop goes on as before, or reaches into what is shorter. */
  lemma {:induction false} StopsBehind(env: Env, r: string, t: string, n: nat)
    requires Halted(env, Iterate(env, State("", r), n)) && ShorterStop(env, |t|)
    ensures Stops(env, r + t)
    decreases n
  {
    hide Look, ShorterStop;
    LookAppend(env, r, t);
    var f, g := Look(env, r), Look(env, r + t);
    if g.Nothing? {
      ResolveNothing(env, r + t);
    } else if |g.after| < |t| {
      if g.Placeholder? {
        PlaceholderShort(env, r + t, |t|);
      } else {
        assert Stops(env, g.after) by { ShorterText(env, g.after, |t|); }
        ResolveUnresolved(env, r + t, g);
      }
    } else {
      FirstStep(env, r, n);
      if f.Placeholder? {
        StopsBehind(env, f.before + f.value + f.after, t, n - 1);
        assert f.before + f.value + f.after + t == g.before + g.value + g.after;
        ResolvePlaceholder(env, r + t, g);
      } else {
        var d := f.before + "${";
        assert "" + d == d + "" == d;
        DoneIsKept(env, d, State("", f.after), n - 1);
        StopsBehind(env, f.after, t, n - 1);
        ResolveUnresolved(env, r + t, g);
      }
    }
  }

  lemma ShorterText(env: Env, t: string, size: nat)
    requires ShorterStop(env, size) && |t| < size
    ensures Stops(env, t)
  {}

  lemma {:induction false} AllShorterStop(env: Env, size: nat)
    requires StopsOnValues(env)
    ensures ShorterStop(env, size)
    decreases size
  {
    hide Look, StopsOnValues, Stops;
    if size > 0 {
      AllShorterStop(env, size - 1);
      forall t | |t| < size ensures Stops(env, t) { TextStops(env, t); }
      forall x, a, t | Clean(x) && a in env && '}' !in a && |t| < size ensures Stops(env, x + env[a] + t) {
        ShorterIsMonotone(env, |t|, size - 1);
        StopsAfterClean(env, x, a);
        ValueStops(env, x + env[a], t);
      }
    }
  }

  lemma ValueStops(env: Env, r: string, t: string)
    requires Stops(env, r) && ShorterStop(env, |t|)
    ensures Stops(env, r + t)
  {
    hide Look, ShorterStop;
    var n: nat :| Halted(env, Iterate(env, State("", r), n));
    StopsBehind(env, r, t, n);
  }

  lemma ShorterIsMonotone(env: Env, a: nat, b: nat)
    requires ShorterStop(env, b) && a <= b
    ensures ShorterStop(env, a)
  {}

  lemma {:induction false} TextStops(env: Env, t: string)
    requires ShorterStop(env, |t|)
    ensures Stops(env, t)
  {
    hide Look, ShorterStop;
    var f := Look(env, t);
    if f.Nothing? {
      ResolveNothing(env, t);
    } else {
      AfterIsShorter(env, t);
      if f.Placeholder? {
        PlaceholderShort(env, t, |t|);
      } else {
        ShorterText(env, f.after, |t|);
        ResolveUnresolved(env, t, f);
      }
    }
  }

  /** The loop stops on every input exactly when it stops on every value with any number of dollars before it. */
  lemma StopsOnAllIff(env: Env)
    ensures StopsOnAll(env) <==> StopsOnValues(env)
  {
    if StopsOnValues(env) {
      forall s ensures Stops(env, s) {
        AllShorterStop(env, |s| + 1);
        ShorterText(env, s, |s| + 1);
      }
    }
  }

  // One dollar is not enough: an environment in which the loop stops on every value, alone and
  // after a lone dollar, but not on the value of V after two.

  const TWO_DOLLARS: Env := map["A" := "", "B" := "$$$", "V" := "{A}{B}{V}"]

  lemma StopsAtOnce(env: Env, s: string)
    requires Clean(s)
    ensures Stops(env, s)
  {
    CutSound(s);
    ResolveNothing(env, s);
  }

  lemma BraceTextIsClean()
    ensures Clean("{B}{V}") && Clean("{A}{B}{V}")
  {
    NoDollarIsClean("{B}{V}");
    NoDollarIsClean("{A}{B}{V}");
  }

  lemma {:induction false} NoDollarIsClean(s: string)
    requires '$' !in s
    ensures Clean(s)
  {
    if s != "" { NoDollarIsClean(s[1..]); }
  }

  lemma {:induction false} LoneIsClean(k: nat)
    ensures Clean(Lone(k))
  {
    if k > 0 {
      assert Lone(k)[1..] == Lone(k - 1);
      LoneIsClean(k - 1);
    }
  }

  lemma DollarsStop(k: nat, m: nat)
    ensures Stops(TWO_DOLLARS, Lone(k) + Lone(m))
  {
    assert Lone(k) + Lone(m) == Lone(k + m);
    LoneIsClean(k + m);
    StopsAtOnce(TWO_DOLLARS, Lone(k + m));
  }

  lemma OneDollarBeforeV()
    ensures Stops(TWO_DOLLARS, "$" + "{A}{B}{V}")
  {
    hide Look, Stops, Clean;
    BraceTextIsClean();
    StopsAtOnce(TWO_DOLLARS, "{B}{V}");
    var s := "$" + "{A}{B}{V}";
    assert s == "" + "${" + "A" + "}" + "{B}{V}";
    LookAt(TWO_DOLLARS, "", "A", "{B}{V}");
    assert "" + TWO_DOLLARS["A"] + "{B}{V}" == "{B}{V}";
    ResolvePlaceholder(TWO_DOLLARS, s, Look(TWO_DOLLARS, s));
  }

  lemma StopsAfterOneDollar(n: string, k: nat)
    requires n in TWO_DOLLARS && k <= 1
    ensures Stops(TWO_DOLLARS, Lone(k) + TWO_DOLLARS[n])
  {
    hide Stops, Clean;
    assert n == "A" || n == "B" || n == "V";
    if n == "V" {
      assert TWO_DOLLARS[n] == "{A}{B}{V}";
      if k == 0 {
        assert Lone(0) + "{A}{B}{V}" == "{A}{B}{V}";
        BraceTextIsClean();
        StopsAtOnce(TWO_DOLLARS, "{A}{B}{V}");
      } else {
        assert Lone(1) == "$";
        OneDollarBeforeV();
      }
    } else if n == "B" {
      assert TWO_DOLLARS[n] == Lone(3);
      DollarsStop(k, 3);
    } else {
      assert TWO_DOLLARS[n] == Lone(0);
      DollarsStop(k, 0);
    }
  }

  /** Three iterations that lead from the two dollars back to them. */
  lemma TwoDollarsCycle()
    ensures var s := State("", "$$" + "{A}{B}{V}");
            && !Halted(TWO_DOLLARS, s)
            && !Halted(TWO_DOLLARS, Iterate(TWO_DOLLARS, s, 1))
            && !Halted(TWO_DOLLARS, Iterate(TWO_DOLLARS, s, 2))
            && Iterate(TWO_DOLLARS, s, 3) == s
  {
    hide Look;
    var s0, s1, s2 := State("", "$$" + "{A}{B}{V}"), State("", "${B}{V}"), State("", "$$${V}");
    assert s0.rest == "$" + "${" + "A" + "}" + "{B}{V}";
    LookAt(TWO_DOLLARS, "$", "A", "{B}{V}");
    assert "$" + TWO_DOLLARS["A"] + "{B}{V}" == s1.rest;
    assert s1.rest == "" + "${" + "B" + "}" + "{V}";
    LookAt(TWO_DOLLARS, "", "B", "{V}");
    assert "" + TWO_DOLLARS["B"] + "{V}" == s2.rest;
    assert s2.rest == "$$" + "${" + "V" + "}" + "";
    LookAt(TWO_DOLLARS, "$$", "V", "");
    assert "$$" + TWO_DOLLARS["V"] + "" == s0.rest;
    assert Step(Look(TWO_DOLLARS, s0.rest), s0) == s1 && Step(Look(TWO_DOLLARS, s1.rest), s1) == s2;
    assert Step(Look(TWO_DOLLARS, s2.rest), s2) == s0;
    assert Iterate(TWO_DOLLARS, s0, 1) == Iterate(TWO_DOLLARS, s1, 0) == s1;
    assert Iterate(TWO_DOLLARS, s0, 2) == Iterate(TWO_DOLLARS, s1, 1) == Iterate(TWO_DOLLARS, s2, 0) == s2;
    assert Iterate(TWO_DOLLARS, s0, 3) == Iterate(TWO_DOLLARS, s1, 2) == Iterate(TWO_DOLLARS, s2, 1) == Iterate(TWO_DOLLARS, s0, 0) == s0;
  }

  lemma {:induction false} TwoDollarsRun(k: nat)
    ensures !Halted(TWO_DOLLARS, Iterate(TWO_DOLLARS, State("", "$$" + "{A}{B}{V}"), k))
    decreases k
  {
    hide Look, Iterate;
    TwoDollarsCycle();
    if k >= 3 {
      IterateAdd(TWO_DOLLARS, State("", "$$" + "{A}{B}{V}"), 3, k - 3);
      TwoDollarsRun(k - 3);
    } else if k == 0 {
      IterateNone(TWO_DOLLARS, State("", "$$" + "{A}{B}{V}"));
    }
  }

  lemma IterateNone(env: Env, s: State)
    ensures Iterate(env, s, 0) == s
  {}

  /** The values alone and after a lone dollar do not decide whether the loop stops on every input. */
  lemma OneDollarIsNotEnough()
    ensures forall k: nat, n {:trigger Lone(k), TWO_DOLLARS[n]} :: k <= 1 && n in TWO_DOLLARS ==> Stops(TWO_DOLLARS, Lone(k) + TWO_DOLLARS[n])
    ensures !Stops(TWO_DOLLARS, Lone(2) + TWO_DOLLARS["V"])
  {
    hide Look, Stops;
    forall k: nat, n {:trigger Lone(k), TWO_DOLLARS[n]} | k <= 1 && n in TWO_DOLLARS ensures Stops(TWO_DOLLARS, Lone(k) + TWO_DOLLARS[n]) {
      StopsAfterOneDollar(n, k);
    }
    assert Lone(2) + TWO_DOLLARS["V"] == "$$" + "{A}{B}{V}";
    NeverStops(TWO_DOLLARS, "$$" + "{A}{B}{V}");
  }

  lemma NeverStops(env: Env, s: string)
    requires env == TWO_DOLLARS && s == "$$" + "{A}{B}{V}"
    ensures !Stops(env, s)
  {
    forall k: nat ensures !Halted(env, Iterate(env, State("", s), k)) { TwoDollarsRun(k); }
  }
}
