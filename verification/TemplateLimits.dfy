/**
 Exactly when the chain of replacements equals the simultaneous substitution, for any collector name.
 Every replacement takes one opening brace away, so counting braces shows what a stray token costs.
 */
module TemplateLimits {
  import opened Text
  import opened Templates
  import Layout
  import opened Common

  predicate RealExtension(v: Values) {
    v.ext == "gz" || v.ext == "bz2" || v.ext == "zst"
  }

  /** Opening braces in `x`. */
  function Braces(x: string): nat {
    if x == "" then 0 else (if x[0] == '{' then 1 else 0) + Braces(x[1..])
  }

  /** The tokens in the order of the chain, after the first. */
  function Later(): seq<Token> {
    [Yyyy, Mm, Dd, Yyyymmdd, HhMm, Ext]
  }

  function SumHits(x: string, ts: seq<Token>): nat {
    if ts == [] then 0 else Hits(x, ts[0]) + SumHits(x, ts[1..])
  }

  /** How often the pass over the template meets token `t`. */
  function Count(s: string, t: Token): nat
    decreases |s|
  {
    if s == "" then 0 else (if TokenAt(s) == Some(t) then 1 else 0) + Count(Tail(s), t)
  }

  function SumCounts(s: string, ts: seq<Token>): nat {
    if ts == [] then 0 else Count(s, ts[0]) + SumCounts(s, ts[1..])
  }

  function Steps(x: string, ts: seq<Token>, v: Values): string
    requires v.Valid()
    decreases |ts|
  {
    if ts == [] then x else Steps(Step(x, ts[0], v), ts[1..], v)
  }

  /** No later token is spelled anywhere in `x`. */
  ghost predicate Silent(x: string) {
    forall t :: t != Collector ==> !Contains(x, TokenText(t))
  }

  // ----- Counting

  lemma {:induction false} BracesConcat(x: string, y: string)
    ensures Braces(x + y) == Braces(x) + Braces(y)
  {
    if x == "" {
      assert x + y == y;
    } else {
      assert (x + y)[0] == x[0] && (x + y)[1..] == x[1..] + y;
      BracesConcat(x[1..], y);
    }
  }

  lemma {:induction false} NoBraces(x: string)
    requires '{' !in x
    ensures Braces(x) == 0
  {
    if x != "" {
      NoBraces(x[1..]);
    }
  }

  lemma {:induction false} TokenBraces(t: Token)
    ensures Braces(TokenText(t)) == 1
  {
    var p := TokenText(t);
    hide TokenText;
    NoBraces(p[1..]);
  }

  /** The token's own text, then the rest: one hit for itself and none for any other. */
  lemma {:induction false} HitsToken(t: Token, rest: string, u: Token)
    ensures Hits(TokenText(t) + rest, u) == (if u == t then 1 else 0) + Hits(rest, u)
  {
    var p, x := TokenText(t), TokenText(t) + rest;
    if u != t && TokenText(u) <= x {
      TokenPrefixFree(u, t, rest);
    }
    hide TokenText;
    assert u == t ==> p <= x;
    assert x[0] == p[0] && x[1..] == p[1..] + rest;
    HitsSkip(p[1..], rest, u);
  }

  /** Each replacement removes as many opening braces as it has hits. */
  lemma {:induction false} StepBraces(x: string, t: Token, w: string)
    requires BraceFree(w)
    ensures Braces(Replace(x, TokenText(t), w)) + Hits(x, t) == Braces(x)
    decreases |x|
  {
    var p := TokenText(t);
    if x != "" && p <= x {
      var rest := x[|p|..];
      assert x == p + rest;
      StepBraces(rest, t, w);
      HitsToken(t, rest, t);
      TokenBraces(t);
      hide *;
      BracesConcat(p, rest);
      BracesConcat(w, Replace(rest, p, w));
      NoBraces(w);
      ReplaceHit(p, rest, w);
    } else if x != "" {
      StepBraces(x[1..], t, w);
      ReplaceFirst(x, p, w);
      hide TokenText, Replace;
      var y := [x[0]] + Replace(x[1..], p, w);
      assert y[0] == x[0] && y[1..] == Replace(x[1..], p, w);
    }
  }

  /** A replacement destroys no other token. */
  lemma {:induction false} HitsSurvive(x: string, t: Token, w: string, u: Token)
    requires u != t
    ensures Hits(x, u) <= Hits(Replace(x, TokenText(t), w), u)
    decreases |x|
  {
    var p := TokenText(t);
    if x != "" && p <= x {
      var rest := x[|p|..];
      assert x == p + rest;
      HitsSurvive(rest, t, w, u);
      HitsToken(t, rest, u);
      hide *;
      HitsSuffix(w, Replace(rest, p, w), u);
      ReplaceHit(p, rest, w);
    } else if x != "" {
      HitsSurvive(x[1..], t, w, u);
      ReplaceFirst(x, p, w);
      var y := [x[0]] + Replace(x[1..], p, w);
      assert y[0] == x[0] && y[1..] == Replace(x[1..], p, w);
      if TokenText(u) <= x {
        HeadSurvives(x, t, w, u);
      }
      hide TokenText, Replace;
    }
  }

  lemma {:induction false} HeadSurvives(x: string, t: Token, w: string, u: Token)
    requires x != "" && TokenText(u) <= x && !(TokenText(t) <= x)
    ensures TokenText(u) <= [x[0]] + Replace(x[1..], TokenText(t), w)
  {
    var p, q := TokenText(t), TokenText(u);
    hide TokenText, Replace;
    var inner, rest := q[1..], x[|q|..];
    assert x[1..] == inner + rest && x[0] == q[0];
    assert '{' !in inner;
    ReplaceSkips(inner, rest, p, w);
    assert [x[0]] + (inner + Replace(rest, p, w)) == q + Replace(rest, p, w);
  }

  lemma {:induction false} SumSurvives(x: string, t: Token, w: string, ts: seq<Token>)
    requires t !in ts
    ensures SumHits(x, ts) <= SumHits(Replace(x, TokenText(t), w), ts)
  {
    if ts != [] {
      HitsSurvive(x, t, w, ts[0]);
      SumSurvives(x, t, w, ts[1..]);
      hide TokenText, Replace, Hits;
    }
  }

  ghost predicate Distinct(ts: seq<Token>) {
    forall i, j :: 0 <= i < j < |ts| ==> ts[i] != ts[j]
  }

  /** A chain of replacements removes at least the tokens that were there at the start. */
  lemma {:induction false} StepsBraces(x: string, ts: seq<Token>, v: Values)
    requires v.Valid() && BraceFree(v.ext) && Distinct(ts) && Collector !in ts
    ensures Braces(Steps(x, ts, v)) + SumHits(x, ts) <= Braces(x)
    decreases |ts|
  {
    if ts != [] {
      var t := ts[0];
      ValuesBraceFree(t, v);
      StepBraces(x, t, ValueOf(t, v));
      SumSurvives(x, t, ValueOf(t, v), ts[1..]);
      StepIsReplace(x, t, v);
      StepsBraces(Step(x, t, v), ts[1..], v);
      hide TokenText, ValueOf, Replace, Hits, Braces, Step;
    }
  }

  // ----- What the template alone accounts for

  /** No token has the first character of a date field or an extension. */
  predicate TokenChars(u: string) {
    forall i :: 0 <= i < |u| ==> u[i] in "{}colectrymdhx"
  }

  lemma {:induction false} TokensHaveTokenChars(t: Token)
    ensures TokenChars(TokenText(t))
  {
  }

  lemma {:induction false} ValuesStartOtherwise(t: Token, v: Values)
    requires v.Valid() && RealExtension(v) && t != Collector
    ensures ValueOf(t, v) != "" && ValueOf(t, v)[0] !in "{}colectrymdhx"
  {
    hide Padded;
    match t
    case Yyyy => YearStarts(v.clock.date.year);
    case Mm => DigitFirst(Padded(2, v.clock.date.month));
    case Dd => DigitFirst(Padded(2, v.clock.date.day));
    case Yyyymmdd => YearStarts(v.clock.date.year);
    case HhMm => DigitFirst(Padded(2, v.clock.hour));
    case Ext =>
  }

  lemma {:induction false} DigitFirst(s: string)
    requires AllDigits(s) && s != ""
    ensures s[0] !in "{}colectrymdhx"
  {
    assert IsDigit(s[0]);
  }

  lemma {:induction false} YearStarts(y: int)
    ensures Layout.YearField(y) != "" && Layout.YearField(y)[0] !in "{}colectrymdhx"
  {
    hide Padded;
    if y >= 0 {
      DigitFirst(Padded(4, y));
    }
  }

  /** What begins the finished rendering and could be part of a token begins it with only the collector substituted, too. */
  lemma {:induction false} PrefixNeedsNoValue(u: string, s: string, v: Values)
    requires v.Valid() && RealExtension(v) && TokenChars(u) && u <= OnePass(s, v)
    ensures u <= Partial(s, v, {Collector})
    decreases |s|, 1
  {
    hide TokenText, TokenAt, ValueOf, Rendered, Tail;
    if s != "" && u != "" {
      OnePassUnfolds(s, v);
      PartialUnfolds(s, v, {Collector});
      RenderedCases(s, v, AllTokens());
      RenderedCases(s, v, {Collector});
      hide Partial, OnePass;
      var h, rest := Rendered(s, v, AllTokens()), OnePass(Tail(s), v);
      if TokenAt(s).Some? && TokenAt(s).value != Collector {
        TokenInAll(TokenAt(s).value);
        ValuesStartOtherwise(TokenAt(s).value, v);
        FirstOf(u, h, rest);
      } else {
        CollectorInAll();
        PrefixOfSame(u, h, rest, s, v);
      }
    }
  }

  lemma {:induction false} CollectorInAll()
    ensures Collector in AllTokens()
  {
  }

  lemma {:induction false} PrefixOfSame(u: string, h: string, rest: string, s: string, v: Values)
    requires v.Valid() && RealExtension(v) && TokenChars(u) && s != "" && u <= h + rest
    requires rest == OnePass(Tail(s), v)
    ensures u <= h + Partial(Tail(s), v, {Collector})
    decreases |s|, 0
  {
    hide TokenText, TokenAt, ValueOf, Rendered, Tail, Partial, OnePass;
    if |u| > |h| {
      PrefixPeels(u, h, rest);
      PrefixNeedsNoValue(u[|h|..], Tail(s), v);
      assert u == h + u[|h|..];
    } else {
      assert u <= h;
    }
  }

  lemma {:induction false} FirstOf(u: string, h: string, rest: string)
    requires u <= h + rest && h != "" && u != ""
    ensures u[0] == h[0]
  {
    assert (h + rest)[0] == h[0];
    assert (h + rest)[..|u|][0] == u[0];
  }

  /** A token seen in the finished rendering from within a collector is seen there before the other replacements, too. */
  lemma {:induction false} CollectorHits(c: string, s: string, v: Values, t: Token)
    requires v.Valid() && RealExtension(v)
    ensures Hits(c + OnePass(s, v), t) + Hits(Partial(s, v, {Collector}), t)
            <= Hits(c + Partial(s, v, {Collector}), t) + Hits(OnePass(s, v), t)
  {
    var w, m := OnePass(s, v), Partial(s, v, {Collector});
    if c == "" {
      hide *;
      assert c + w == w && c + m == m;
    } else {
      CollectorHits(c[1..], s, v, t);
      hide *;
      HitsCons(c, w, t);
      HitsCons(c, m, t);
      if TokenText(t) <= c + w {
        HitStays(c, s, v, t);
      }
    }
  }

  lemma {:induction false} HitsCons(c: string, x: string, t: Token)
    requires c != ""
    ensures Hits(c + x, t) == (if TokenText(t) <= c + x then 1 else 0) + Hits(c[1..] + x, t)
  {
    hide TokenText;
    assert (c + x)[1..] == c[1..] + x;
  }

  lemma {:induction false} HitStays(c: string, s: string, v: Values, t: Token)
    requires v.Valid() && RealExtension(v) && c != "" && TokenText(t) <= c + OnePass(s, v)
    ensures TokenText(t) <= c + Partial(s, v, {Collector})
  {
    var p := TokenText(t);
    TokensHaveTokenChars(t);
    hide TokenText, OnePass, Partial;
    if |p| > |c| {
      PrefixPeels(p, c, OnePass(s, v));
      PrefixNeedsNoValue(p[|c|..], s, v);
      assert p == c + p[|c|..];
    } else {
      assert p <= c;
    }
  }

  /** With only the collector substituted, a token occurs as often as in the template and in the finished rendering together. */
  lemma {:induction false} HitsBefore(s: string, v: Values, t: Token)
    requires v.Valid() && RealExtension(v) && BracesOnlyInTokens(s) && t != Collector
    ensures Count(s, t) + Hits(OnePass(s, v), t) <= Hits(Partial(s, v, {Collector}), t)
    decreases |s|
  {
    if s != "" {
      HitsBefore(Tail(s), v, t);
      OnePassUnfolds(s, v);
      HeadHits(s, v, t);
      PartialUnfolds(s, v, {Collector});
      CountUnfolds(s, t);
      hide *;
    }
  }

  lemma {:induction false} PartialUnfolds(s: string, v: Values, done: set<Token>)
    requires v.Valid() && s != ""
    ensures Partial(s, v, done) == Rendered(s, v, done) + Partial(Tail(s), v, done)
  {
    hide TokenAt, Rendered, Tail;
  }

  lemma {:induction false} CountUnfolds(s: string, t: Token)
    requires s != ""
    ensures Count(s, t) == (if TokenAt(s) == Some(t) then 1 else 0) + Count(Tail(s), t)
  {
    hide TokenAt, Tail;
  }

  /** The head of a template adds to the hits on both sides as to the count. */
  lemma {:induction false} HeadHits(s: string, v: Values, t: Token)
    requires v.Valid() && RealExtension(v) && s != "" && (TokenAt(s).Some? || BraceFree([s[0]])) && t != Collector
    ensures var rest, m := OnePass(Tail(s), v), Partial(Tail(s), v, {Collector});
            (if TokenAt(s) == Some(t) then 1 else 0) + Hits(Rendered(s, v, AllTokens()) + rest, t) + Hits(m, t)
            <= Hits(Rendered(s, v, {Collector}) + m, t) + Hits(rest, t)
  {
    hide TokenText, TokenAt, OnePass, Partial, Hits, ValueOf, Rendered;
    var rest, m := OnePass(Tail(s), v), Partial(Tail(s), v, {Collector});
    RenderedCases(s, v, {Collector});
    RenderedCases(s, v, AllTokens());
    match TokenAt(s)
    case None =>
      assert '{' !in [s[0]];
      hide *;
      HitsSkip([s[0]], rest, t);
      HitsSkip([s[0]], m, t);
    case Some(u) =>
      TokenInAll(u);
      if u == Collector {
        hide *;
        CollectorHits(v.collector, Tail(s), v, t);
      } else {
        ValuesBraceFree(u, v);
        var w := ValueOf(u, v);
        assert '{' !in w;
        hide *;
        HitsSkip(w, rest, t);
        HitsToken(u, m, t);
      }
  }

  lemma {:induction false} RenderedCases(s: string, v: Values, done: set<Token>)
    requires v.Valid() && s != ""
    ensures match TokenAt(s)
            case None => Rendered(s, v, done) == [s[0]]
            case Some(u) => Rendered(s, v, done) == if u in done then ValueOf(u, v) else TokenText(u)
    ensures ValueOf(Collector, v) == v.collector
  {
    hide TokenText, TokenAt;
  }

  // ----- The exact condition

  lemma {:induction false} BracesBefore(s: string, v: Values)
    requires v.Valid() && BraceFree(v.ext) && BracesOnlyInTokens(s)
    ensures Braces(Partial(s, v, {Collector})) == SumCounts(s, Later()) + Braces(OnePass(s, v))
    decreases |s|
  {
    if s == "" {
      SumCountsEmpty(Later());
    } else {
      TailBraces(s, v);
      BracesBefore(Tail(s), v);
    }
  }

  /** The head of a template accounts for its own brace. */
  lemma {:induction false} TailBraces(s: string, v: Values)
    requires v.Valid() && BraceFree(v.ext) && s != "" && BracesOnlyInTokens(s)
    ensures BracesOnlyInTokens(Tail(s))
    ensures Braces(Partial(s, v, {Collector})) + SumCounts(Tail(s), Later()) + Braces(OnePass(Tail(s), v))
            == SumCounts(s, Later()) + Braces(OnePass(s, v)) + Braces(Partial(Tail(s), v, {Collector}))
  {
    HeadBraces(s, v);
    hide *;
    LaterTokens();
    OnePassUnfolds(s, v);
    PartialUnfolds(s, v, {Collector});
    SumCountsUnfolds(s, Later());
    BracesConcat(Rendered(s, v, AllTokens()), OnePass(Tail(s), v));
    BracesConcat(Rendered(s, v, {Collector}), Partial(Tail(s), v, {Collector}));
  }

  lemma {:induction false} HeadBraces(s: string, v: Values)
    requires v.Valid() && BraceFree(v.ext) && s != "" && (TokenAt(s).Some? || BraceFree([s[0]]))
    ensures Braces(Rendered(s, v, {Collector}))
            == (if TokenAt(s).Some? && TokenAt(s).value in Later() then 1 else 0) + Braces(Rendered(s, v, AllTokens()))
  {
    LaterTokens();
    hide TokenText, TokenAt, Braces, ValueOf, Later;
    if TokenAt(s).Some? {
      var u := TokenAt(s).value;
      TokenInAll(u);
      if u != Collector {
        ValuesBraceFree(u, v);
        NoBraces(ValueOf(u, v));
        TokenBraces(u);
      }
    }
  }

  lemma {:induction false} LaterTokens()
    ensures Distinct(Later()) && forall t :: t in Later() <==> t != Collector
  {
    assert forall t: Token :: t.Collector? || t.Yyyy? || t.Mm? || t.Dd? || t.Yyyymmdd? || t.HhMm? || t.Ext?;
    assert Later()[0] == Yyyy && Later()[1] == Mm && Later()[2] == Dd && Later()[3] == Yyyymmdd && Later()[4] == HhMm && Later()[5] == Ext;
  }

  lemma {:induction false} SumCountsEmpty(ts: seq<Token>)
    ensures SumCounts("", ts) == 0
  {
    if ts != [] {
      SumCountsEmpty(ts[1..]);
    }
  }

  lemma {:induction false} SumCountsUnfolds(s: string, ts: seq<Token>)
    requires s != "" && Distinct(ts)
    ensures SumCounts(s, ts) == (if TokenAt(s).Some? && TokenAt(s).value in ts then 1 else 0) + SumCounts(Tail(s), ts)
  {
    hide TokenAt, Tail, Count;
    if ts != [] {
      CountUnfolds(s, ts[0]);
      SumCountsUnfolds(s, ts[1..]);
      assert ts == [ts[0]] + ts[1..];
    }
  }

  lemma {:induction false} SumHitsBefore(s: string, v: Values, ts: seq<Token>)
    requires v.Valid() && RealExtension(v) && BracesOnlyInTokens(s) && Collector !in ts
    ensures SumCounts(s, ts) + SumHits(OnePass(s, v), ts) <= SumHits(Partial(s, v, {Collector}), ts)
  {
    hide OnePass, Partial, Count, Hits;
    if ts != [] {
      HitsBefore(s, v, ts[0]);
      SumHitsBefore(s, v, ts[1..]);
    }
  }

  lemma {:induction false} ChainIsSteps(s: string, v: Values)
    requires v.Valid() && BraceFree(v.ext) && BracesOnlyInTokens(s)
    ensures Chain(s, v) == Steps(Partial(s, v, {Collector}), Later(), v)
  {
    PartialNone(s, v);
    StepAdvances(s, v, {}, Collector);
    assert {} + {Collector} == {Collector};
    var x := Step(s, Collector, v);
    hide Step, Partial, BracesOnlyInTokens;
    FiveMore(x, v);
  }

  lemma {:induction false} FiveMore(x: string, v: Values)
    requires v.Valid()
    ensures Steps(x, Later(), v) == Step(Step(Step(Step(Step(Step(x, Yyyy, v), Mm, v), Dd, v), Yyyymmdd, v), HhMm, v), Ext, v)
  {
    hide Step;
    var ts := Later();
    var x1 := Step(x, Yyyy, v);
    var x2 := Step(x1, Mm, v);
    var x3 := Step(x2, Dd, v);
    assert ts[1..] == [Mm, Dd, Yyyymmdd, HhMm, Ext] && ts[1..][1..] == [Dd, Yyyymmdd, HhMm, Ext];
    assert ts[1..][1..][1..] == [Yyyymmdd, HhMm, Ext];
    assert Steps(x, ts, v) == Steps(x3, [Yyyymmdd, HhMm, Ext], v);
    assert [Yyyymmdd, HhMm, Ext][1..] == [HhMm, Ext] && [HhMm, Ext][1..] == [Ext] && [Ext][1..] == [];
  }

  /** Each token the finished rendering spells costs the chain an opening brace. */
  lemma {:induction false} ChainLosesBraces(s: string, v: Values)
    requires v.Valid() && RealExtension(v) && BracesOnlyInTokens(s)
    ensures Braces(Chain(s, v)) + SumHits(OnePass(s, v), Later()) <= Braces(OnePass(s, v))
  {
    hide *;
    LaterTokens();
    RealIsBraceFree(v);
    ChainIsSteps(s, v);
    BracesBefore(s, v);
    SumHitsBefore(s, v, Later());
    StepsBraces(Partial(s, v, {Collector}), Later(), v);
  }

  lemma {:induction false} HitIffContains(x: string, t: Token)
    ensures Hits(x, t) > 0 <==> Contains(x, TokenText(t))
  {
    hide TokenText;
    var p := TokenText(t);
    if x != "" {
      HitIffContains(x[1..], t);
      ContainsCons(x, p);
    }
  }

  lemma {:induction false} ContainsCons(x: string, p: string)
    requires x != "" && p != ""
    ensures Contains(x, p) <==> p <= x || Contains(x[1..], p)
  {
    forall i | 0 < i <= |x|
      ensures StartsAt(x, i, p) <==> StartsAt(x[1..], i - 1, p)
    {
      assert i + |p| <= |x| ==> x[i..i + |p|] == x[1..][i - 1..i - 1 + |p|];
    }
    assert |p| <= |x| ==> x[0..0 + |p|] == x[..|p|];
    assert StartsAt(x, 0, p) <==> p <= x;
    if Contains(x[1..], p) {
      var j :| 0 <= j <= |x[1..]| && StartsAt(x[1..], j, p);
      assert StartsAt(x, j + 1, p);
    }
  }

  /**
   For every collector name: the chain of replacements substitutes every token at once exactly when
   no later token is spelled in what it should render.
   */
  lemma {:induction false} ChainIsOnePassIff(s: string, v: Values)
    requires v.Valid() && RealExtension(v) && BracesOnlyInTokens(s)
    ensures Chain(s, v) == OnePass(s, v) <==> Silent(OnePass(s, v))
  {
    hide *;
    RealIsBraceFree(v);
    SilentIffNoHits(OnePass(s, v));
    ChainLosesBraces(s, v);
    if Silent(OnePass(s, v)) {
      ChainWhenSilent(s, v);
    }
  }

  lemma {:induction false} RealIsBraceFree(v: Values)
    requires RealExtension(v)
    ensures BraceFree(v.ext)
  {
  }

  lemma {:induction false} SilentIffNoHits(x: string)
    ensures Silent(x) <==> SumHits(x, Later()) == 0
    ensures Silent(x) <==> forall t :: t != Collector ==> Hits(x, t) == 0
  {
    hide Hits, TokenText, Contains, SumHits, Later, Distinct;
    LaterTokens();
    SumHitsZero(x, Later());
    forall t: Token | t != Collector
      ensures Hits(x, t) == 0 <==> !Contains(x, TokenText(t))
      ensures t in Later()
    {
      HitIffContains(x, t);
    }
    if forall t :: t != Collector ==> Hits(x, t) == 0 {
      assert forall t: Token :: t != Collector ==> !Contains(x, TokenText(t));
    }
    if Silent(x) {
      forall t: Token | t != Collector
        ensures Hits(x, t) == 0
      {
        HitIffContains(x, t);
      }
    }
  }

  lemma {:induction false} SumHitsZero(x: string, ts: seq<Token>)
    ensures SumHits(x, ts) == 0 <==> forall t :: t in ts ==> Hits(x, t) == 0
  {
    hide Hits;
    if ts != [] {
      SumHitsZero(x, ts[1..]);
      assert ts[0] in ts && forall t :: t in ts <==> t == ts[0] || t in ts[1..];
    }
  }

  // ----- Templates with one collector

  lemma {:induction false} NoCollectorBraceFree(s: string, v: Values)
    requires v.Valid() && BraceFree(v.ext) && BracesOnlyInTokens(s) && Count(s, Collector) == 0
    ensures BraceFree(OnePass(s, v))
    decreases |s|
  {
    hide TokenText, TokenAt, ValueOf, Rendered, Tail;
    if s != "" {
      NoCollectorBraceFree(Tail(s), v);
      OnePassUnfolds(s, v);
      RenderedCases(s, v, AllTokens());
      if TokenAt(s).Some? {
        TokenInAll(TokenAt(s).value);
        ValuesBraceFree(TokenAt(s).value, v);
      }
    }
  }

  lemma {:induction false} HitsBeforePlain(c: string, b: string, t: Token)
    requires BraceFree(b)
    ensures Hits(c + b, t) == Hits(c, t)
  {
    if c == "" {
      HitsSkip(b, "", t);
      assert b + "" == b && c + b == b;
    } else {
      HitsBeforePlain(c[1..], b, t);
      HitsCons(c, b, t);
      HitsCons(c, "", t);
      hide *;
      PlainTail(TokenText(t), c, b);
      assert c + "" == c && c[1..] + "" == c[1..];
    }
  }

  lemma {:induction false} PlainTail(p: string, c: string, b: string)
    requires BraceFree(b) && p != "" && p[|p| - 1] == '}'
    ensures p <= c + b <==> p <= c
  {
    var x := c + b;
    assert forall i :: |c| <= i < |x| ==> x[i] == b[i - |c|];
    assert |p| <= |x| && p == x[..|p|] ==> x[|p| - 1] == '}';
    assert |p| <= |c| ==> x[..|p|] == c[..|p|];
  }

  lemma {:induction false} OneCollectorHits(s: string, v: Values, t: Token)
    requires v.Valid() && BraceFree(v.ext) && BracesOnlyInTokens(s) && Count(s, Collector) == 1
    ensures Hits(OnePass(s, v), t) == Hits(v.collector, t)
    decreases |s|
  {
    hide TokenText, TokenAt, ValueOf, Rendered, Tail, Hits;
    OnePassUnfolds(s, v);
    RenderedCases(s, v, AllTokens());
    match TokenAt(s)
    case None =>
      HitsSkip([s[0]], OnePass(Tail(s), v), t);
      OneCollectorHits(Tail(s), v, t);
    case Some(u) =>
      TokenInAll(u);
      if u == Collector {
        NoCollectorBraceFree(Tail(s), v);
        HitsBeforePlain(v.collector, OnePass(Tail(s), v), t);
      } else {
        ValuesBraceFree(u, v);
        HitsSkip(ValueOf(u, v), OnePass(Tail(s), v), t);
        OneCollectorHits(Tail(s), v, t);
      }
  }

  /** With one `{collector}` in the template, the chain is right exactly for collector names that contain no later token. */
  lemma {:induction false} OneCollectorIff(s: string, v: Values)
    requires v.Valid() && RealExtension(v) && BracesOnlyInTokens(s) && Count(s, Collector) == 1
    ensures Chain(s, v) == OnePass(s, v) <==> Silent(v.collector)
  {
    hide *;
    RealIsBraceFree(v);
    ChainIsOnePassIff(s, v);
    forall t: Token
      ensures Hits(OnePass(s, v), t) == Hits(v.collector, t)
    {
      OneCollectorHits(s, v, t);
    }
    SameHitsSameSilence(OnePass(s, v), v.collector);
  }

  lemma {:induction false} SameHitsSameSilence(x: string, y: string)
    requires forall t :: Hits(x, t) == Hits(y, t)
    ensures Silent(x) <==> Silent(y)
  {
    hide *;
    SilentIffNoHits(x);
    SilentIffNoHits(y);
    if Silent(x) {
      forall t: Token | t != Collector
        ensures Hits(y, t) == 0
      {
        assert Hits(x, t) == Hits(y, t);
      }
    }
    if Silent(y) {
      forall t: Token | t != Collector
        ensures Hits(x, t) == 0
      {
        assert Hits(x, t) == Hits(y, t);
      }
    }
  }

  // ----- Inputs that break it

  lemma {:induction false} StartsWithToken(t: Token, rest: string)
    ensures var s := TokenText(t) + rest;
            s != "" && TokenAt(s) == Some(t) && Tail(s) == rest
  {
    var s := TokenText(t) + rest;
    forall u: Token | TokenText(u) <= s
      ensures u == t
    {
      TokenPrefixFree(u, t, rest);
    }
    hide TokenText;
  }

  lemma {:induction false} StartsWithChar(c: char, rest: string)
    requires c != '{'
    ensures var s := [c] + rest;
            TokenAt(s) == None && Tail(s) == rest
  {
    hide TokenText;
    var s := [c] + rest;
    assert forall t: Token :: TokenText(t) <= s ==> s[0] == TokenText(t)[0];
  }

  lemma {:induction false} PartialToken(t: Token, rest: string, v: Values, done: set<Token>)
    requires v.Valid()
    ensures Partial(TokenText(t) + rest, v, done)
            == (if t in done then ValueOf(t, v) else TokenText(t)) + Partial(rest, v, done)
    ensures BracesOnlyInTokens(TokenText(t) + rest) <==> BracesOnlyInTokens(rest)
  {
    StartsWithToken(t, rest);
    hide TokenText, TokenAt, Tail, ValueOf;
  }

  lemma {:induction false} PartialChar(c: char, rest: string, v: Values, done: set<Token>)
    requires v.Valid() && c != '{' && c != '}'
    ensures Partial([c] + rest, v, done) == [c] + Partial(rest, v, done)
    ensures BracesOnlyInTokens([c] + rest) <==> BracesOnlyInTokens(rest)
  {
    StartsWithChar(c, rest);
    hide TokenText, TokenAt, Tail, ValueOf;
  }

  /** `/{yyyymmdd}.{hhmm}` */
  function DatedTail(): string {
    "/" + (TokenText(Yyyymmdd) + ("." + (TokenText(HhMm) + "")))
  }

  lemma {:induction false} PartialDatedTail(v: Values, done: set<Token>)
    requires v.Valid()
    ensures Partial(DatedTail(), v, done)
            == if Yyyymmdd in done && HhMm in done then "/" + (Layout.Ymd(v.clock) + ("." + (Layout.Hhmm(v.clock) + "")))
               else if Yyyymmdd !in done && HhMm !in done then DatedTail() else Partial(DatedTail(), v, done)
    ensures BracesOnlyInTokens(DatedTail())
  {
    var a := TokenText(HhMm) + "";
    var b := "." + a;
    var c := TokenText(Yyyymmdd) + b;
    assert Partial("", v, done) == "";
    assert ValueOf(Yyyymmdd, v) == Layout.Ymd(v.clock) && ValueOf(HhMm, v) == Layout.Hhmm(v.clock);
    hide TokenText, Partial, Layout.Ymd, Layout.Hhmm, ValueOf;
    PartialToken(HhMm, "", v, done);
    PartialChar('.', a, v, done);
    PartialToken(Yyyymmdd, b, v, done);
    PartialChar('/', c, v, done);
  }

  lemma {:induction false} AcceptedWithTail(front: string, x: string)
    requires front == TokenText(Collector) + x
    ensures Contains(front + DatedTail(), TokenText(Collector))
    ensures Contains(front + DatedTail(), TokenText(Yyyymmdd)) && Contains(front + DatedTail(), TokenText(HhMm))
  {
    var s, n := front + DatedTail(), |front|;
    assert DatedTail() == "/{yyyymmdd}.{hhmm}";
    hide DatedTail;
    assert StartsAt(s, 0, TokenText(Collector)) by {
      assert s[..11] == front[..11];
    }
    assert StartsAt(s, n + 1, TokenText(Yyyymmdd)) by {
      assert s[n + 1..n + 11] == DatedTail()[1..11];
    }
    assert StartsAt(s, n + 12, TokenText(HhMm)) by {
      assert s[n + 12..n + 18] == DatedTail()[12..18];
    }
  }

  /**
   A collector named `{mm}` under the accepted template `{collector}/{yyyymmdd}.{hhmm}`: the month is
   put in its place, in every month.
   */
  lemma {:induction false} BracedCollectorRendersTwice(v: Values)
    requires v.Valid() && v.collector == "{mm}" && RealExtension(v)
    ensures var s := TokenText(Collector) + DatedTail();
            var dated := "/" + (Layout.Ymd(v.clock) + ("." + (Layout.Hhmm(v.clock) + "")));
            && BracesOnlyInTokens(s) && OnePass(s, v) == "{mm}" + dated
            && Render(s, v) == Some(Padded(2, v.clock.date.month) + dated)
  {
    var s, tail := TokenText(Collector) + DatedTail(), DatedTail();
    var inner := TokenText(Mm) + tail;
    assert ValueOf(Collector, v) == TokenText(Mm) == "{mm}" && ValueOf(Mm, v) == Padded(2, v.clock.date.month);
    AcceptedWithTail(TokenText(Collector), "");
    CollectorInAll();
    TokenInAll(Mm);
    TokenInAll(Yyyymmdd);
    TokenInAll(HhMm);
    assert TokenText(Collector) + "" == TokenText(Collector);
    hide TokenText, Partial, ValueOf, DatedTail, Layout.Ymd, Layout.Hhmm, Padded, Chain, AllTokens, BracesOnlyInTokens, Contains;
    RealIsBraceFree(v);
    PartialDatedTail(v, AllTokens());
    PartialDatedTail(v, {Collector});
    PartialToken(Collector, tail, v, AllTokens());
    PartialToken(Collector, tail, v, {Collector});
    PartialToken(Mm, tail, v, {Collector});
    PartialToken(Mm, tail, v, AllTokens());
    ChainIsSteps(s, v);
    ChainIsSteps(inner, v);
    StartsWithToken(Mm, tail);
    DatedTailPlain();
    NoCollectorBraceFree(inner, v);
    BraceFreeSilent(OnePass(inner, v));
    ChainIsOnePassIff(inner, v);
  }

  lemma {:induction false} BraceFreeSilent(x: string)
    requires BraceFree(x)
    ensures Silent(x)
  {
    hide TokenText;
    forall t: Token | t != Collector
      ensures !Contains(x, TokenText(t))
    {
      HitsSkip(x, "", t);
      assert x + "" == x;
      HitIffContains(x, t);
    }
  }

  lemma {:induction false} DatedTailPlain()
    ensures Count(DatedTail(), Collector) == 0
    ensures Count(TokenText(Mm) + DatedTail(), Collector) == 0
  {
    var a := TokenText(HhMm) + "";
    var b := "." + a;
    var c := TokenText(Yyyymmdd) + b;
    StartsWithToken(HhMm, "");
    StartsWithChar('.', a);
    StartsWithToken(Yyyymmdd, b);
    StartsWithChar('/', c);
    StartsWithToken(Mm, DatedTail());
    hide TokenText, TokenAt, Tail;
  }

  /** A name that contains no token still breaks a template that repeats it: two neighbours spell one between them. */
  lemma {:induction false} NeighbouringCollectorsSpellToken(v: Values)
    requires v.Valid() && v.collector == "mm}x{" && RealExtension(v)
    ensures var s := TokenText(Collector) + (TokenText(Collector) + DatedTail());
            && Silent(v.collector) && BracesOnlyInTokens(s) && Render(s, v).Some? && Render(s, v) != Some(OnePass(s, v))
  {
    var tail := DatedTail();
    var one := TokenText(Collector) + tail;
    var s := TokenText(Collector) + one;
    assert ValueOf(Collector, v) == "mm}x{";
    NoTokenInside(v.collector);
    RenderIsChain(s, v);
    hide *;
    AcceptedWithTail(TokenText(Collector) + TokenText(Collector), TokenText(Collector));
    Assoc(TokenText(Collector), TokenText(Collector), tail);
    CollectorInAll();
    PartialDatedTail(v, AllTokens());
    PartialToken(Collector, tail, v, AllTokens());
    PartialToken(Collector, one, v, AllTokens());
    NeighboursSpell(Partial(tail, v, AllTokens()));
    OnePassIsPartial(s, v);
    ChainIsOnePassIff(s, v);
  }

  lemma {:induction false} OnePassIsPartial(s: string, v: Values)
    requires v.Valid()
    ensures OnePass(s, v) == Partial(s, v, AllTokens())
  {
  }

  lemma {:induction false} RenderIsChain(s: string, v: Values)
    requires v.Valid()
    ensures Contains(s, TokenText(Collector)) && Contains(s, TokenText(Yyyymmdd)) && Contains(s, TokenText(HhMm)) ==>
              Render(s, v) == Some(Chain(s, v))
  {
    hide TokenText, Chain, Contains;
  }

  lemma {:induction false} Assoc(a: string, b: string, c: string)
    ensures a + (b + c) == a + b + c
  {
  }

  lemma {:induction false} NeighboursSpell(rest: string)
    ensures !Silent("mm}x{" + ("mm}x{" + rest))
  {
    var w := "mm}x{" + ("mm}x{" + rest);
    assert w[4..8] == "{mm}";
    assert StartsAt(w, 4, TokenText(Mm));
    hide TokenText, StartsAt;
    assert Contains(w, TokenText(Mm));
  }

  lemma {:induction false} NoTokenInside(c: string)
    requires c == "mm}x{"
    ensures Silent(c)
  {
    forall t: Token | t != Collector
      ensures !Contains(c, TokenText(t))
    {
      var p := TokenText(t);
      assert |p| >= 4;
      hide TokenText;
      forall i | 0 <= i <= |c|
        ensures !StartsAt(c, i, p)
      {
        assert i <= 1 ==> c[i] == 'm';
        assert i + |p| <= |c| ==> c[i..i + |p|][0] == c[i];
      }
    }
  }
}
