/**
 Custom layouts: the path is rendered by a chain of seven `replace` calls. The
 chain is compared with one left-to-right pass that substitutes every token at once.
 */
module Templates {
  import opened Text
  import Layout
  import Calendar
  import opened Common

  datatype Token = Collector | Yyyy | Mm | Dd | Yyyymmdd | HhMm | Ext

  function TokenText(t: Token): (s: string)
    ensures |s| >= 2 && s[0] == '{' && s[|s| - 1] == '}'
    ensures forall i :: 0 < i < |s| ==> s[i] != '{'
    ensures forall i :: 0 <= i < |s| - 1 ==> s[i] != '}'
  {
    match t
    case Collector => "{collector}"
    case Yyyy => "{yyyy}"
    case Mm => "{mm}"
    case Dd => "{dd}"
    case Yyyymmdd => "{yyyymmdd}"
    case HhMm => "{hhmm}"
    case Ext => "{ext}"
  }

  datatype Values = Values(collector: string, clock: Layout.Clock, ext: string) {
    ghost predicate Valid() {
      Calendar.ValidDate(clock.date)
    }
  }

  function ValueOf(t: Token, v: Values): string
    requires v.Valid()
  {
    match t
    case Collector => v.collector
    case Yyyy => Layout.YearField(v.clock.date.year)
    case Mm => Padded(2, v.clock.date.month)
    case Dd => Padded(2, v.clock.date.day)
    case Yyyymmdd => Layout.Ymd(v.clock)
    case HhMm => Layout.Hhmm(v.clock)
    case Ext => v.ext
  }

  function Step(s: string, t: Token, v: Values): string
    requires v.Valid()
  {
    Replace(s, TokenText(t), ValueOf(t, v))
  }

  /** The chain of replacements, in the order the code makes them. */
  function Chain(template: string, v: Values): string
    requires v.Valid()
  {
    Step(Step(Step(Step(Step(Step(Step(template, Collector, v), Yyyy, v), Mm, v), Dd, v), Yyyymmdd, v), HhMm, v), Ext, v)
  }

  /** Rendering fails unless the three mandatory tokens occur. */
  function Render(template: string, v: Values): Option<string>
    requires v.Valid()
  {
    if !Contains(template, TokenText(Collector)) || !Contains(template, TokenText(Yyyymmdd)) || !Contains(template, TokenText(HhMm))
    then None
    else Some(Chain(template, v))
  }

  // ----- Reference: one simultaneous pass

  function TokenAt(s: string): (r: Option<Token>)
    ensures r.Some? ==> TokenText(r.value) <= s
  {
    if TokenText(Collector) <= s then Some(Collector)
    else if TokenText(Yyyy) <= s then Some(Yyyy)
    else if TokenText(Mm) <= s then Some(Mm)
    else if TokenText(Dd) <= s then Some(Dd)
    else if TokenText(Yyyymmdd) <= s then Some(Yyyymmdd)
    else if TokenText(HhMm) <= s then Some(HhMm)
    else if TokenText(Ext) <= s then Some(Ext)
    else None
  }

  /** The piece of the template the pass consumes next: a whole token or one character. */
  function Head(s: string): (h: string)
    requires s != ""
    ensures h != "" && h <= s
  {
    match TokenAt(s)
    case Some(t) => TokenText(t)
    case None => [s[0]]
  }

  function Tail(s: string): (t: string)
    requires s != ""
    ensures |t| < |s| && s == Head(s) + t
  {
    s[|Head(s)|..]
  }

  /** The head after the tokens in `done` have been replaced. */
  function Rendered(s: string, v: Values, done: set<Token>): string
    requires s != "" && v.Valid()
  {
    if TokenAt(s).Some? && TokenAt(s).value in done then ValueOf(TokenAt(s).value, v) else Head(s)
  }

  function Partial(s: string, v: Values, done: set<Token>): string
    requires v.Valid()
    decreases |s|
  {
    if s == "" then "" else Rendered(s, v, done) + Partial(Tail(s), v, done)
  }

  function AllTokens(): set<Token> {
    {Collector, Yyyy, Mm, Dd, Yyyymmdd, HhMm, Ext}
  }

  /** Every token substituted at once, left to right. */
  function OnePass(s: string, v: Values): string
    requires v.Valid()
  {
    Partial(s, v, AllTokens())
  }

  predicate BraceFree(s: string) {
    '{' !in s && '}' !in s
  }

  /** Braces occur in the template only as parts of the seven tokens. */
  predicate BracesOnlyInTokens(s: string)
    decreases |s|
  {
    s == "" || ((TokenAt(s).Some? || BraceFree([s[0]])) && BracesOnlyInTokens(Tail(s)))
  }

  // ----- The chain refines the single pass

  /** No token's text is the beginning of another's. */
  lemma TokenPrefixFree(t: Token, u: Token, rest: string)
    requires TokenText(t) <= TokenText(u) + rest
    ensures t == u
  {
    var a, b := TokenText(t), TokenText(u);
    var s := b + rest;
    assert s[|b| - 1] == '}' && a[|a| - 1] == s[|a| - 1];
    assert |a| == |b|;
    assert a == s[..|a|] == b;
    SameTextSameToken(t, u);
  }

  lemma SameTextSameToken(t: Token, u: Token)
    requires TokenText(t) == TokenText(u)
    ensures t == u
  {
    var a, b := TokenText(t), TokenText(u);
    assert |a| == |b| && a[1] == b[1] && a[|a| - 2] == b[|b| - 2];
  }

  lemma {:induction false} ReplaceSkipsOne(c: char, rest: string, p: string, v: string)
    requires p != "" && c != p[0]
    ensures Replace([c] + rest, p, v) == [c] + Replace(rest, p, v)
  {
    var s := [c] + rest;
    assert s[0] == c && s[1..] == rest;
  }

  lemma {:induction false} ReplaceSkips(x: string, rest: string, p: string, v: string)
    requires p != "" && p[0] == '{' && '{' !in x
    ensures Replace(x + rest, p, v) == x + Replace(rest, p, v)
  {
    hide Replace;
    if x == "" {
      assert x + rest == rest;
    } else {
      ReplaceSkips(x[1..], rest, p, v);
      ReplaceSkipsOne(x[0], x[1..] + rest, p, v);
      assert x + rest == [x[0]] + (x[1..] + rest);
    }
  }

  lemma ReplaceHit(p: string, rest: string, v: string)
    requires p != ""
    ensures Replace(p + rest, p, v) == v + Replace(rest, p, v)
  {
    assert (p + rest)[|p|..] == rest;
  }

  lemma ReplaceMiss(t: Token, u: Token, rest: string, v: string)
    requires t != u
    ensures Replace(TokenText(u) + rest, TokenText(t), v) == TokenText(u) + Replace(rest, TokenText(t), v)
  {
    hide TokenText;
    var b := TokenText(u);
    var s := b + rest;
    if TokenText(t) <= s {
      TokenPrefixFree(t, u, rest);
    }
    assert s[0] == b[0] && s[1..] == b[1..] + rest;
    assert '{' !in b[1..];
    ReplaceSkips(b[1..], rest, TokenText(t), v);
    assert b == [b[0]] + b[1..];
  }

  lemma ValuesBraceFree(t: Token, v: Values)
    requires v.Valid() && t != Collector && BraceFree(v.ext)
    ensures BraceFree(ValueOf(t, v))
  {
    hide Padded;
  }

  /** How many times the token's text occurs in `x`. */
  function Hits(x: string, t: Token): nat {
    if x == "" then 0 else (if TokenText(t) <= x then 1 else 0) + Hits(x[1..], t)
  }

  lemma {:induction false} HitsSkip(x: string, rest: string, t: Token)
    requires '{' !in x
    ensures Hits(x + rest, t) == Hits(rest, t)
  {
    hide TokenText;
    if x == "" {
      assert x + rest == rest;
    } else {
      assert (x + rest)[0] == x[0] && (x + rest)[1..] == x[1..] + rest;
      HitsSkip(x[1..], rest, t);
    }
  }

  lemma {:induction false} HitsSuffix(x: string, rest: string, t: Token)
    ensures Hits(rest, t) <= Hits(x + rest, t)
  {
    hide TokenText;
    if x == "" {
      assert x + rest == rest;
    } else {
      assert (x + rest)[1..] == x[1..] + rest;
      HitsSuffix(x[1..], rest, t);
    }
  }

  /** What begins a partly substituted template without an opening brace also begins the fully substituted one. */
  lemma {:induction false} PrefixReachesOnePass(u: string, s: string, v: Values, done: set<Token>)
    requires v.Valid() && Collector in done && '{' !in u && u <= Partial(s, v, done)
    ensures u <= OnePass(s, v)
    decreases |s|
  {
    if s != "" {
      hide TokenText, TokenAt, ValueOf, Head, Tail;
      var h, rest := Rendered(s, v, done), Partial(Tail(s), v, done);
      if TokenAt(s).Some? && TokenAt(s).value !in done {
        NoBraceNoPrefix(u, h, rest);
      } else {
        if TokenAt(s).Some? {
          TokenInAll(TokenAt(s).value);
        }
        assert OnePass(s, v) == h + OnePass(Tail(s), v);
        if |u| > |h| {
          PrefixPeels(u, h, rest);
          PrefixReachesOnePass(u[|h|..], Tail(s), v, done);
        }
        hide *;
        PrefixJoins(u, h, rest, OnePass(Tail(s), v));
      }
    }
  }

  lemma {:induction false} PrefixJoins(u: string, h: string, rest: string, r: string)
    requires u <= h + rest && (|u| > |h| ==> u[|h|..] <= r)
    ensures u <= h + r
  {
    if |u| > |h| {
      PrefixPeels(u, h, rest);
      assert u == h + u[|h|..];
    } else {
      assert u <= h;
    }
  }

  lemma {:induction false} NoBraceNoPrefix(u: string, h: string, rest: string)
    requires u <= h + rest && h != "" && h[0] == '{'
    ensures u != "" ==> u[0] == '{'
  {
    assert (h + rest)[0] == '{';
    assert forall i :: 0 <= i < |u| ==> u[i] == (h + rest)[i];
  }

  lemma PrefixPeels(u: string, h: string, rest: string)
    requires u <= h + rest && |u| > |h|
    ensures h <= u && u[|h|..] <= rest
  {
    var x := h + rest;
    assert u == x[..|u|];
    assert u[..|h|] == x[..|h|] == h;
    assert u[|h|..] == rest[..|u| - |h|];
  }

  lemma {:induction false} ReplacePasses(c: string, rest: string, p: string, v: string)
    requires p != "" && forall i :: 0 <= i < |c| ==> !(p <= c[i..] + rest)
    ensures Replace(c + rest, p, v) == c + Replace(rest, p, v)
  {
    if c == "" {
      hide *;
      assert c + rest == rest && c + Replace(rest, p, v) == Replace(rest, p, v);
    } else {
      assert c[0..] == c;
      assert forall i :: 0 <= i < |c| - 1 ==> c[1..][i..] == c[i + 1..];
      ReplacePasses(c[1..], rest, p, v);
      ReplaceFirst(c + rest, p, v);
      hide *;
      assert (c + rest)[0] == c[0] && (c + rest)[1..] == c[1..] + rest;
      assert [c[0]] + (c[1..] + Replace(rest, p, v)) == c + Replace(rest, p, v);
    }
  }

  lemma {:induction false} ReplaceFirst(s: string, p: string, v: string)
    requires p != "" && s != "" && !(p <= s)
    ensures Replace(s, p, v) == [s[0]] + Replace(s[1..], p, v)
  {
  }

  lemma {:induction false} HitFirst(x: string, t: Token)
    requires TokenText(t) <= x
    ensures Hits(x, t) >= 1
  {
    assert x != "";
  }

  /** The next replacement does not touch a collector in whose place the finished rendering shows no such token. */
  lemma {:induction false} StepSkipsCollector(c: string, s: string, v: Values, done: set<Token>, t: Token)
    requires v.Valid() && Collector in done
    requires Hits(c + OnePass(s, v), t) == 0
    ensures Step(c + Partial(s, v, done), t, v) == c + Step(Partial(s, v, done), t, v)
  {
    forall i | 0 <= i < |c|
      ensures !(TokenText(t) <= c[i..] + Partial(s, v, done))
    {
      NotInside(c, s, v, done, t, i);
    }
    StepIsReplace(c + Partial(s, v, done), t, v);
    StepIsReplace(Partial(s, v, done), t, v);
    hide *;
    ReplacePasses(c, Partial(s, v, done), TokenText(t), ValueOf(t, v));
  }

  lemma {:induction false} StepIsReplace(x: string, t: Token, v: Values)
    requires v.Valid()
    ensures Step(x, t, v) == Replace(x, TokenText(t), ValueOf(t, v))
  {
  }

  lemma {:induction false} NotInside(c: string, s: string, v: Values, done: set<Token>, t: Token, i: nat)
    requires v.Valid() && Collector in done && i < |c|
    requires Hits(c + OnePass(s, v), t) == 0
    ensures !(TokenText(t) <= c[i..] + Partial(s, v, done))
  {
    hide *;
    HitsSuffix(c[..i], c[i..] + OnePass(s, v), t);
    assert c[..i] + (c[i..] + OnePass(s, v)) == c + OnePass(s, v);
    if TokenText(t) <= c[i..] + Partial(s, v, done) {
      NoHitReached(c[i..], TokenText(t), s, v, done);
      HitFirst(c[i..] + OnePass(s, v), t);
    }
  }

  lemma {:induction false} NoHitReached(c: string, p: string, s: string, v: Values, done: set<Token>)
    requires v.Valid() && Collector in done && c != ""
    requires p <= c + Partial(s, v, done) && forall i :: 0 < i < |p| ==> p[i] != '{'
    ensures p <= c + OnePass(s, v)
  {
    hide Partial;
    if |p| > |c| {
      PrefixPeels(p, c, Partial(s, v, done));
      PrefixReachesOnePass(p[|c|..], s, v, done);
      assert p == c + p[|c|..];
    } else {
      assert p <= c;
    }
  }

  lemma {:induction false} HeadAdvances(s: string, v: Values, done: set<Token>, t: Token)
    requires v.Valid() && BraceFree(v.ext)
    requires s != "" && (TokenAt(s).Some? || BraceFree([s[0]])) && t !in done
    requires Collector in done ==> Hits(OnePass(s, v), t) == 0
    ensures var rest := Partial(Tail(s), v, done);
            Step(Rendered(s, v, done) + rest, t, v) == Rendered(s, v, done + {t}) + Step(rest, t, v)
  {
    hide TokenText, TokenAt, ValueOf, Replace, Partial, Hits, Step, Rendered;
    if TokenAt(s) == Some(Collector) && Collector in done {
      CollectorAdvances(s, v, done, t);
    } else {
      PlainHeadAdvances(s, v, done, t, Partial(Tail(s), v, done));
    }
  }

  lemma {:induction false} PlainHeadAdvances(s: string, v: Values, done: set<Token>, t: Token, rest: string)
    requires v.Valid() && BraceFree(v.ext) && !(TokenAt(s) == Some(Collector) && Collector in done)
    requires s != "" && (TokenAt(s).Some? || BraceFree([s[0]])) && t !in done
    ensures Step(Rendered(s, v, done) + rest, t, v) == Rendered(s, v, done + {t}) + Step(rest, t, v)
  {
    var p, w := TokenText(t), ValueOf(t, v);
    hide TokenText, TokenAt, ValueOf, Replace;
    match TokenAt(s)
    case Some(u) =>
      if u == t {
        ReplaceHit(p, rest, w);
      } else if u in done {
        ValuesBraceFree(u, v);
        ReplaceSkips(ValueOf(u, v), rest, p, w);
      } else {
        ReplaceMiss(t, u, rest, w);
      }
    case None =>
      ReplaceSkips([s[0]], rest, p, w);
  }

  lemma {:induction false} CollectorAdvances(s: string, v: Values, done: set<Token>, t: Token)
    requires v.Valid() && s != "" && TokenAt(s) == Some(Collector) && Collector in done && t != Collector
    requires Hits(OnePass(s, v), t) == 0
    ensures var rest := Partial(Tail(s), v, done);
            Step(Rendered(s, v, done) + rest, t, v) == Rendered(s, v, done + {t}) + Step(rest, t, v)
  {
    OnePassUnfolds(s, v);
    assert ValueOf(Collector, v) == v.collector;
    assert Rendered(s, v, done) == v.collector && Rendered(s, v, done + {t}) == v.collector && Rendered(s, v, AllTokens()) == v.collector;
    hide *;
    StepSkipsCollector(v.collector, Tail(s), v, done, t);
  }

  lemma {:induction false} OnePassUnfolds(s: string, v: Values)
    requires v.Valid() && s != ""
    ensures OnePass(s, v) == Rendered(s, v, AllTokens()) + OnePass(Tail(s), v)
  {
    hide TokenAt, Rendered, Tail;
  }

  /** The replacement of `t` advances the substitution, if nothing but the template spells `t`. */
  lemma {:induction false} StepAdvances(s: string, v: Values, done: set<Token>, t: Token)
    requires v.Valid() && BraceFree(v.ext)
    requires BracesOnlyInTokens(s) && t !in done
    requires Collector in done ==> Hits(OnePass(s, v), t) == 0
    ensures Step(Partial(s, v, done), t, v) == Partial(s, v, done + {t})
    decreases |s|
  {
    if s != "" {
      hide TokenAt, Rendered, Step, Hits;
      HitsSuffix(Rendered(s, v, AllTokens()), OnePass(Tail(s), v), t);
      StepAdvances(Tail(s), v, done, t);
      HeadAdvances(s, v, done, t);
    }
  }

  lemma {:induction false} PartialNone(s: string, v: Values)
    requires v.Valid()
    ensures Partial(s, v, {}) == s
    decreases |s|
  {
    if s != "" {
      hide TokenAt, ValueOf;
      PartialNone(Tail(s), v);
    }
  }

  /** If the finished rendering spells no later token, the replacements in turn substitute every token at once. */
  lemma {:induction false} ChainWhenSilent(s: string, v: Values)
    requires v.Valid() && BraceFree(v.ext) && BracesOnlyInTokens(s)
    requires forall t :: t != Collector ==> Hits(OnePass(s, v), t) == 0
    ensures Chain(s, v) == OnePass(s, v)
  {
    hide Step, Partial, BracesOnlyInTokens, Hits;
    PartialNone(s, v);
    StepAdvances(s, v, {}, Collector);
    var d1 := {} + {Collector};
    StepAdvances(s, v, d1, Yyyy);
    var d2 := d1 + {Yyyy};
    StepAdvances(s, v, d2, Mm);
    var d3 := d2 + {Mm};
    StepAdvances(s, v, d3, Dd);
    var d4 := d3 + {Dd};
    StepAdvances(s, v, d4, Yyyymmdd);
    var d5 := d4 + {Yyyymmdd};
    StepAdvances(s, v, d5, HhMm);
    var d6 := d5 + {HhMm};
    StepAdvances(s, v, d6, Ext);
    assert d6 + {Ext} == AllTokens();
  }

  lemma {:induction false} OnePassBraceFree(s: string, v: Values)
    requires v.Valid() && BraceFree(v.collector) && BraceFree(v.ext) && BracesOnlyInTokens(s)
    ensures BraceFree(OnePass(s, v))
    decreases |s|
  {
    if s != "" {
      assert ValueOf(Collector, v) == v.collector;
      hide TokenText, TokenAt, ValueOf;
      OnePassBraceFree(Tail(s), v);
      if TokenAt(s).Some? {
        TokenInAll(TokenAt(s).value);
        if TokenAt(s).value != Collector {
          ValuesBraceFree(TokenAt(s).value, v);
        }
      }
    }
  }

  /** The seven replacements, one after another, substitute every token at once. */
  lemma {:induction false} ChainIsOnePass(s: string, v: Values)
    requires v.Valid() && BraceFree(v.collector) && BraceFree(v.ext)
    requires BracesOnlyInTokens(s)
    ensures Chain(s, v) == OnePass(s, v)
  {
    hide Chain, Partial, BracesOnlyInTokens;
    OnePassBraceFree(s, v);
    var w := OnePass(s, v);
    forall t | t != Collector
      ensures Hits(w, t) == 0
    {
      HitsSkip(w, "", t);
      assert w + "" == w;
    }
    ChainWhenSilent(s, v);
  }

  // ----- The rendered string determines the minute

  /** Token `t` is one of the tokens the pass meets. */
  predicate Occurs(s: string, t: Token)
    decreases |s|
  {
    s != "" && (TokenAt(s) == Some(t) || Occurs(Tail(s), t))
  }

  lemma StartsAtShift(a: string, rest: string, i: nat, p: string)
    requires StartsAt(a + rest, i, p) && |a| <= i
    ensures StartsAt(rest, i - |a|, p)
  {
    var s := a + rest;
    assert s[i..i + |p|] == rest[i - |a|..i - |a| + |p|];
  }

  /** A token's text that begins inside the head is the head. */
  lemma TokenInHead(s: string, t: Token, i: nat)
    requires s != "" && (TokenAt(s).Some? || BraceFree([s[0]]))
    requires StartsAt(s, i, TokenText(t)) && i < |Head(s)|
    ensures TokenAt(s) == Some(t)
  {
    hide TokenText, TokenAt;
    assert s[i] == TokenText(t)[0] && s[i] == Head(s)[i];
    assert TokenAt(s).Some? && i == 0;
    TokenPrefixFree(t, TokenAt(s).value, Tail(s));
  }

  lemma {:induction false} ContainedTokenOccurs(s: string, t: Token, i: nat)
    requires BracesOnlyInTokens(s) && StartsAt(s, i, TokenText(t))
    ensures Occurs(s, t)
    decreases |s|
  {
    hide TokenText, TokenAt, Head, Tail;
    if i < |Head(s)| {
      TokenInHead(s, t, i);
    } else {
      StartsAtShift(Head(s), Tail(s), i, TokenText(t));
      ContainedTokenOccurs(Tail(s), t, i - |Head(s)|);
    }
  }

  predicate FourDigitYear(v: Values) {
    0 <= v.clock.date.year <= 9999 && v.clock.hour < 24 && v.clock.minute < 60
  }

  lemma FixedWidths(v: Values)
    requires v.Valid() && FourDigitYear(v)
    ensures |ValueOf(Yyyy, v)| == 4 && |ValueOf(Mm, v)| == 2 && |ValueOf(Dd, v)| == 2
    ensures |ValueOf(Yyyymmdd, v)| == 8 && |ValueOf(HhMm, v)| == 4
  {
    hide Padded;
    assert Power10(4) == 10 * Power10(3) == 10000;
    assert Power10(2) == 100;
    PaddedWidth(4, v.clock.date.year);
    PaddedWidth(2, v.clock.date.month);
    PaddedWidth(2, v.clock.date.day);
    PaddedWidth(2, v.clock.hour);
    PaddedWidth(2, v.clock.minute);
  }

  lemma SameWidth(t: Token, v: Values, w: Values)
    requires v.Valid() && w.Valid() && FourDigitYear(v) && FourDigitYear(w)
    requires v.collector == w.collector && v.ext == w.ext
    ensures |ValueOf(t, v)| == |ValueOf(t, w)|
  {
    FixedWidths(v);
    FixedWidths(w);
  }

  lemma {:induction false} EqualRenderingsAgree(s: string, v: Values, w: Values, t: Token)
    requires v.Valid() && w.Valid() && FourDigitYear(v) && FourDigitYear(w)
    requires v.collector == w.collector && v.ext == w.ext
    requires OnePass(s, v) == OnePass(s, w) && Occurs(s, t)
    ensures ValueOf(t, v) == ValueOf(t, w)
    decreases |s|
  {
    hide TokenAt, ValueOf, Head, Tail;
    if TokenAt(s).Some? {
      SameWidth(TokenAt(s).value, v, w);
      TokenInAll(TokenAt(s).value);
    }
    SameLengthSplit(Rendered(s, v, AllTokens()), OnePass(Tail(s), v), Rendered(s, w, AllTokens()), OnePass(Tail(s), w));
    if TokenAt(s) != Some(t) {
      EqualRenderingsAgree(Tail(s), v, w, t);
    }
  }

  lemma TokenInAll(t: Token)
    ensures t in AllTokens()
  {
    assert t.Collector? || t.Yyyy? || t.Mm? || t.Dd? || t.Yyyymmdd? || t.HhMm? || t.Ext?;
  }

  lemma YmdAndHhmmFixClock(v: Values, w: Values)
    requires v.Valid() && w.Valid() && FourDigitYear(v) && FourDigitYear(w)
    requires ValueOf(Yyyymmdd, v) == ValueOf(Yyyymmdd, w) && ValueOf(HhMm, v) == ValueOf(HhMm, w)
    ensures v.clock == w.clock
  {
    hide Padded;
    FixedWidths(v);
    FixedWidths(w);
    var c, e := v.clock.date, w.clock.date;
    SameLengthSplit(Padded(4, c.year), Padded(2, c.month) + Padded(2, c.day),
                    Padded(4, e.year), Padded(2, e.month) + Padded(2, e.day));
    SameLengthSplit(Padded(2, c.month), Padded(2, c.day), Padded(2, e.month), Padded(2, e.day));
    PaddedInjective(4, c.year, e.year);
    PaddedInjective(2, c.month, e.month);
    PaddedInjective(2, c.day, e.day);
    Layout.HhmmInjective(v.clock, w.clock);
  }

  /** A template that renders gives different minutes different strings, in years 0 to 9999. */
  lemma RenderingsInjective(template: string, v: Values, w: Values)
    requires v.Valid() && w.Valid() && FourDigitYear(v) && FourDigitYear(w)
    requires v.collector == w.collector && v.ext == w.ext
    requires BraceFree(v.collector) && BraceFree(v.ext) && BracesOnlyInTokens(template)
    requires Render(template, v).Some? && Render(template, v) == Render(template, w)
    ensures v.clock == w.clock
  {
    hide Chain, OnePass, BracesOnlyInTokens, ValueOf, TokenText;
    ChainIsOnePass(template, v);
    ChainIsOnePass(template, w);
    var i :| 0 <= i <= |template| && StartsAt(template, i, TokenText(Yyyymmdd));
    var j :| 0 <= j <= |template| && StartsAt(template, j, TokenText(HhMm));
    ContainedTokenOccurs(template, Yyyymmdd, i);
    ContainedTokenOccurs(template, HhMm, j);
    EqualRenderingsAgree(template, v, w, Yyyymmdd);
    EqualRenderingsAgree(template, v, w, HhMm);
    YmdAndHhmmFixClock(v, w);
  }

  // ----- The extension appended to a rendered path that has none

  /** The path without slashes at its end. */
  function Trimmed(path: string): (t: string)
    ensures t <= path && (t != "" ==> t[|t| - 1] != '/')
    ensures forall i :: |t| <= i < |path| ==> path[i] == '/'
  {
    if path != "" && path[|path| - 1] == '/' then Trimmed(path[..|path| - 1]) else path
  }

  function FileNameOf(path: string): string {
    Trimmed(path)[Layout.NameStart(Trimmed(path))..]
  }

  /** A dot that is not the name's first character begins an extension, even an empty one. */
  predicate HasExtension(path: string) {
    FileNameOf(path) != ".." && exists i :: 0 < i < |FileNameOf(path)| && FileNameOf(path)[i] == '.'
  }

  function WithExtension(path: string, ext: string): Option<string> {
    if HasExtension(path) then Some(path)
    else if FileNameOf(path) == "" || FileNameOf(path) == "." || FileNameOf(path) == ".." then None
    else Some(Trimmed(path) + "." + ext)
  }

  lemma {:induction false} TrimmedIs(front: string, slashes: string)
    requires front == "" || front[|front| - 1] != '/'
    requires forall i :: 0 <= i < |slashes| ==> slashes[i] == '/'
    ensures Trimmed(front + slashes) == front
  {
    var s := front + slashes;
    var t := Trimmed(s);
    assert s[|front|..] == slashes && s[..|front|] == front;
    assert forall i :: |front| <= i < |s| ==> s[i] == slashes[i - |front|];
    hide Trimmed;
  }

  /**
   The compression's extension is appended to the last component exactly when that has no dot after its first
   character; a path without a last component, or with `.` or `..` for one, has no extended form.
   */
  lemma {:induction false} ExtensionSpelled(front: string, name: string, slashes: string, ext: string)
    requires front == "" || front[|front| - 1] == '/'
    requires '/' !in name && forall i :: 0 <= i < |slashes| ==> slashes[i] == '/'
    requires name == "" ==> front == ""
    ensures WithExtension(front + name + slashes, ext)
            == if name == "" || name == "." || name == ".." then None
               else if exists i :: 0 < i < |name| && name[i] == '.' then Some(front + name + slashes)
               else Some(front + name + "." + ext)
  {
    FileNameIs(front, name, slashes);
    hide Trimmed, FileNameOf;
  }

  lemma {:induction false} FileNameIs(front: string, name: string, slashes: string)
    requires front == "" || front[|front| - 1] == '/'
    requires '/' !in name && forall i :: 0 <= i < |slashes| ==> slashes[i] == '/'
    requires name == "" ==> front == ""
    ensures Trimmed(front + name + slashes) == front + name && FileNameOf(front + name + slashes) == name
  {
    var t := front + name;
    assert t != "" ==> t[|t| - 1] != '/';
    TrimmedIs(t, slashes);
    Layout.NameStartIs(front, name);
    assert t[|front|..] == name;
    hide Trimmed, Layout.NameStart;
  }

  /** The relative path of a custom layout. */
  function CustomPath(template: string, v: Values): Option<string>
    requires v.Valid()
  {
    match Render(template, v)
    case None => None
    case Some(path) => WithExtension(path, v.ext)
  }

  /** Two strings of one length with slashes in the same places. */
  predicate SameSlashes(x: string, y: string) {
    |x| == |y| && forall i :: 0 <= i < |x| ==> (x[i] == '/' <==> y[i] == '/')
  }

  lemma {:induction false} WithExtensionInjective(x: string, y: string, ext: string)
    requires SameSlashes(x, y) && '/' !in ext
    requires WithExtension(x, ext).Some? && WithExtension(x, ext) == WithExtension(y, ext)
    ensures x == y
  {
    hide HasExtension, FileNameOf, Trimmed, SameSlashes;
    if HasExtension(x) && !HasExtension(y) {
      ExtendedIsLonger(x, y, ext);
    } else if HasExtension(y) && !HasExtension(x) {
      SlashesSymmetric(x, y);
      ExtendedIsLonger(y, x, ext);
    } else if !HasExtension(x) {
      ExtendedInjective(x, y, ext);
    }
  }

  lemma {:induction false} SlashesSymmetric(x: string, y: string)
    requires SameSlashes(x, y)
    ensures SameSlashes(y, x)
  {
  }

  lemma {:induction false} ExtendedInjective(x: string, y: string, ext: string)
    requires SameSlashes(x, y) && Trimmed(x) + "." + ext == Trimmed(y) + "." + ext
    ensures x == y
  {
    var t, u := Trimmed(x), Trimmed(y);
    SameTrim(x, y);
    hide Trimmed;
    assert t + "." + ext == t + ("." + ext) && u + "." + ext == u + ("." + ext);
    SameLengthSplit(t, "." + ext, u, "." + ext);
    assert x == t + x[|t|..] && y == u + y[|u|..];
    assert x[|t|..] == y[|u|..];
  }

  lemma {:induction false} SameTrim(x: string, y: string)
    requires SameSlashes(x, y)
    ensures |Trimmed(x)| == |Trimmed(y)|
  {
    if x != "" && x[|x| - 1] == '/' {
      SameTrim(x[..|x| - 1], y[..|y| - 1]);
    }
  }

  lemma {:induction false} ExtendedIsLonger(x: string, y: string, ext: string)
    requires SameSlashes(x, y) && '/' !in ext
    ensures Trimmed(y) + "." + ext != x
  {
    var z := Trimmed(y) + "." + ext;
    assert z[|z| - 1] == (if ext == "" then '.' else ext[|ext| - 1]);
    assert |y| > |Trimmed(y)| ==> y[|y| - 1] == '/';
  }

  lemma {:induction false} RenderingsShareSlashes(s: string, v: Values, w: Values)
    requires v.Valid() && w.Valid() && FourDigitYear(v) && FourDigitYear(w)
    requires v.collector == w.collector && v.ext == w.ext
    ensures SameSlashes(OnePass(s, v), OnePass(s, w))
    decreases |s|
  {
    if s != "" {
      RenderingsShareSlashes(Tail(s), v, w);
      OnePassUnfolds(s, v);
      OnePassUnfolds(s, w);
      HeadsShareSlashes(s, v, w);
      hide *;
      SlashesConcat(Rendered(s, v, AllTokens()), OnePass(Tail(s), v), Rendered(s, w, AllTokens()), OnePass(Tail(s), w));
    }
  }

  lemma {:induction false} HeadsShareSlashes(s: string, v: Values, w: Values)
    requires v.Valid() && w.Valid() && FourDigitYear(v) && FourDigitYear(w)
    requires v.collector == w.collector && v.ext == w.ext && s != ""
    ensures SameSlashes(Rendered(s, v, AllTokens()), Rendered(s, w, AllTokens()))
  {
    hide TokenText, TokenAt, Head;
    if TokenAt(s).Some? {
      var t := TokenAt(s).value;
      TokenInAll(t);
      SameWidth(t, v, w);
      DatesHaveNoSlash(t, v);
      DatesHaveNoSlash(t, w);
      assert t == Collector || t == Ext ==> ValueOf(t, v) == ValueOf(t, w);
      hide ValueOf;
    }
  }

  lemma {:induction false} DatesHaveNoSlash(t: Token, v: Values)
    requires v.Valid() && FourDigitYear(v)
    ensures t != Collector && t != Ext ==> '/' !in ValueOf(t, v)
  {
    hide Padded;
  }

  lemma {:induction false} SlashesConcat(a: string, x: string, b: string, y: string)
    requires SameSlashes(a, b) && SameSlashes(x, y)
    ensures SameSlashes(a + x, b + y)
  {
    forall i | 0 <= i < |a + x|
      ensures (a + x)[i] == '/' <==> (b + y)[i] == '/'
    {
      if i < |a| {
        assert (a + x)[i] == a[i] && (b + y)[i] == b[i];
      } else {
        assert (a + x)[i] == x[i - |a|] && (b + y)[i] == y[i - |a|];
      }
    }
  }

  /** Custom paths tell minutes apart in years 0 to 9999, whether or not the extension is appended. */
  lemma {:induction false} CustomPathsInjective(template: string, v: Values, w: Values)
    requires v.Valid() && w.Valid() && FourDigitYear(v) && FourDigitYear(w)
    requires v.collector == w.collector && v.ext == w.ext && '/' !in v.ext
    requires BraceFree(v.collector) && BraceFree(v.ext) && BracesOnlyInTokens(template)
    requires CustomPath(template, v).Some? && CustomPath(template, v) == CustomPath(template, w)
    ensures v.clock == w.clock
  {
    hide Chain, OnePass, BracesOnlyInTokens, TokenText, WithExtension, SameSlashes, Contains;
    ChainIsOnePass(template, v);
    ChainIsOnePass(template, w);
    RenderingsShareSlashes(template, v, w);
    WithExtensionInjective(OnePass(template, v), OnePass(template, w), v.ext);
    RenderingsInjective(template, v, w);
  }

  /** From sixty seconds on, the buckets of a custom stream have distinct paths in years 0 to 9999. */
  lemma {:induction false} CustomBucketsInjective(template: string, collector: string, ext: string, interval: nat, s: int, t: int)
    requires interval >= 60 && s % interval == 0 && t % interval == 0
    requires 0 <= Layout.ClockOf(s).date.year <= 9999 && 0 <= Layout.ClockOf(t).date.year <= 9999
    requires BraceFree(collector) && BraceFree(ext) && '/' !in ext && BracesOnlyInTokens(template)
    requires Values(collector, Layout.ClockOf(s), ext).Valid() && Values(collector, Layout.ClockOf(t), ext).Valid()
    requires var p := CustomPath(template, Values(collector, Layout.ClockOf(s), ext));
             p.Some? && p == CustomPath(template, Values(collector, Layout.ClockOf(t), ext))
    ensures s == t
  {
    Layout.ClockValid(s);
    Layout.ClockValid(t);
    var v, w := Values(collector, Layout.ClockOf(s), ext), Values(collector, Layout.ClockOf(t), ext);
    hide Layout.ClockOf, CustomPath, BracesOnlyInTokens, BraceFree;
    CustomPathsInjective(template, v, w);
    Layout.SameClockSameMinute(s, t);
    Layout.MultiplesApart(s, t, interval);
  }

  /**
   Validation lets both streams have one template. Then a ribs path and an updates path collide exactly
   when their buckets start in the same minute.
   */
  lemma {:induction false} EqualTemplatesCollideIff(template: string, collector: string, ext: string, s: int, t: int)
    requires 0 <= Layout.ClockOf(s).date.year <= 9999 && 0 <= Layout.ClockOf(t).date.year <= 9999
    requires BraceFree(collector) && BraceFree(ext) && '/' !in ext && BracesOnlyInTokens(template)
    requires Values(collector, Layout.ClockOf(s), ext).Valid() && Values(collector, Layout.ClockOf(t), ext).Valid()
    requires CustomPath(template, Values(collector, Layout.ClockOf(s), ext)).Some?
    ensures CustomPath(template, Values(collector, Layout.ClockOf(s), ext)) == CustomPath(template, Values(collector, Layout.ClockOf(t), ext))
            <==> Layout.MinuteOf(s) == Layout.MinuteOf(t)
  {
    Layout.ClockValid(s);
    Layout.ClockValid(t);
    var v, w := Values(collector, Layout.ClockOf(s), ext), Values(collector, Layout.ClockOf(t), ext);
    if Layout.MinuteOf(s) == Layout.MinuteOf(t) {
      hide *;
      Layout.SameMinuteSameClock(s, t);
    } else if CustomPath(template, v) == CustomPath(template, w) {
      hide Layout.ClockOf, CustomPath, BracesOnlyInTokens, BraceFree, Layout.MinuteOf;
      CustomPathsInjective(template, v, w);
      Layout.SameClockSameMinute(s, t);
    }
  }

  /** And they do: with validated intervals every ribs bucket starts together with an updates bucket. */
  lemma {:induction false} RibsBucketsStartUpdatesBuckets(updates: nat, ribs: nat, t: int)
    requires updates > 0 && ribs > 0 && ribs % updates == 0 && t % ribs == 0
    ensures Layout.AlignedEpoch(t, updates) == t == Layout.AlignedEpoch(t, ribs)
  {
    var k, q := ribs / updates, t / ribs;
    assert ribs == updates * k && t == ribs * q;
    assert t == updates * (k * q);
    Layout.MultipleMod(k * q, updates);
    Layout.AlignedUnique(t, t, updates);
    Layout.AlignedUnique(t, t, ribs);
  }
}
