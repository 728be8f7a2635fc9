/**
 * The variable tokens of a Monomial ("x", "y^3", "x^(-2)") and the normal
 * form regroup_variables brings a token list to: the exponents summed per
 * letter in first-occurrence order, zero exponents dropped, a negative total
 * rejected, each letter rendered once and the tokens sorted. Everything here
 * is a pure function; the Monomial class runs the same steps as loops and is
 * proved equal to these functions.
 */
module Tokens {
  import opened Errors
  import Decimal
  import StringOrder

  // ---------------------------------------------------------------------
  // Splitting a token on '^'

  /** token.split("^")[0]: the text before the first caret. */
  function Head(s: string): (h: string)
    ensures '^' !in h
    ensures |h| <= |s|
  {
    if s == [] || s[0] == '^' then [] else [s[0]] + Head(s[1..])
  }

  /** The text after the first caret; empty when there is none. */
  function Rest(s: string): string {
    if s == [] then [] else if s[0] == '^' then s[1..] else Rest(s[1..])
  }

  /** token.split("^")[1], for a token that holds a caret. */
  function Field(s: string): string {
    Head(Rest(s))
  }

  lemma {:induction false} HeadOfPlain(s: string)
    requires '^' !in s
    ensures Head(s) == s
  {
    if s != [] {
      HeadOfPlain(s[1..]);
      assert s == [s[0]] + s[1..];
    }
  }

  lemma {:induction false} SplitJoin(h: string, t: string)
    requires '^' !in h
    ensures Head(h + "^" + t) == h && Rest(h + "^" + t) == t
  {
    if h != [] {
      assert (h + "^" + t)[1..] == h[1..] + "^" + t;
      SplitJoin(h[1..], t);
      assert h == [h[0]] + h[1..];
    }
  }

  /** str.replace(c, ""). */
  function Remove(s: string, c: char): (r: string)
    ensures c !in r
    ensures forall x :: x in r ==> x in s
  {
    if s == [] then []
    else if s[0] == c then Remove(s[1..], c)
    else [s[0]] + Remove(s[1..], c)
  }

  lemma {:induction false} RemoveAbsent(s: string, c: char)
    requires c !in s
    ensures Remove(s, c) == s
  {
    if s != [] {
      RemoveAbsent(s[1..], c);
    }
  }

  lemma {:induction false} RemoveConcat(a: string, b: string, c: char)
    ensures Remove(a + b, c) == Remove(a, c) + Remove(b, c)
  {
    if a == [] {
      assert a + b == b;
    } else {
      assert (a + b)[0] == a[0] && (a + b)[1..] == a[1..] + b;
      RemoveConcat(a[1..], b, c);
    }
  }

  // ---------------------------------------------------------------------
  // Parsing and rendering one token

  /**
   * The (letter, exponent) pair regroup_variables reads from one token: the
   * letter is the text before the first caret; without a caret the exponent
   * is 1, otherwise it is int() of the text after the caret, with every '('
   * and ')' removed when it holds a '('.
   */
  function ParseToken(tok: string): Result<(string, int)> {
    var letter := Head(tok);
    if '^' in tok then
      var text := Field(tok);
      var digits := if '(' in text then Remove(Remove(text, '('), ')') else text;
      var e :- Decimal.ParseInt(digits);
      Ok((letter, e))
    else
      Ok((letter, 1))
  }

  /** letter + "^" + str(e), the token __truediv__ and __pow__ build. */
  function Power(letter: string, e: int): string {
    letter + "^" + Decimal.IntToString(e)
  }

  /** The token regroup_variables writes for a letter with a positive total: bare for 1, letter^e above. */
  function Render(letter: string, e: int): string {
    if e > 1 then Power(letter, e) else letter
  }

  lemma IntToStringPlain(i: int)
    ensures '^' !in Decimal.IntToString(i) && '(' !in Decimal.IntToString(i) && ')' !in Decimal.IntToString(i)
  {
    var d := Decimal.NatToString(if i < 0 then -i else i);
    assert forall k :: 0 <= k < |d| ==> Decimal.IsDigit(d[k]);
  }

  /** letter^e parses back to (letter, e) for every int e, negative ones included. */
  lemma ParsePower(letter: string, e: int)
    requires '^' !in letter
    ensures ParseToken(Power(letter, e)) == Ok((letter, e))
  {
    var d := Decimal.IntToString(e);
    SplitJoin(letter, d);
    IntToStringPlain(e);
    HeadOfPlain(d);
    assert '^' in Power(letter, e) by {
      assert Power(letter, e)[|letter|] == '^';
    }
    Decimal.ParseIntOfIntToString(e);
  }

  lemma StripParentheses(d: string)
    requires '(' !in d && ')' !in d
    ensures Remove(Remove("(" + d + ")", '('), ')') == d
  {
    assert "(" + d + ")" == "(" + (d + ")");
    RemoveConcat("(", d + ")", '(');
    assert Remove("(", '(') == Remove([], '(') == [];
    RemoveConcat(d, ")", '(');
    RemoveAbsent(d, '(');
    RemoveAbsent(")", '(');
    assert Remove("(" + d + ")", '(') == d + ")";
    assert Remove(")", ')') == Remove([], ')') == [];
    RemoveConcat(d, ")", ')');
    RemoveAbsent(d, ')');
  }

  /** letter^(e), with the exponent in parentheses, parses like letter^e. */
  lemma ParseParenthesised(letter: string, e: int)
    requires '^' !in letter
    ensures ParseToken(letter + "^(" + Decimal.IntToString(e) + ")") == Ok((letter, e))
  {
    var d := Decimal.IntToString(e);
    var text := "(" + d + ")";
    var tok := letter + "^(" + d + ")";
    assert tok == letter + "^" + text;
    SplitJoin(letter, text);
    IntToStringPlain(e);
    HeadOfPlain(text);
    assert tok[|letter|] == '^' && text[0] == '(';
    StripParentheses(d);
    Decimal.ParseIntOfIntToString(e);
  }

  /** A rendered token parses back to its letter and exponent. */
  lemma ParseRender(letter: string, e: int)
    requires '^' !in letter && e >= 1
    ensures ParseToken(Render(letter, e)) == Ok((letter, e))
  {
    if e > 1 {
      ParsePower(letter, e);
    } else {
      HeadOfPlain(letter);
    }
  }

  /** A token in the form regroup_variables writes: it parses, its exponent is positive, and rendering the pair gives it back. */
  predicate IsCanonicalToken(t: string) {
    && ParseToken(t).Ok?
    && ParseToken(t).value.1 >= 1
    && Render(ParseToken(t).value.0, ParseToken(t).value.1) == t
  }

  lemma CanonicalRender(letter: string, e: int)
    requires '^' !in letter && e >= 1
    ensures IsCanonicalToken(Render(letter, e)) && Head(Render(letter, e)) == letter
  {
    ParseRender(letter, e);
  }

  // ---------------------------------------------------------------------
  // Token lists

  /** The pairs of a token list, or the exception of the first token int() rejects. */
  function Parsed(ts: seq<string>): (r: Result<seq<(string, int)>>)
    ensures r.Ok? ==> |r.value| == |ts|
  {
    if ts == [] then Ok([])
    else
      var init :- Parsed(ts[..|ts| - 1]);
      var last :- ParseToken(ts[|ts| - 1]);
      Ok(init + [last])
  }

  lemma {:induction false} ParsedIndex(ts: seq<string>)
    ensures Parsed(ts).Ok? <==> forall i :: 0 <= i < |ts| ==> ParseToken(ts[i]).Ok?
    ensures Parsed(ts).Ok? ==> forall i :: 0 <= i < |ts| ==> Parsed(ts).value[i] == ParseToken(ts[i]).value
  {
    if ts != [] {
      var init := ts[..|ts| - 1];
      ParsedIndex(init);
      assert forall i :: 0 <= i < |init| ==> init[i] == ts[i];
    }
  }

  lemma {:induction false} ParsedConcat(a: seq<string>, b: seq<string>)
    requires Parsed(a).Ok? && Parsed(b).Ok?
    ensures Parsed(a + b) == Ok(Parsed(a).value + Parsed(b).value)
    decreases |b|
  {
    if b == [] {
      assert a + b == a;
      assert Parsed(a).value + Parsed(b).value == Parsed(a).value;
    } else {
      var init := b[..|b| - 1];
      assert (a + b)[..|a + b| - 1] == a + init;
      assert (a + b)[|a + b| - 1] == b[|b| - 1];
      ParsedConcat(a, init);
      var x := ParseToken(b[|b| - 1]).value;
      assert Parsed(b).value == Parsed(init).value + [x];
      assert (Parsed(a).value + Parsed(init).value) + [x] == Parsed(a).value + (Parsed(init).value + [x]);
    }
  }

  /** The summed exponent of letter l over a list of pairs. */
  function Total(ps: seq<(string, int)>, l: string): int {
    if ps == [] then 0
    else Total(ps[..|ps| - 1], l) + (if ps[|ps| - 1].0 == l then ps[|ps| - 1].1 else 0)
  }

  lemma {:induction false} TotalConcat(p: seq<(string, int)>, q: seq<(string, int)>, l: string)
    ensures Total(p + q, l) == Total(p, l) + Total(q, l)
    decreases |q|
  {
    if q == [] {
      assert p + q == p;
    } else {
      assert (p + q)[..|p + q| - 1] == p + q[..|q| - 1];
      TotalConcat(p, q[..|q| - 1], l);
    }
  }

  lemma {:induction false} TotalAbsent(ps: seq<(string, int)>, l: string)
    requires forall i :: 0 <= i < |ps| ==> ps[i].0 != l
    ensures Total(ps, l) == 0
  {
    if ps != [] {
      TotalAbsent(ps[..|ps| - 1], l);
    }
  }

  /** With every letter at most once, the total of a letter is its one exponent, or 0. */
  lemma {:induction false} TotalDistinct(ps: seq<(string, int)>, l: string, i: nat)
    requires forall j, k :: 0 <= j < k < |ps| ==> ps[j].0 != ps[k].0
    requires i < |ps| && ps[i].0 == l
    ensures Total(ps, l) == ps[i].1
  {
    var n := |ps| - 1;
    var init := ps[..n];
    if i == n {
      TotalAbsent(init, l);
    } else {
      TotalDistinct(init, l, i);
    }
  }

  lemma {:induction false} TotalScaled(ps: seq<(string, int)>, qs: seq<(string, int)>, k: int, l: string)
    requires |ps| == |qs|
    requires forall i :: 0 <= i < |ps| ==> qs[i] == (ps[i].0, ps[i].1 * k)
    ensures Total(qs, l) == k * Total(ps, l)
  {
    if ps != [] {
      var n := |ps| - 1;
      TotalScaled(ps[..n], qs[..n], k, l);
      var a := Total(ps[..n], l);
      var b := if ps[n].0 == l then ps[n].1 else 0;
      assert k * (a + b) == k * a + k * b;
    }
  }

  /** The exponent a token list gives letter l: the sum over its tokens. */
  function Exponent(ts: seq<string>, l: string): int
    requires Parsed(ts).Ok?
  {
    Total(Parsed(ts).value, l)
  }

  // Sums of exponents

  function TokenExponent(t: string): int {
    if ParseToken(t).Ok? then ParseToken(t).value.1 else 0
  }

  /** The sum of the exponents of a token list. */
  function TokenSum(ts: seq<string>): int {
    if ts == [] then 0 else TokenSum(ts[..|ts| - 1]) + TokenExponent(ts[|ts| - 1])
  }

  lemma {:induction false} TokenSumConcat(a: seq<string>, b: seq<string>)
    ensures TokenSum(a + b) == TokenSum(a) + TokenSum(b)
    decreases |b|
  {
    if b == [] {
      assert a + b == a;
    } else {
      assert (a + b)[..|a + b| - 1] == a + b[..|b| - 1];
      TokenSumConcat(a, b[..|b| - 1]);
    }
  }

  lemma TokenSumRemove(b: seq<string>, k: nat)
    requires k < |b|
    ensures TokenSum(b) == TokenSum(b[..k] + b[k + 1..]) + TokenExponent(b[k])
  {
    var p, q, x := b[..k], b[k + 1..], [b[k]];
    var e := TokenExponent(b[k]);
    calc {
      TokenSum(b);
      { SplitAt(b, k); }
      TokenSum(p + (x + q));
      { TokenSumConcat(p, x + q); }
      TokenSum(p) + TokenSum(x + q);
      { TokenSumConcat(x, q); TokenSumSingle(b[k]); }
      TokenSum(p) + TokenSum(q) + e;
      { TokenSumConcat(p, q); }
      TokenSum(p + q) + e;
    }
  }

  lemma SplitAt(b: seq<string>, k: nat)
    requires k < |b|
    ensures b == b[..k] + ([b[k]] + b[k + 1..])
  {
  }

  lemma TokenSumSingle(t: string)
    ensures TokenSum([t]) == TokenExponent(t)
  {
    assert [t][..0] == [];
  }

  lemma MultisetRemove(a: seq<string>, b: seq<string>, k: nat)
    requires multiset(a) == multiset(b) && a != [] && k < |b| && b[k] == a[|a| - 1]
    ensures multiset(a[..|a| - 1]) == multiset(b[..k] + b[k + 1..])
  {
    var n := |a| - 1;
    assert a == a[..n] + [a[n]];
    assert multiset(a) == multiset(a[..n]) + multiset{a[n]};
    var p, q := b[..k], b[k + 1..];
    assert b == p + [b[k]] + q;
    assert multiset(b) == multiset(p) + multiset{b[k]} + multiset(q);
    assert multiset(p + q) == multiset(p) + multiset(q);
    var m1, m2 := multiset(a[..n]), multiset(p + q);
    assert m1 + multiset{a[n]} == m2 + multiset{a[n]};
    assert forall y :: (m1 + multiset{a[n]})[y] == m1[y] + multiset{a[n]}[y];
    assert forall y :: m1[y] == m2[y];
  }

  /** The sum of the exponents does not depend on the order of the tokens. */
  lemma {:induction false} TokenSumPermutation(a: seq<string>, b: seq<string>)
    requires multiset(a) == multiset(b)
    ensures TokenSum(a) == TokenSum(b)
    decreases |a|
  {
    if a == [] {
      assert |b| == |multiset(b)| == 0;
    } else {
      var n := |a| - 1;
      assert a[n] in multiset(b);
      var k :| 0 <= k < |b| && b[k] == a[n];
      TokenSumRemove(b, k);
      MultisetRemove(a, b, k);
      TokenSumPermutation(a[..n], b[..k] + b[k + 1..]);
    }
  }

  // ---------------------------------------------------------------------
  // The counter

  /** regroup_variables' counter dict: its keys in insertion order and the summed exponents. */
  datatype Counter = Counter(order: seq<string>, counts: map<string, int>)

  predicate WellFormed(c: Counter) {
    && (forall i :: 0 <= i < |c.order| ==> c.order[i] in c.counts)
    && (forall l :: l in c.counts ==> l in c.order)
    && (forall i, j :: 0 <= i < j < |c.order| ==> c.order[i] != c.order[j])
  }

  /** One step of the counting loop: add e to the letter's total, appending a letter not seen before. */
  function Add(c: Counter, letter: string, e: int): Counter {
    if letter in c.counts then Counter(c.order, c.counts[letter := c.counts[letter] + e])
    else Counter(c.order + [letter], c.counts[letter := e])
  }

  /** The counter after the counting loop has seen the pairs ps. */
  function Count(ps: seq<(string, int)>): (c: Counter)
    ensures WellFormed(c)
  {
    if ps == [] then Counter([], map[])
    else
      var c := Count(ps[..|ps| - 1]);
      var r := Add(c, ps[|ps| - 1].0, ps[|ps| - 1].1);
      assert forall i :: 0 <= i < |c.order| ==> r.order[i] == c.order[i];
      r
  }

  /** sum(counter.values()) over the first n keys. */
  function SumCounts(c: Counter, n: nat): int
    requires WellFormed(c) && n <= |c.order|
  {
    if n == 0 then 0 else SumCounts(c, n - 1) + c.counts[c.order[n - 1]]
  }

  /** The index of the first key whose total is negative, or the number of keys when there is none. */
  function FirstNegative(c: Counter, i: nat): (k: nat)
    requires WellFormed(c) && i <= |c.order|
    ensures i <= k <= |c.order|
    ensures forall j :: i <= j < k ==> c.counts[c.order[j]] >= 0
    ensures k < |c.order| ==> c.counts[c.order[k]] < 0
    decreases |c.order| - i
  {
    if i == |c.order| || c.counts[c.order[i]] < 0 then i else FirstNegative(c, i + 1)
  }

  /** The tokens the rewriting loop appends for the first n keys: zero totals skipped, the rest rendered. */
  function Emit(c: Counter, n: nat): seq<string>
    requires WellFormed(c) && n <= |c.order|
  {
    if n == 0 then []
    else
      var l := c.order[n - 1];
      Emit(c, n - 1) + (if c.counts[l] == 0 then [] else [Render(l, c.counts[l])])
  }

  /** What a successful regroup_variables leaves: the sorted canonical tokens and the degree. */
  datatype Regrouped = Regrouped(variables: seq<string>, degree: int)

  /**
   * regroup_variables on a token list: the first int() failure, else
   * ValueError("Not a monomial") when a letter's total is negative, else the
   * sorted rendered tokens and the sum of the totals.
   */
  function Regroup(ts: seq<string>): Result<Regrouped> {
    var ps :- Parsed(ts);
    var c := Count(ps);
    if FirstNegative(c, 0) < |c.order| then Err(ValueError("Not a monomial"))
    else Ok(Regrouped(StringOrder.Sort(Emit(c, |c.order|)), SumCounts(c, |c.order|)))
  }

  /**
   * The list regroup_variables leaves behind, error or not: untouched when
   * int() fails (that happens before the list is cleared), the tokens
   * appended before the first negative total when there is one, and the
   * sorted result otherwise.
   */
  function RegroupState(ts: seq<string>): seq<string> {
    match Parsed(ts)
    case Err(_) => ts
    case Ok(ps) =>
      var c := Count(ps);
      var k := FirstNegative(c, 0);
      if k < |c.order| then Emit(c, k) else StringOrder.Sort(Emit(c, |c.order|))
  }

  // ---------------------------------------------------------------------
  // Facts about the counter

  predicate PlainLetters(ps: seq<(string, int)>) {
    forall i :: 0 <= i < |ps| ==> '^' !in ps[i].0
  }

  lemma ParsedPlain(ts: seq<string>)
    requires Parsed(ts).Ok?
    ensures PlainLetters(Parsed(ts).value)
    ensures forall i :: 0 <= i < |ts| ==> Parsed(ts).value[i].0 == Head(ts[i])
  {
    ParsedIndex(ts);
  }

  /** The counter holds, for each letter seen, its total; a letter not in it has total 0. */
  lemma {:induction false} CountTotals(ps: seq<(string, int)>)
    ensures forall l :: l in Count(ps).counts ==> Count(ps).counts[l] == Total(ps, l)
    ensures forall l :: l !in Count(ps).counts ==> Total(ps, l) == 0
    ensures PlainLetters(ps) ==> forall i :: 0 <= i < |Count(ps).order| ==> '^' !in Count(ps).order[i]
  {
    if ps != [] {
      var init := ps[..|ps| - 1];
      CountTotals(init);
      if PlainLetters(ps) {
        assert PlainLetters(init) by {
          assert forall i :: 0 <= i < |init| ==> init[i] == ps[i];
        }
      }
    }
  }

  lemma {:induction false} SumCountsUpdate(c: Counter, n: nat, l: string, v: int)
    requires WellFormed(c) && n <= |c.order| && l in c.counts
    ensures WellFormed(Counter(c.order, c.counts[l := v]))
    ensures SumCounts(Counter(c.order, c.counts[l := v]), n) == SumCounts(c, n) + (if l in c.order[..n] then v - c.counts[l] else 0)
  {
    var d := Counter(c.order, c.counts[l := v]);
    if n > 0 {
      SumCountsUpdate(c, n - 1, l, v);
      assert c.order[..n] == c.order[..n - 1] + [c.order[n - 1]];
      if c.order[n - 1] == l {
        assert l !in c.order[..n - 1];
      }
    }
  }

  lemma {:induction false} SumCountsExtend(c: Counter, n: nat, l: string, e: int)
    requires WellFormed(c) && n <= |c.order| && l !in c.counts
    ensures WellFormed(Add(c, l, e))
    ensures SumCounts(Add(c, l, e), n) == SumCounts(c, n)
  {
    if n > 0 {
      SumCountsExtend(c, n - 1, l, e);
    }
  }

  /** The sum of a list of pairs' exponents. */
  function SumAll(ps: seq<(string, int)>): int {
    if ps == [] then 0 else SumAll(ps[..|ps| - 1]) + ps[|ps| - 1].1
  }

  /** Each step of the counting loop raises the sum of the totals by the exponent it reads. */
  lemma SumCountsAdd(c: Counter, l: string, e: int)
    requires WellFormed(c)
    ensures WellFormed(Add(c, l, e))
    ensures SumCounts(Add(c, l, e), |Add(c, l, e).order|) == SumCounts(c, |c.order|) + e
  {
    if l in c.counts {
      assert Add(c, l, e) == Counter(c.order, c.counts[l := c.counts[l] + e]);
      SumCountsUpdate(c, |c.order|, l, c.counts[l] + e);
      assert c.order[..|c.order|] == c.order;
    } else {
      var d := Counter(c.order + [l], c.counts[l := e]);
      assert Add(c, l, e) == d;
      SumCountsExtend(c, |c.order|, l, e);
      assert SumCounts(d, |d.order|) == SumCounts(d, |c.order|) + e;
    }
  }

  /** sum(counter.values()) is the sum of every exponent read. */
  lemma {:induction false} SumCountsOfCount(ps: seq<(string, int)>)
    ensures SumCounts(Count(ps), |Count(ps).order|) == SumAll(ps)
  {
    if ps != [] {
      var init := ps[..|ps| - 1];
      SumCountsOfCount(init);
      SumCountsAdd(Count(init), ps[|ps| - 1].0, ps[|ps| - 1].1);
    }
  }

  // ---------------------------------------------------------------------
  // The normal form

  /** No letter is written twice. */
  predicate DistinctLetters(vs: seq<string>) {
    forall i, j :: 0 <= i < j < |vs| ==> Head(vs[i]) != Head(vs[j])
  }

  /** A token list in the form regroup_variables leaves it: canonical tokens, one per letter, sorted. */
  predicate Canonical(vs: seq<string>) {
    && Parsed(vs).Ok?
    && (forall i :: 0 <= i < |vs| ==> IsCanonicalToken(vs[i]))
    && DistinctLetters(vs)
    && StringOrder.Sorted(vs)
  }

  /** The sum of the exponents of a canonical list: the degree it stands for. */
  function Degree(vs: seq<string>): int {
    TokenSum(vs)
  }

  predicate EmitRequires(c: Counter, n: nat) {
    && WellFormed(c) && n <= |c.order|
    && (forall j :: 0 <= j < n ==> c.counts[c.order[j]] >= 0)
    && (forall j :: 0 <= j < |c.order| ==> '^' !in c.order[j])
  }

  lemma EmitStep(c: Counter, n: nat)
    requires EmitRequires(c, n) && n > 0
    ensures EmitRequires(c, n - 1)
    ensures c.counts[c.order[n - 1]] == 0 ==> Emit(c, n) == Emit(c, n - 1)
    ensures c.counts[c.order[n - 1]] != 0 ==> Emit(c, n) == Emit(c, n - 1) + [Render(c.order[n - 1], c.counts[c.order[n - 1]])]
    ensures c.order[..n] == c.order[..n - 1] + [c.order[n - 1]]
    ensures c.order[n - 1] !in c.order[..n - 1]
  {
    var o := c.order;
    assert o[..n] == o[..n - 1] + [o[n - 1]];
    forall k | 0 <= k < n - 1
      ensures o[k] != o[n - 1]
    {
    }
    assert forall k :: 0 <= k < n - 1 ==> o[..n - 1][k] == o[k];
  }

  /** Every token the rewriting loop appends is canonical and carries its letter's total. */
  lemma {:induction false} EmitTokens(c: Counter, n: nat)
    requires EmitRequires(c, n)
    ensures forall i :: 0 <= i < |Emit(c, n)| ==>
      && IsCanonicalToken(Emit(c, n)[i])
      && Head(Emit(c, n)[i]) in c.order[..n]
      && TokenExponent(Emit(c, n)[i]) == c.counts[Head(Emit(c, n)[i])]
  {
    if n > 0 {
      EmitStep(c, n);
      EmitTokens(c, n - 1);
      var l := c.order[n - 1];
      if c.counts[l] != 0 {
        CanonicalRender(l, c.counts[l]);
        ParseRender(l, c.counts[l]);
      }
    }
  }

  /** The rewriting loop appends at most one token per letter. */
  lemma {:induction false} EmitDistinct(c: Counter, n: nat)
    requires EmitRequires(c, n)
    ensures DistinctLetters(Emit(c, n))
  {
    if n > 0 {
      EmitStep(c, n);
      EmitDistinct(c, n - 1);
      EmitTokens(c, n - 1);
      var l := c.order[n - 1];
      if c.counts[l] != 0 {
        CanonicalRender(l, c.counts[l]);
      }
    }
  }

  /** Some token of vs is written with letter l. */
  predicate HasLetter(vs: seq<string>, l: string) {
    exists i :: 0 <= i < |vs| && Head(vs[i]) == l
  }

  lemma HasLetterConcat(a: seq<string>, t: seq<string>, l: string)
    requires HasLetter(a, l)
    ensures HasLetter(a + t, l)
  {
    var i :| 0 <= i < |a| && Head(a[i]) == l;
    assert (a + t)[i] == a[i];
  }

  lemma EmitLast(c: Counter, n: nat)
    requires EmitRequires(c, n) && n > 0 && c.counts[c.order[n - 1]] > 0
    ensures HasLetter(Emit(c, n), c.order[n - 1])
  {
    EmitStep(c, n);
    var l := c.order[n - 1];
    CanonicalRender(l, c.counts[l]);
    var e := Emit(c, n);
    assert Head(e[|e| - 1]) == l;
  }

  /** A letter among the first n with a positive total has a token among the first n emitted. */
  lemma {:induction false} EmitCovers(c: Counter, n: nat, j: nat)
    requires EmitRequires(c, n) && j < n && c.counts[c.order[j]] > 0
    ensures HasLetter(Emit(c, n), c.order[j])
  {
    if j == n - 1 {
      EmitLast(c, n);
    } else {
      EmitStep(c, n);
      EmitCovers(c, n - 1, j);
      var l := c.order[n - 1];
      var t := if c.counts[l] == 0 then [] else [Render(l, c.counts[l])];
      assert Emit(c, n) == Emit(c, n - 1) + t;
      HasLetterConcat(Emit(c, n - 1), t, c.order[j]);
    }
  }

  /** The exponents of the appended tokens add up to sum(counter.values()). */
  lemma {:induction false} EmitSum(c: Counter, n: nat)
    requires EmitRequires(c, n)
    ensures TokenSum(Emit(c, n)) == SumCounts(c, n)
  {
    if n > 0 {
      EmitStep(c, n);
      EmitSum(c, n - 1);
      var l := c.order[n - 1];
      if c.counts[l] != 0 {
        ParseRender(l, c.counts[l]);
        var t := Render(l, c.counts[l]);
        TokenSumConcat(Emit(c, n - 1), [t]);
        assert [t][..0] == [];
      }
    }
  }

  lemma CanonicalTokensExponent(vs: seq<string>, l: string)
    requires forall i :: 0 <= i < |vs| ==> IsCanonicalToken(vs[i])
    requires DistinctLetters(vs)
    ensures Parsed(vs).Ok?
    ensures forall i :: 0 <= i < |vs| && Head(vs[i]) == l ==> Exponent(vs, l) == TokenExponent(vs[i])
    ensures (forall i :: 0 <= i < |vs| ==> Head(vs[i]) != l) ==> Exponent(vs, l) == 0
  {
    ParsedIndex(vs);
    var ps := Parsed(vs).value;
    assert forall i :: 0 <= i < |vs| ==> ps[i] == (Head(vs[i]), TokenExponent(vs[i]));
    forall i | 0 <= i < |vs| && Head(vs[i]) == l ensures Exponent(vs, l) == TokenExponent(vs[i]) {
      TotalDistinct(ps, l, i);
    }
    if forall i :: 0 <= i < |vs| ==> Head(vs[i]) != l {
      TotalAbsent(ps, l);
    }
  }

  /** In a canonical list the exponent of a letter is that of its one token, or 0 when it has none. */
  lemma CanonicalExponent(vs: seq<string>, l: string)
    requires Canonical(vs)
    ensures forall i :: 0 <= i < |vs| && Head(vs[i]) == l ==> Exponent(vs, l) == TokenExponent(vs[i]) >= 1
    ensures (forall i :: 0 <= i < |vs| ==> Head(vs[i]) != l) ==> Exponent(vs, l) == 0
  {
    CanonicalTokensExponent(vs, l);
  }

  /** A permutation of a list of canonical tokens with distinct letters has distinct letters too. */
  lemma PermutationLetters(e: seq<string>, s: seq<string>)
    requires DistinctLetters(e) && multiset(e) == multiset(s)
    ensures DistinctLetters(s)
  {
    assert StringOrder.Distinct(e);
    StringOrder.DistinctPermutation(e, s);
    forall i, j | 0 <= i < j < |s| ensures Head(s[i]) != Head(s[j]) {
      assert s[i] in multiset(e) && s[j] in multiset(e);
      var p :| 0 <= p < |e| && e[p] == s[i];
      var q :| 0 <= q < |e| && e[q] == s[j];
    }
  }

  lemma PermutationCanonical(e: seq<string>, s: seq<string>)
    requires forall i :: 0 <= i < |e| ==> IsCanonicalToken(e[i])
    requires multiset(e) == multiset(s)
    ensures forall i :: 0 <= i < |s| ==> IsCanonicalToken(s[i])
  {
    forall i | 0 <= i < |s| ensures IsCanonicalToken(s[i]) {
      assert s[i] in multiset(e);
      var p :| 0 <= p < |e| && e[p] == s[i];
    }
  }

  /** Sorting canonical tokens with distinct letters gives a canonical list with the same tokens and degree. */
  lemma SortFacts(e: seq<string>)
    requires forall i :: 0 <= i < |e| ==> IsCanonicalToken(e[i])
    requires DistinctLetters(e)
    ensures Canonical(StringOrder.Sort(e))
    ensures forall x :: x in StringOrder.Sort(e) <==> x in e
    ensures TokenSum(StringOrder.Sort(e)) == TokenSum(e)
  {
    var s := StringOrder.Sort(e);
    StringOrder.SortSorted(e);
    TokenSumPermutation(s, e);
    PermutationLetters(e, s);
    PermutationCanonical(e, s);
    CanonicalTokensExponent(s, "");
    assert forall x :: x in s <==> x in multiset(s);
    assert forall x :: x in e <==> x in multiset(e);
  }

  /**
   * regroup_variables fails with ValueError("Not a monomial") exactly when
   * every token parses and some letter's summed exponent is negative.
   */
  lemma RegroupFails(ts: seq<string>)
    ensures Regroup(ts).Ok? <==> Parsed(ts).Ok? && forall l :: Exponent(ts, l) >= 0
    ensures Parsed(ts).Ok? && Regroup(ts).Err? ==> Regroup(ts).error == ValueError("Not a monomial")
  {
    if Parsed(ts).Ok? {
      var ps := Parsed(ts).value;
      var c := Count(ps);
      CountTotals(ps);
      var k := FirstNegative(c, 0);
      if k < |c.order| {
        assert Exponent(ts, c.order[k]) < 0;
      } else {
        forall l ensures Exponent(ts, l) >= 0 {
          if l in c.counts {
            var j :| 0 <= j < |c.order| && c.order[j] == l;
          }
        }
      }
    }
  }

  /** The tokens of the sorted rewritten list: canonical, and each carries its letter's total. */
  lemma SortedEmitTokens(c: Counter)
    requires EmitRequires(c, |c.order|)
    ensures Canonical(StringOrder.Sort(Emit(c, |c.order|)))
    ensures forall i :: 0 <= i < |StringOrder.Sort(Emit(c, |c.order|))| ==>
      var t := StringOrder.Sort(Emit(c, |c.order|))[i];
      Head(t) in c.counts && TokenExponent(t) == c.counts[Head(t)]
  {
    var n := |c.order|;
    EmitTokens(c, n);
    EmitDistinct(c, n);
    var e := Emit(c, n);
    SortFacts(e);
    var s := StringOrder.Sort(e);
    forall i | 0 <= i < |s| ensures Head(s[i]) in c.counts && TokenExponent(s[i]) == c.counts[Head(s[i])] {
      var x := s[i];
      assert x in s;
      assert x in e;
      var p :| 0 <= p < |e| && e[p] == x;
    }
  }

  /** A counted letter with a positive total has a token in the sorted rewritten list. */
  lemma SortedEmitCovers(c: Counter, l: string)
    requires EmitRequires(c, |c.order|)
    requires l in c.counts && c.counts[l] > 0
    ensures exists i :: 0 <= i < |StringOrder.Sort(Emit(c, |c.order|))| && Head(StringOrder.Sort(Emit(c, |c.order|))[i]) == l
  {
    var n := |c.order|;
    EmitTokens(c, n);
    EmitDistinct(c, n);
    var j :| 0 <= j < n && c.order[j] == l;
    EmitCovers(c, n, j);
    var e := Emit(c, n);
    SortFacts(e);
    var s := StringOrder.Sort(e);
    var p :| 0 <= p < |e| && Head(e[p]) == l;
    assert e[p] in s;
  }

  /** The sorted rewritten list gives each letter its total, and 0 to a letter not counted. */
  lemma SortedEmitExponent(c: Counter, l: string)
    requires EmitRequires(c, |c.order|)
    ensures Canonical(StringOrder.Sort(Emit(c, |c.order|)))
    ensures Exponent(StringOrder.Sort(Emit(c, |c.order|)), l) == if l in c.counts then c.counts[l] else 0
  {
    SortedEmitTokens(c);
    var s := StringOrder.Sort(Emit(c, |c.order|));
    CanonicalExponent(s, l);
    if l in c.counts && c.counts[l] > 0 {
      SortedEmitCovers(c, l);
    }
  }

  /** A letter gets the same exponent from the regrouped list as from the input. */
  lemma RegroupExponent(ts: seq<string>, l: string)
    requires Regroup(ts).Ok?
    ensures Canonical(Regroup(ts).value.variables)
    ensures Exponent(Regroup(ts).value.variables, l) == Exponent(ts, l)
  {
    var ps := Parsed(ts).value;
    CountTotals(ps);
    ParsedPlain(ts);
    SortedEmitExponent(Count(ps), l);
  }

  /**
   * A successful regroup_variables leaves a canonical list that gives every
   * letter the same exponent as the input did, and its degree is the sum of
   * the canonical exponents, which is also the sum of every exponent read.
   */
  lemma RegroupCanonical(ts: seq<string>)
    requires Regroup(ts).Ok?
    ensures Canonical(Regroup(ts).value.variables)
    ensures forall l :: Exponent(Regroup(ts).value.variables, l) == Exponent(ts, l)
    ensures Regroup(ts).value.degree == Degree(Regroup(ts).value.variables)
    ensures Regroup(ts).value.degree == SumAll(Parsed(ts).value)
  {
    var ps := Parsed(ts).value;
    var c := Count(ps);
    CountTotals(ps);
    ParsedPlain(ts);
    var n := |c.order|;
    EmitTokens(c, n);
    EmitDistinct(c, n);
    EmitSum(c, n);
    SortFacts(Emit(c, n));
    SumCountsOfCount(ps);
    forall l ensures Exponent(Regroup(ts).value.variables, l) == Exponent(ts, l) {
      RegroupExponent(ts, l);
    }
  }

  // ---------------------------------------------------------------------
  // Uniqueness and idempotence

  lemma CanonicalSubset(a: seq<string>, b: seq<string>)
    requires Canonical(a) && Canonical(b)
    requires forall l :: Exponent(a, l) == Exponent(b, l)
    ensures forall x :: x in a ==> x in b
  {
    forall x | x in a ensures x in b {
      var i :| 0 <= i < |a| && a[i] == x;
      var l := Head(x);
      CanonicalExponent(a, l);
      CanonicalExponent(b, l);
      var j :| 0 <= j < |b| && Head(b[j]) == l;
      assert ParseToken(x).value == (l, TokenExponent(x));
      assert ParseToken(b[j]).value == (l, TokenExponent(b[j]));
    }
  }

  /** A canonical list is determined by the exponents it gives the letters. */
  lemma CanonicalUnique(a: seq<string>, b: seq<string>)
    requires Canonical(a) && Canonical(b)
    requires forall l :: Exponent(a, l) == Exponent(b, l)
    ensures a == b
  {
    CanonicalSubset(a, b);
    CanonicalSubset(b, a);
    assert StringOrder.Distinct(a) && StringOrder.Distinct(b);
    forall x ensures multiset(a)[x] == multiset(b)[x] {
      StringOrder.DistinctMultiplicity(a, x);
      StringOrder.DistinctMultiplicity(b, x);
    }
    assert multiset(a) == multiset(b);
    StringOrder.SortedUnique(a, b);
  }

  lemma CanonicalNonNegative(vs: seq<string>)
    requires Canonical(vs)
    ensures forall l :: Exponent(vs, l) >= 0
  {
    forall l ensures Exponent(vs, l) >= 0 {
      CanonicalExponent(vs, l);
      if exists i :: 0 <= i < |vs| && Head(vs[i]) == l {
        var i :| 0 <= i < |vs| && Head(vs[i]) == l;
      }
    }
  }

  /**
   * Regrouping a list regroup_variables has already produced leaves it as it
   * is, with its degree: a Monomial may therefore share its canonical list
   * with a new Monomial, which regroups that list in place.
   */
  lemma RegroupIdempotent(vs: seq<string>)
    requires Canonical(vs)
    ensures Regroup(vs) == Ok(Regrouped(vs, Degree(vs)))
    ensures RegroupState(vs) == vs
  {
    CanonicalNonNegative(vs);
    RegroupFails(vs);
    RegroupCanonical(vs);
    CanonicalUnique(Regroup(vs).value.variables, vs);
  }

  /** The canonical list of no variables. */
  lemma CanonicalEmpty()
    ensures Canonical([]) && Degree([]) == 0
    ensures forall l :: Exponent([], l) == 0
  {
  }

  // ---------------------------------------------------------------------
  // The token lists of *, / and **

  lemma {:induction false} ParsedSum(ts: seq<string>)
    requires Parsed(ts).Ok?
    ensures SumAll(Parsed(ts).value) == TokenSum(ts)
  {
    if ts != [] {
      ParsedSum(ts[..|ts| - 1]);
    }
  }

  lemma {:induction false} SumAllConcat(p: seq<(string, int)>, q: seq<(string, int)>)
    ensures SumAll(p + q) == SumAll(p) + SumAll(q)
    decreases |q|
  {
    if q == [] {
      assert p + q == p;
    } else {
      assert (p + q)[..|p + q| - 1] == p + q[..|q| - 1];
      SumAllConcat(p, q[..|q| - 1]);
    }
  }

  lemma {:induction false} SumAllScaled(ps: seq<(string, int)>, qs: seq<(string, int)>, k: int)
    requires |ps| == |qs|
    requires forall i :: 0 <= i < |ps| ==> qs[i].1 == ps[i].1 * k
    ensures SumAll(qs) == k * SumAll(ps)
  {
    if ps != [] {
      var n := |ps| - 1;
      SumAllScaled(ps[..n], qs[..n], k);
      assert k * (SumAll(ps[..n]) + ps[n].1) == k * SumAll(ps[..n]) + k * ps[n].1;
    }
  }

  /** A canonical token is a bare letter with exponent 1, or letter^e with e > 1. */
  lemma CanonicalTokenShape(t: string)
    requires IsCanonicalToken(t)
    ensures TokenExponent(t) == 1 ==> '^' !in t
    ensures TokenExponent(t) > 1 ==> '^' in t && Field(t) == Decimal.IntToString(TokenExponent(t))
  {
    var (l, e) := ParseToken(t).value;
    if e > 1 {
      SplitJoin(l, Decimal.IntToString(e));
      IntToStringPlain(e);
      HeadOfPlain(Decimal.IntToString(e));
      assert t[|l|] == '^';
    }
  }

  /** The token __truediv__ appends for one token of the divisor: its letter with the exponent negated. */
  function DivisorToken(t: string): Result<string> {
    var letter := Head(t);
    if '^' in t then
      var e :- Decimal.ParseInt(Field(t));
      Ok(Power(letter, e * -1))
    else
      Ok(Power(letter, 1 * -1))
  }

  /** A token list converted token by token, or the exception of the first token whose conversion fails. */
  function Converted(f: string -> Result<string>, ts: seq<string>): (r: Result<seq<string>>)
    ensures r.Ok? ==> |r.value| == |ts|
  {
    if ts == [] then Ok([])
    else
      var init :- Converted(f, ts[..|ts| - 1]);
      var last :- f(ts[|ts| - 1]);
      Ok(init + [last])
  }

  /** The tokens __truediv__ appends for the divisor's list, or the exception of the first int() failure. */
  function Reciprocal(ts: seq<string>): (r: Result<seq<string>>)
    ensures r.Ok? ==> |r.value| == |ts|
  {
    Converted(DivisorTokenFn(), ts)
  }

  /** The three outcomes of DivisorToken, as the loop of __truediv__ meets them. */
  lemma DivisorTokenCases(t: string)
    ensures '^' !in t ==> DivisorToken(t) == Ok(Power(Head(t), 1 * -1))
    ensures '^' in t && Decimal.ParseInt(Field(t)).Err? ==> DivisorToken(t) == Err(Decimal.ParseInt(Field(t)).error)
    ensures '^' in t && Decimal.ParseInt(Field(t)).Ok? ==> DivisorToken(t) == Ok(Power(Head(t), Decimal.ParseInt(Field(t)).value * -1))
  {
  }

  function DivisorTokenFn(): string -> Result<string> {
    t => DivisorToken(t)
  }

  /** The token __pow__ builds for one token: its letter with the exponent multiplied by n. */
  function PowerToken(t: string, n: int): Result<string> {
    var letter := Head(t);
    if '^' in t then
      var e :- Decimal.ParseInt(Field(t));
      Ok(Power(letter, e * n))
    else
      Ok(Power(letter, 1 * n))
  }

  function PowerTokenBy(n: int): string -> Result<string> {
    t => PowerToken(t, n)
  }

  /** The token list __pow__ builds, or the exception of the first int() failure. */
  function Powered(ts: seq<string>, n: int): (r: Result<seq<string>>)
    ensures r.Ok? ==> |r.value| == |ts|
  {
    Converted(PowerTokenBy(n), ts)
  }

  lemma ScaledParse(b: seq<string>, r: seq<string>, k: int)
    requires Canonical(b) && |r| == |b|
    requires forall i :: 0 <= i < |b| ==> r[i] == Power(Head(b[i]), TokenExponent(b[i]) * k)
    ensures Parsed(r).Ok?
    ensures forall i :: 0 <= i < |b| ==> Parsed(r).value[i] == (Parsed(b).value[i].0, Parsed(b).value[i].1 * k)
  {
    ParsedIndex(b);
    forall i | 0 <= i < |b| ensures ParseToken(r[i]) == Ok((Head(b[i]), TokenExponent(b[i]) * k)) {
      ParsePower(Head(b[i]), TokenExponent(b[i]) * k);
    }
    ParsedIndex(r);
  }

  /** A list of letter^(e * k) tokens built from a canonical list gives every letter k times its exponent, and k times the degree. */
  lemma ScaledTokens(b: seq<string>, r: seq<string>, k: int)
    requires Canonical(b) && |r| == |b|
    requires forall i :: 0 <= i < |b| ==> r[i] == Power(Head(b[i]), TokenExponent(b[i]) * k)
    ensures Parsed(r).Ok?
    ensures forall l :: Exponent(r, l) == k * Exponent(b, l)
    ensures SumAll(Parsed(r).value) == k * Degree(b)
  {
    ScaledParse(b, r, k);
    var pb, pr := Parsed(b).value, Parsed(r).value;
    forall l ensures Exponent(r, l) == k * Exponent(b, l) {
      TotalScaled(pb, pr, k, l);
    }
    SumAllScaled(pb, pr, k);
    ParsedSum(b);
  }

  lemma DivisorTokenOfCanonical(t: string)
    requires IsCanonicalToken(t)
    ensures DivisorToken(t) == Ok(Power(Head(t), TokenExponent(t) * -1))
  {
    CanonicalTokenShape(t);
    Decimal.ParseIntOfIntToString(TokenExponent(t));
  }

  lemma PowerTokenOfCanonical(t: string, k: int)
    requires IsCanonicalToken(t)
    ensures PowerToken(t, k) == Ok(Power(Head(t), TokenExponent(t) * k))
  {
    CanonicalTokenShape(t);
    Decimal.ParseIntOfIntToString(TokenExponent(t));
  }

  /** When every token converts, the converted list is the converted tokens in order. */
  lemma {:induction false} ConvertedAll(f: string -> Result<string>, b: seq<string>, r: seq<string>)
    requires |r| == |b| && forall i :: 0 <= i < |b| ==> f(b[i]) == Ok(r[i])
    ensures Converted(f, b) == Ok(r)
    decreases |b|
  {
    if b != [] {
      var n := |b| - 1;
      var b', r' := b[..n], r[..n];
      assert forall i :: 0 <= i < n ==> b'[i] == b[i] && r'[i] == r[i];
      ConvertedAll(f, b', r');
      ConvertedStep(f, b, n);
      assert b[..n + 1] == b;
      assert r == r' + [r[n]];
    }
  }

  lemma ReciprocalShape(b: seq<string>)
    requires forall i :: 0 <= i < |b| ==> IsCanonicalToken(b[i])
    ensures Reciprocal(b).Ok?
    ensures forall i :: 0 <= i < |b| ==> Reciprocal(b).value[i] == Power(Head(b[i]), TokenExponent(b[i]) * -1)
  {
    var r := seq(|b|, i requires 0 <= i < |b| => Power(Head(b[i]), TokenExponent(b[i]) * -1));
    forall i | 0 <= i < |b| ensures DivisorTokenFn()(b[i]) == Ok(r[i]) {
      DivisorTokenOfCanonical(b[i]);
    }
    ConvertedAll(DivisorTokenFn(), b, r);
  }

  lemma PoweredShape(a: seq<string>, k: int)
    requires forall i :: 0 <= i < |a| ==> IsCanonicalToken(a[i])
    ensures Powered(a, k).Ok?
    ensures forall i :: 0 <= i < |a| ==> Powered(a, k).value[i] == Power(Head(a[i]), TokenExponent(a[i]) * k)
  {
    var r := seq(|a|, i requires 0 <= i < |a| => Power(Head(a[i]), TokenExponent(a[i]) * k));
    forall i | 0 <= i < |a| ensures PowerTokenBy(k)(a[i]) == Ok(r[i]) {
      PowerTokenOfCanonical(a[i], k);
    }
    ConvertedAll(PowerTokenBy(k), a, r);
  }

  /** Regrouping canonical lists joined: exponents add per letter and degrees add. */
  lemma ProductLaw(a: seq<string>, b: seq<string>)
    requires Canonical(a) && Canonical(b)
    ensures Regroup(a + b).Ok?
    ensures Canonical(Regroup(a + b).value.variables)
    ensures forall l :: Exponent(Regroup(a + b).value.variables, l) == Exponent(a, l) + Exponent(b, l)
    ensures Regroup(a + b).value.degree == Degree(a) + Degree(b)
  {
    ParsedConcat(a, b);
    forall l ensures Exponent(a + b, l) == Exponent(a, l) + Exponent(b, l) {
      TotalConcat(Parsed(a).value, Parsed(b).value, l);
    }
    CanonicalNonNegative(a);
    CanonicalNonNegative(b);
    RegroupFails(a + b);
    RegroupCanonical(a + b);
    SumAllConcat(Parsed(a).value, Parsed(b).value);
    ParsedSum(a);
    ParsedSum(b);
  }

  /**
   * Regrouping a canonical list followed by the divisor's negated tokens:
   * defined exactly when no exponent of b exceeds that of a, with the
   * exponents and the degrees subtracted; ValueError("Not a monomial")
   * otherwise.
   */
  lemma QuotientLaw(a: seq<string>, b: seq<string>)
    requires Canonical(a) && Canonical(b)
    ensures Reciprocal(b).Ok?
    ensures Regroup(a + Reciprocal(b).value).Ok? <==> forall l :: Exponent(b, l) <= Exponent(a, l)
    ensures Regroup(a + Reciprocal(b).value).Ok? ==> Canonical(Regroup(a + Reciprocal(b).value).value.variables)
    ensures Regroup(a + Reciprocal(b).value).Ok? ==>
      && (forall l :: Exponent(Regroup(a + Reciprocal(b).value).value.variables, l) == Exponent(a, l) - Exponent(b, l))
      && Regroup(a + Reciprocal(b).value).value.degree == Degree(a) - Degree(b)
    ensures Regroup(a + Reciprocal(b).value).Err? ==> Regroup(a + Reciprocal(b).value).error == ValueError("Not a monomial")
  {
    ReciprocalShape(b);
    var r := Reciprocal(b).value;
    ScaledTokens(b, r, -1);
    ParsedConcat(a, r);
    forall l ensures Exponent(a + r, l) == Exponent(a, l) - Exponent(b, l) {
      TotalConcat(Parsed(a).value, Parsed(r).value, l);
    }
    RegroupFails(a + r);
    if Regroup(a + r).Ok? {
      RegroupCanonical(a + r);
      SumAllConcat(Parsed(a).value, Parsed(r).value);
      ParsedSum(a);
    }
  }

  lemma PowerNegative(a: seq<string>, n: int)
    requires Canonical(a) && n < 0 && a != []
    ensures Powered(a, n).Ok?
    ensures Regroup(Powered(a, n).value).Err?
  {
    PoweredShape(a, n);
    var p := Powered(a, n).value;
    ScaledTokens(a, p, n);
    RegroupFails(p);
    var l := Head(a[0]);
    CanonicalExponent(a, l);
    ProductSign(n, Exponent(a, l));
  }

  lemma PowerNonNegative(a: seq<string>, n: int)
    requires Canonical(a) && (n >= 0 || a == [])
    ensures Powered(a, n).Ok?
    ensures Regroup(Powered(a, n).value).Ok?
  {
    PoweredShape(a, n);
    var p := Powered(a, n).value;
    ScaledTokens(a, p, n);
    RegroupFails(p);
    CanonicalNonNegative(a);
    forall l ensures Exponent(p, l) >= 0 {
      if a == [] {
        CanonicalExponent(a, l);
      }
      ProductSign(n, Exponent(a, l));
    }
  }

  lemma PowerDefined(a: seq<string>, n: int)
    requires Canonical(a)
    ensures Powered(a, n).Ok?
    ensures Regroup(Powered(a, n).value).Ok? <==> n >= 0 || a == []
  {
    PoweredShape(a, n);
    if n < 0 && a != [] {
      PowerNegative(a, n);
    } else {
      PowerNonNegative(a, n);
    }
  }

  lemma ProductSign(n: int, e: int)
    ensures n < 0 && e >= 1 ==> n * e < 0
    ensures n >= 0 && e >= 0 ==> n * e >= 0
    ensures e == 0 ==> n * e == 0
  {
  }

  lemma PowerZero(a: seq<string>)
    requires Canonical(a)
    ensures Powered(a, 0).Ok?
    ensures Regroup(Powered(a, 0).value) == Ok(Regrouped([], 0))
  {
    PoweredShape(a, 0);
    PowerDefined(a, 0);
    var p := Powered(a, 0).value;
    ScaledTokens(a, p, 0);
    RegroupCanonical(p);
    CanonicalUnique(Regroup(p).value.variables, []);
  }

  /**
   * Regrouping the tokens of a ** n: every exponent and the degree are
   * multiplied by n; n == 0 leaves no variables; a negative n fails with
   * ValueError("Not a monomial") unless there are no variables.
   */
  lemma PowerLaw(a: seq<string>, n: int)
    requires Canonical(a)
    ensures Powered(a, n).Ok?
    ensures Regroup(Powered(a, n).value).Ok? <==> n >= 0 || a == []
    ensures Regroup(Powered(a, n).value).Ok? ==> Canonical(Regroup(Powered(a, n).value).value.variables)
    ensures Regroup(Powered(a, n).value).Ok? ==>
      && (forall l :: Exponent(Regroup(Powered(a, n).value).value.variables, l) == n * Exponent(a, l))
      && Regroup(Powered(a, n).value).value.degree == n * Degree(a)
    ensures Regroup(Powered(a, n).value).Err? ==> Regroup(Powered(a, n).value).error == ValueError("Not a monomial")
    ensures n == 0 ==> Regroup(Powered(a, n).value) == Ok(Regrouped([], 0))
  {
    PoweredShape(a, n);
    PowerDefined(a, n);
    var p := Powered(a, n).value;
    ScaledTokens(a, p, n);
    RegroupFails(p);
    if Regroup(p).Ok? {
      RegroupCanonical(p);
    }
    if n == 0 {
      PowerZero(a);
    }
  }

  // ---------------------------------------------------------------------
  // One step of the loops that build these lists

  /** "".join(vs). */
  function Join(vs: seq<string>): (s: string)
    ensures vs == [] ==> s == ""
  {
    if vs == [] then "" else Join(vs[..|vs| - 1]) + vs[|vs| - 1]
  }

  /** Joining a concatenation is concatenating the joins: the key of a list is the keys of its parts, side by side. */
  lemma {:induction false} JoinConcat(a: seq<string>, b: seq<string>)
    ensures Join(a + b) == Join(a) + Join(b)
  {
    if b == [] {
      assert a + b == a;
    } else {
      var b' := b[..|b| - 1];
      assert (a + b)[..|a + b| - 1] == a + b';
      JoinConcat(a, b');
    }
  }

  /** One token joins to itself. */
  lemma JoinSingle(t: string)
    ensures Join([t]) == t
  {
    assert [t][..0] == [];
  }

  lemma CountStep(ps: seq<(string, int)>, p: (string, int))
    ensures Count(ps + [p]) == Add(Count(ps), p.0, p.1)
  {
    assert (ps + [p])[..|ps|] == ps;
  }

  lemma ParsedStep(ts: seq<string>, i: nat)
    requires i < |ts| && Parsed(ts[..i]).Ok? && ParseToken(ts[i]).Ok?
    ensures Parsed(ts[..i + 1]) == Ok(Parsed(ts[..i]).value + [ParseToken(ts[i]).value])
  {
    assert ts[..i + 1][..i] == ts[..i];
  }

  /** One step of the counting loop: the counter of one more token is the old counter with its pair added. */
  lemma CountingStep(ts: seq<string>, i: nat, order: seq<string>, counts: map<string, int>, letter: string, e: int)
    requires i < |ts| && Parsed(ts[..i]).Ok? && ParseToken(ts[i]) == Ok((letter, e))
    requires Counter(order, counts) == Count(Parsed(ts[..i]).value)
    ensures Parsed(ts[..i + 1]).Ok?
    ensures Count(Parsed(ts[..i + 1]).value) ==
      if letter in counts then Counter(order, counts[letter := counts[letter] + e])
      else Counter(order + [letter], counts[letter := e])
  {
    ParsedStep(ts, i);
    CountStep(Parsed(ts[..i]).value, (letter, e));
    AddOf(order, counts, letter, e);
  }

  lemma AddOf(order: seq<string>, counts: map<string, int>, letter: string, e: int)
    ensures Add(Counter(order, counts), letter, e) ==
      if letter in counts then Counter(order, counts[letter := counts[letter] + e])
      else Counter(order + [letter], counts[letter := e])
  {
  }

  /** One step of the rewriting loop: a zero total appends nothing, any other total its rendered token. */
  lemma RewritingStep(c: Counter, j: nat)
    requires WellFormed(c) && j < |c.order|
    ensures c.counts[c.order[j]] == 0 ==> Emit(c, j + 1) == Emit(c, j)
    ensures c.counts[c.order[j]] > 1 ==>
      Emit(c, j + 1) == Emit(c, j) + [c.order[j] + "^" + Decimal.IntToString(c.counts[c.order[j]])]
    ensures c.counts[c.order[j]] == 1 ==> Emit(c, j + 1) == Emit(c, j) + [c.order[j]]
  {
  }

  /** The first token int() rejects decides the exception of the whole list. */
  lemma {:induction false} ParsedStopsAt(ts: seq<string>, i: nat)
    requires i < |ts| && Parsed(ts[..i]).Ok? && ParseToken(ts[i]).Err?
    ensures Parsed(ts) == Err(ParseToken(ts[i]).error)
    decreases |ts|
  {
    var init := ts[..|ts| - 1];
    if i < |ts| - 1 {
      assert init[..i] == ts[..i] && init[i] == ts[i];
      ParsedStopsAt(init, i);
    } else {
      assert init == ts[..i];
    }
  }

  /** regroup_variables stops at the first int() failure, with the list untouched. */
  lemma RegroupOfParseError(ts: seq<string>, i: nat)
    requires i < |ts| && Parsed(ts[..i]).Ok? && ParseToken(ts[i]).Err?
    ensures Regroup(ts) == Err(ParseToken(ts[i]).error)
    ensures RegroupState(ts) == ts
  {
    ParsedStopsAt(ts, i);
  }

  /** A negative total: regroup_variables raises, leaving the tokens rendered before that letter. */
  lemma RegroupOfNegative(ts: seq<string>, c: Counter)
    requires Parsed(ts).Ok? && c == Count(Parsed(ts).value)
    requires FirstNegative(c, 0) < |c.order|
    ensures Regroup(ts) == Err(ValueError("Not a monomial"))
    ensures RegroupState(ts) == Emit(c, FirstNegative(c, 0))
  {
  }

  /** No negative total: regroup_variables leaves the sorted rendered tokens, a canonical list, and their degree. */
  lemma RegroupOfCounter(ts: seq<string>, c: Counter)
    requires Parsed(ts).Ok? && c == Count(Parsed(ts).value)
    requires FirstNegative(c, 0) == |c.order|
    ensures Regroup(ts) == Ok(Regrouped(StringOrder.Sort(Emit(c, |c.order|)), SumCounts(c, |c.order|)))
    ensures RegroupState(ts) == StringOrder.Sort(Emit(c, |c.order|))
    ensures Canonical(StringOrder.Sort(Emit(c, |c.order|)))
    ensures SumCounts(c, |c.order|) == Degree(StringOrder.Sort(Emit(c, |c.order|)))
  {
    RegroupCanonical(ts);
  }

  lemma ConvertedStep(f: string -> Result<string>, ts: seq<string>, i: nat)
    requires i < |ts| && Converted(f, ts[..i]).Ok? && f(ts[i]).Ok?
    ensures Converted(f, ts[..i + 1]) == Ok(Converted(f, ts[..i]).value + [f(ts[i]).value])
  {
    assert ts[..i + 1][..i] == ts[..i];
  }

  lemma {:induction false} ConvertedStopsAt(f: string -> Result<string>, ts: seq<string>, i: nat)
    requires i < |ts| && Converted(f, ts[..i]).Ok? && f(ts[i]).Err?
    ensures Converted(f, ts) == Err(f(ts[i]).error)
    decreases |ts|
  {
    var init := ts[..|ts| - 1];
    if i < |ts| - 1 {
      assert init[..i] == ts[..i] && init[i] == ts[i];
      ConvertedStopsAt(f, init, i);
    } else {
      assert init == ts[..i];
    }
  }

  lemma ReciprocalStep(ts: seq<string>, i: nat)
    requires i < |ts| && Reciprocal(ts[..i]).Ok? && DivisorToken(ts[i]).Ok?
    ensures Reciprocal(ts[..i + 1]) == Ok(Reciprocal(ts[..i]).value + [DivisorToken(ts[i]).value])
  {
    ConvertedStep(DivisorTokenFn(), ts, i);
  }

  lemma ReciprocalStopsAt(ts: seq<string>, i: nat)
    requires i < |ts| && Reciprocal(ts[..i]).Ok? && DivisorToken(ts[i]).Err?
    ensures Reciprocal(ts) == Err(DivisorToken(ts[i]).error)
  {
    ConvertedStopsAt(DivisorTokenFn(), ts, i);
  }

  lemma PoweredStep(ts: seq<string>, n: int, i: nat)
    requires i < |ts| && Powered(ts[..i], n).Ok? && PowerToken(ts[i], n).Ok?
    ensures Powered(ts[..i + 1], n) == Ok(Powered(ts[..i], n).value + [PowerToken(ts[i], n).value])
  {
    ConvertedStep(PowerTokenBy(n), ts, i);
  }

  lemma PoweredStopsAt(ts: seq<string>, n: int, i: nat)
    requires i < |ts| && Powered(ts[..i], n).Ok? && PowerToken(ts[i], n).Err?
    ensures Powered(ts, n) == Err(PowerToken(ts[i], n).error)
  {
    ConvertedStopsAt(PowerTokenBy(n), ts, i);
  }
}
