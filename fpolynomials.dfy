/**
 * FPolynomial, a tuple of polynomial factors, and factorize().
 *
 * The code is written against Polynomial and Monomial operations. Some of
 * them (Polynomial equality, len(), multiplication, str and term iteration,
 * Monomial.gcd) are not defined by the classes of this revision; others
 * (Monomial division, Polynomial of a Monomial) are, and are modelled in
 * Monomials and Polynomials. Here the factor type P and the term type M stay
 * abstract: what the code uses of them is gathered in Ops, and the laws a
 * property needs are stated as predicates over Ops. Equality of factors is
 * Dafny's equality on P.
 */
module FPolynomials {
  import opened Errors
  import opened Numbers
  import Decimal

  /** A Python value passed to FPolynomial(...) or to factorize(...). */
  datatype Factor<P, M> = Num(x: Number) | Mono(m: M) | Poly(p: P) | Other(typeName: string)

  /** The operations on polynomials and their terms the code calls. */
  datatype Ops<!P, !M> = Ops(
    numberToPoly: Number -> P,   // Polynomial(x) for an int or a float x
    monoToPoly: M -> P,          // Polynomial(m) for a Monomial m
    polyOf: seq<M> -> P,         // Polynomial(*terms)
    termsOf: P -> seq<M>,        // iterating over a Polynomial gives its terms
    size: P -> nat,              // len(p)
    polyIsOne: P -> bool,        // p == 1
    monoIsOne: M -> bool,        // m == 1
    show: P -> string,           // str(p)
    mul: (P, P) -> P,            // p * q
    gcd: (M, M) -> M,            // m.gcd(n)
    div: (M, M) -> M)            // m / n

  const NoPolynomial := TypeError("There must be at least a polynomial")
  const BadElement := TypeError("FPolynomial elements must be int, float, Polynomial or Monomial instance")
  const EmptyReduce := TypeError("reduce() of empty iterable with no initial value")

  // ---------------------------------------------------------------------
  // Construction: FPolynomial.__new__
  // ---------------------------------------------------------------------

  predicate HasPoly<P, M>(fs: seq<Factor<P, M>>) {
    exists i :: 0 <= i < |fs| && fs[i].Poly?
  }

  /** Every factor is an int, a float, a Monomial or a Polynomial. */
  predicate NoOther<P, M>(fs: seq<Factor<P, M>>) {
    forall i :: 0 <= i < |fs| ==> !fs[i].Other?
  }

  /** factor == 1 in Python: 1 == 1.0 holds, so int and float ones both count. */
  predicate IsOne<P, M>(ops: Ops<P, M>, f: Factor<P, M>) {
    match f
    case Num(x) => Value(x) == 1.0
    case Mono(m) => ops.monoIsOne(m)
    case Poly(p) => ops.polyIsOne(p)
    case Other(_) => false
  }

  /** The polynomial a kept factor is stored as. */
  function Convert<P, M>(ops: Ops<P, M>, f: Factor<P, M>): (p: P)
    requires !f.Other?
    ensures f.Poly? ==> p == f.p
  {
    match f
    case Num(x) => ops.numberToPoly(x)
    case Mono(m) => ops.monoToPoly(m)
    case Poly(q) => q
  }

  /** The factors that are not 1, converted to polynomials, in input order. */
  function Mapped<P, M>(ops: Ops<P, M>, fs: seq<Factor<P, M>>): (r: seq<P>)
    requires NoOther(fs)
    ensures |r| <= |fs|
  {
    if fs == [] then []
    else
      var n := |fs| - 1;
      var rest := Mapped(ops, fs[..n]);
      if IsOne(ops, fs[n]) then rest else rest + [Convert(ops, fs[n])]
  }

  /** list.count(x). */
  function Count<P(==)>(s: seq<P>, x: P): nat {
    multiset(s)[x]
  }

  /**
   * Inserts x into s after every element whose count in all is at least
   * the count of x.
   */
  function InsertByCount<P(==)>(all: seq<P>, x: P, s: seq<P>): (r: seq<P>)
    ensures multiset(r) == multiset(s) + multiset{x}
  {
    if s == [] then [x]
    else if Count(all, s[0]) >= Count(all, x) then
      assert s == [s[0]] + s[1..];
      [s[0]] + InsertByCount(all, x, s[1..])
    else [x] + s
  }

  /** A stable sort of xs by descending count in all, inserting front to back. */
  function SortByCount<P(==)>(all: seq<P>, xs: seq<P>): (r: seq<P>)
    ensures multiset(r) == multiset(xs)
  {
    if xs == [] then []
    else
      var n := |xs| - 1;
      assert xs == xs[..n] + [xs[n]];
      InsertByCount(all, xs[n], SortByCount(all, xs[..n]))
  }

  /** sorted(fs, key=fs.count, reverse=True). */
  function FrequencySort<P(==)>(fs: seq<P>): (r: seq<P>)
    ensures multiset(r) == multiset(fs)
  {
    SortByCount(fs, fs)
  }

  /** What FPolynomial(*fs) stores, or the TypeError it raises. */
  function Build<P(==), M>(ops: Ops<P, M>, fs: seq<Factor<P, M>>): (r: Result<seq<P>>)
    ensures r.Ok? ==> |r.value| <= |fs|
  {
    if !HasPoly(fs) then Err(NoPolynomial)
    else if !NoOther(fs) then Err(BadElement)
    else Ok(FrequencySort(Mapped(ops, fs)))
  }

  /** FPolynomial.__new__: check, map every factor to a Polynomial, sort. */
  method New<P(==), M>(ops: Ops<P, M>, factors: seq<Factor<P, M>>) returns (r: Result<seq<P>>)
    ensures r == Build(ops, factors)
  {
    if !HasPoly(factors) {
      return Err(NoPolynomial);
    }
    var mapped: seq<P> := [];
    var i := 0;
    while i < |factors|
      invariant 0 <= i <= |factors|
      invariant NoOther(factors[..i])
      invariant mapped == Mapped(ops, factors[..i])
    {
      var factor := factors[i];
      assert factors[..i + 1][..i] == factors[..i];
      assert factors[..i + 1][i] == factor;
      if factor.Other? {
        return Err(BadElement);
      } else if IsOne(ops, factor) {
      } else if factor.Poly? {
        mapped := mapped + [factor.p];
      } else if factor.Num? {
        mapped := mapped + [ops.numberToPoly(factor.x)];
      } else {
        mapped := mapped + [ops.monoToPoly(factor.m)];
      }
      i := i + 1;
    }
    assert factors[..i] == factors;
    r := Ok(FrequencySort(mapped));
  }

  /** Construction fails exactly when no factor is a Polynomial or some factor has another type. */
  lemma BuildErrors<P, M>(ops: Ops<P, M>, fs: seq<Factor<P, M>>)
    ensures Build(ops, fs) == Err(NoPolynomial) <==> !HasPoly(fs)
    ensures Build(ops, fs) == Err(BadElement) <==> HasPoly(fs) && !NoOther(fs)
    ensures Build(ops, fs).Ok? <==> HasPoly(fs) && NoOther(fs)
  {
  }

  /** A polynomial is stored exactly when some kept input factor becomes it. */
  lemma {:induction false} MappedMembers<P, M>(ops: Ops<P, M>, fs: seq<Factor<P, M>>, p: P)
    requires NoOther(fs)
    ensures p in Mapped(ops, fs) <==> exists i :: 0 <= i < |fs| && !IsOne(ops, fs[i]) && Convert(ops, fs[i]) == p
  {
    if fs != [] {
      var n := |fs| - 1;
      MappedMembers(ops, fs[..n], p);
      if exists i :: 0 <= i < |fs| && !IsOne(ops, fs[i]) && Convert(ops, fs[i]) == p {
        var i :| 0 <= i < |fs| && !IsOne(ops, fs[i]) && Convert(ops, fs[i]) == p;
        if i < n {
          assert fs[..n][i] == fs[i];
        }
      }
      if p in Mapped(ops, fs[..n]) {
        var i :| 0 <= i < n && !IsOne(ops, fs[..n][i]) && Convert(ops, fs[..n][i]) == p;
        assert fs[..n][i] == fs[i];
      }
    }
  }

  /** Mapping one factor keeps it, converted, exactly when it is not 1. */
  lemma MappedSingle<P, M>(ops: Ops<P, M>, f: Factor<P, M>)
    requires !f.Other?
    ensures Mapped(ops, [f]) == if IsOne(ops, f) then [] else [Convert(ops, f)]
  {
    assert [f][..0] == [];
  }

  /** Mapping works factor by factor: every occurrence is kept or dropped on its own, in input order. */
  lemma {:induction false} MappedAppend<P, M>(ops: Ops<P, M>, a: seq<Factor<P, M>>, b: seq<Factor<P, M>>)
    requires NoOther(a) && NoOther(b)
    ensures NoOther(a + b)
    ensures Mapped(ops, a + b) == Mapped(ops, a) + Mapped(ops, b)
  {
    assert forall i :: 0 <= i < |a + b| ==> (a + b)[i] == if i < |a| then a[i] else b[i - |a|];
    if b == [] {
      assert a + b == a;
    } else {
      var n := |b| - 1;
      assert (a + b)[..|a + b| - 1] == a + b[..n];
      MappedAppend(ops, a, b[..n]);
    }
  }

  /** How many of fs are equal to 1. */
  function Ones<P, M>(ops: Ops<P, M>, fs: seq<Factor<P, M>>): (k: nat)
    ensures k <= |fs|
  {
    if fs == [] then 0
    else (if IsOne(ops, fs[0]) then 1 else 0) + Ones(ops, fs[1..])
  }

  /** One polynomial is stored per factor that is not 1. */
  lemma {:induction false} MappedLength<P, M>(ops: Ops<P, M>, fs: seq<Factor<P, M>>)
    requires NoOther(fs)
    ensures |Mapped(ops, fs)| == |fs| - Ones(ops, fs)
  {
    if fs != [] {
      assert fs == [fs[0]] + fs[1..];
      MappedAppend(ops, [fs[0]], fs[1..]);
      MappedSingle(ops, fs[0]);
      MappedLength(ops, fs[1..]);
    }
  }

  /** len(FPolynomial(*fs)) is the number of factors that are not 1. */
  lemma BuildLength<P, M>(ops: Ops<P, M>, fs: seq<Factor<P, M>>)
    requires HasPoly(fs) && NoOther(fs)
    ensures Build(ops, fs).Ok?
    ensures |Build(ops, fs).value| == |fs| - Ones(ops, fs)
  {
    MappedLength(ops, fs);
    var m := Mapped(ops, fs);
    assert |FrequencySort(m)| == |multiset(FrequencySort(m))| == |multiset(m)| == |m|;
  }

  /** len(FPolynomial(5, p, 1)) == 2 for a polynomial p not equal to 1. */
  lemma BuildDropsOne<P, M>(ops: Ops<P, M>, p: P)
    requires !ops.polyIsOne(p)
    ensures Build(ops, [Num(Int(5)), Poly(p), Num(Int(1))]).Ok?
    ensures |Build(ops, [Num(Int(5)), Poly(p), Num(Int(1))]).value| == 2
  {
    var fs: seq<Factor<P, M>> := [Num(Int(5)), Poly(p), Num(Int(1))];
    assert fs[1].Poly?;
    BuildLength(ops, fs);
    assert Ones(ops, fs[2..]) == 1;
  }

  /** The conversions agree with the "equals 1" tests. */
  ghost predicate ConversionsKeepOne<P(!new), M(!new)>(ops: Ops<P, M>) {
    && (forall x :: ops.polyIsOne(ops.numberToPoly(x)) ==> Value(x) == 1.0)
    && (forall m :: ops.polyIsOne(ops.monoToPoly(m)) ==> ops.monoIsOne(m))
  }

  /** Factors equal to 1 are never stored. */
  lemma NoStoredOne<P(!new), M(!new)>(ops: Ops<P, M>, fs: seq<Factor<P, M>>, p: P)
    requires ConversionsKeepOne(ops)
    requires Build(ops, fs).Ok? && p in Build(ops, fs).value
    ensures !ops.polyIsOne(p)
  {
    var r := Build(ops, fs).value;
    assert p in multiset(r);
    MappedMembers(ops, fs, p);
    var i :| 0 <= i < |fs| && !IsOne(ops, fs[i]) && Convert(ops, fs[i]) == p;
  }

  /** Counts never increase along s. */
  predicate Descending<P(==)>(all: seq<P>, s: seq<P>) {
    forall i, j :: 0 <= i < j < |s| ==> Count(all, s[i]) >= Count(all, s[j])
  }

  /** The elements of s whose count in all is c, in their order in s. */
  function Band<P(==)>(all: seq<P>, s: seq<P>, c: nat): (r: seq<P>)
    ensures |r| <= |s|
  {
    if s == [] then []
    else (if Count(all, s[0]) == c then [s[0]] else []) + Band(all, s[1..], c)
  }

  lemma {:induction false} BandAppend<P>(all: seq<P>, a: seq<P>, b: seq<P>, c: nat)
    ensures Band(all, a + b, c) == Band(all, a, c) + Band(all, b, c)
  {
    if a != [] {
      assert (a + b)[1..] == a[1..] + b;
      BandAppend(all, a[1..], b, c);
    } else {
      assert a + b == b;
    }
  }

  lemma {:induction false} BandAbove<P>(all: seq<P>, s: seq<P>, c: nat)
    requires forall i :: 0 <= i < |s| ==> Count(all, s[i]) < c
    ensures Band(all, s, c) == []
  {
    if s != [] {
      BandAbove(all, s[1..], c);
    }
  }

  /** A head whose count bounds every count of a descending tail keeps the list descending. */
  lemma ConsDescending<P>(all: seq<P>, a: P, t: seq<P>)
    requires Descending(all, t)
    requires forall j :: 0 <= j < |t| ==> Count(all, a) >= Count(all, t[j])
    ensures Descending(all, [a] + t)
  {
    var r := [a] + t;
    forall i, j | 0 <= i < j < |r|
      ensures Count(all, r[i]) >= Count(all, r[j])
    {
      assert r[j] == t[j - 1];
      if i > 0 {
        assert r[i] == t[i - 1];
      }
    }
  }

  lemma {:induction false} InsertDescending<P>(all: seq<P>, x: P, s: seq<P>)
    requires Descending(all, s)
    ensures Descending(all, InsertByCount(all, x, s))
  {
    if s == [] {
    } else if Count(all, s[0]) >= Count(all, x) {
      InsertDescending(all, x, s[1..]);
      var t := InsertByCount(all, x, s[1..]);
      forall j | 0 <= j < |t|
        ensures Count(all, s[0]) >= Count(all, t[j])
      {
        assert t[j] in multiset(t);
        assert t[j] in multiset(s[1..]) + multiset{x};
        if t[j] != x {
          var k :| 0 <= k < |s[1..]| && s[1..][k] == t[j];
          assert s[1..][k] == s[k + 1];
        }
      }
      ConsDescending(all, s[0], t);
      assert InsertByCount(all, x, s) == [s[0]] + t;
    } else {
      forall j | 0 <= j < |s|
        ensures Count(all, x) >= Count(all, s[j])
      {
        if j > 0 {
          assert Count(all, s[0]) >= Count(all, s[j]);
        }
      }
      ConsDescending(all, x, s);
    }
  }

  lemma {:induction false} InsertBand<P>(all: seq<P>, x: P, s: seq<P>, c: nat)
    requires Descending(all, s)
    ensures Band(all, InsertByCount(all, x, s), c)
         == Band(all, s, c) + (if Count(all, x) == c then [x] else [])
  {
    var r := InsertByCount(all, x, s);
    if s == [] {
    } else if Count(all, s[0]) >= Count(all, x) {
      InsertBand(all, x, s[1..], c);
      assert r[1..] == InsertByCount(all, x, s[1..]);
    } else {
      assert r[1..] == s;
      if Count(all, x) == c {
        BandAbove(all, s, c);
      }
    }
  }

  lemma {:induction false} SortDescending<P>(all: seq<P>, xs: seq<P>)
    ensures Descending(all, SortByCount(all, xs))
  {
    if xs != [] {
      var n := |xs| - 1;
      SortDescending(all, xs[..n]);
      InsertDescending(all, xs[n], SortByCount(all, xs[..n]));
    }
  }

  lemma BandSingle<P>(all: seq<P>, x: P, c: nat)
    ensures Band(all, [x], c) == if Count(all, x) == c then [x] else []
  {
    assert [x][1..] == [];
  }

  lemma SortByCountStep<P>(all: seq<P>, xs: seq<P>)
    requires xs != []
    ensures SortByCount(all, xs) == InsertByCount(all, xs[|xs| - 1], SortByCount(all, xs[..|xs| - 1]))
  {
  }

  lemma {:induction false} SortBand<P>(all: seq<P>, xs: seq<P>, c: nat)
    ensures Band(all, SortByCount(all, xs), c) == Band(all, xs, c)
  {
    if xs != [] {
      var n := |xs| - 1;
      var init, x := xs[..n], xs[n];
      var sorted := SortByCount(all, init);
      calc {
        Band(all, SortByCount(all, xs), c);
        { SortByCountStep(all, xs); }
        Band(all, InsertByCount(all, x, sorted), c);
        { SortDescending(all, init); InsertBand(all, x, sorted, c); }
        Band(all, sorted, c) + (if Count(all, x) == c then [x] else []);
        { SortBand(all, init, c); BandSingle(all, x, c); }
        Band(all, init, c) + Band(all, [x], c);
        { BandAppend(all, init, [x], c); }
        Band(all, init + [x], c);
        { assert init + [x] == xs; }
        Band(all, xs, c);
      }
    }
  }

  /**
   * The stored order: a permutation of the kept factors, by non-increasing
   * frequency, where factors of equal frequency keep their input order.
   */
  lemma FrequencySortOrder<P>(fs: seq<P>)
    ensures multiset(FrequencySort(fs)) == multiset(fs)
    ensures Descending(fs, FrequencySort(fs))
    ensures forall c: nat :: Band(fs, FrequencySort(fs), c) == Band(fs, fs, c)
  {
    SortDescending(fs, fs);
    forall c: nat ensures Band(fs, FrequencySort(fs), c) == Band(fs, fs, c) {
      SortBand(fs, fs, c);
    }
  }

  // ---------------------------------------------------------------------
  // FPolynomial.__str__
  // ---------------------------------------------------------------------

  /** How one distinct factor is written. */
  datatype Piece<P> = Power(f: P, n: nat) | Bare(f: P) | Paren(f: P)

  function PieceText<P, M>(ops: Ops<P, M>, p: Piece<P>): string {
    match p
    case Power(f, n) => "(" + ops.show(f) + ")**" + Decimal.IntToString(n)
    case Bare(f) => ops.show(f)
    case Paren(f) => "(" + ops.show(f) + ")"
  }

  function Text<P, M>(ops: Ops<P, M>, ps: seq<Piece<P>>): string {
    if ps == [] then "" else Text(ops, ps[..|ps| - 1]) + PieceText(ops, ps[|ps| - 1])
  }

  function Factors<P>(ps: seq<Piece<P>>): (r: seq<P>)
    ensures |r| == |ps|
    ensures forall i :: 0 <= i < |ps| ==> r[i] == ps[i].f
  {
    seq(|ps|, i requires 0 <= i < |ps| => ps[i].f)
  }

  /** The piece for a factor counted n times; first says nothing has been written yet. */
  function PieceFor<P, M>(ops: Ops<P, M>, f: P, n: nat, first: bool): (p: Piece<P>)
    ensures p.f == f
  {
    if n > 1 then Power(f, n)
    else if ops.size(f) == 1 && first then Bare(f)
    else Paren(f)
  }

  /** The pieces written while the loop of __str__ visits fs[..n]. */
  function PiecesUpTo<P(==), M>(ops: Ops<P, M>, fs: seq<P>, n: nat): (ps: seq<Piece<P>>)
    requires n <= |fs|
    ensures |ps| <= n
  {
    if n == 0 then []
    else
      var ps := PiecesUpTo(ops, fs, n - 1);
      if fs[n - 1] in fs[..n - 1] then ps
      else ps + [PieceFor(ops, fs[n - 1], Count(fs, fs[n - 1]), ps == [])]
  }

  function Pieces<P(==), M>(ops: Ops<P, M>, fs: seq<P>): seq<Piece<P>> {
    PiecesUpTo(ops, fs, |fs|)
  }

  /** str() of an FPolynomial holding fs. */
  function Render<P(==), M>(ops: Ops<P, M>, fs: seq<P>): string {
    if |fs| == 1 then ops.show(fs[0]) else Text(ops, Pieces(ops, fs))
  }

  /** The factors written so far are those met so far. */
  lemma {:induction false} PiecesFactors<P, M>(ops: Ops<P, M>, fs: seq<P>, n: nat)
    requires n <= |fs|
    ensures forall x :: x in Factors(PiecesUpTo(ops, fs, n)) <==> x in fs[..n]
  {
    if n > 0 {
      PiecesFactors(ops, fs, n - 1);
      assert fs[..n] == fs[..n - 1] + [fs[n - 1]];
      var ps := PiecesUpTo(ops, fs, n - 1);
      if fs[n - 1] !in fs[..n - 1] {
        var p := PieceFor(ops, fs[n - 1], Count(fs, fs[n - 1]), ps == []);
        assert Factors(ps + [p]) == Factors(ps) + [fs[n - 1]];
      }
    }
  }

  /** One turn of the loop of __str__, on the pieces it writes. */
  lemma StrStep<P, M>(ops: Ops<P, M>, fs: seq<P>, i: nat)
    requires i < |fs|
    ensures var ps := PiecesUpTo(ops, fs, i);
      && (fs[i] in Factors(ps) <==> fs[i] in fs[..i])
      && (fs[i] in fs[..i] ==> PiecesUpTo(ops, fs, i + 1) == ps)
      && (fs[i] !in fs[..i] ==>
            var p := PieceFor(ops, fs[i], Count(fs, fs[i]), |Factors(ps)| == 0);
            && PiecesUpTo(ops, fs, i + 1) == ps + [p]
            && Factors(ps + [p]) == Factors(ps) + [fs[i]]
            && Text(ops, ps + [p]) == Text(ops, ps) + PieceText(ops, p))
  {
    PiecesFactors(ops, fs, i);
    assert fs[..i + 1][..i] == fs[..i];
    var ps := PiecesUpTo(ops, fs, i);
    if fs[i] !in fs[..i] {
      var p := PieceFor(ops, fs[i], Count(fs, fs[i]), ps == []);
      assert PiecesUpTo(ops, fs, i + 1) == ps + [p];
      assert (ps + [p])[..|ps|] == ps;
      assert Factors(ps + [p]) == Factors(ps) + [fs[i]];
    }
  }

  /** The text __str__ appends for a factor counted n times; first says nothing has been written yet. */
  method WritePiece<P, M>(ops: Ops<P, M>, factor: P, exponent: nat, first: bool) returns (t: string)
    ensures t == PieceText(ops, PieceFor(ops, factor, exponent, first))
  {
    if exponent > 1 {
      t := "(" + ops.show(factor) + ")**" + Decimal.IntToString(exponent);
    } else if ops.size(factor) == 1 && first {
      t := ops.show(factor);
    } else {
      t := "(" + ops.show(factor) + ")";
    }
  }

  /** One turn of the loop of __str__: a factor already written is skipped, otherwise its piece is appended and it is recorded as done. */
  method StrTurn<P(==), M>(ops: Ops<P, M>, fs: seq<P>, i: nat, done: seq<P>, factors: string, ghost ps: seq<Piece<P>>)
    returns (done': seq<P>, factors': string, ghost ps': seq<Piece<P>>)
    requires i < |fs| && ps == PiecesUpTo(ops, fs, i)
    requires done == Factors(ps) && factors == Text(ops, ps)
    ensures ps' == PiecesUpTo(ops, fs, i + 1)
    ensures done' == Factors(ps') && factors' == Text(ops, ps')
  {
    var factor := fs[i];
    StrStep(ops, fs, i);
    if factor in done {
      return done, factors, ps;
    }
    var piece := WritePiece(ops, factor, Count(fs, factor), |done| == 0);
    ps' := ps + [PieceFor(ops, factor, Count(fs, factor), |Factors(ps)| == 0)];
    factors' := factors + piece;
    done' := done + [factor];
  }

  /** FPolynomial.__str__. */
  method Str<P(==), M>(ops: Ops<P, M>, fs: seq<P>) returns (s: string)
    ensures s == Render(ops, fs)
  {
    if |fs| == 1 {
      return ops.show(fs[0]);
    }
    var factors := "";
    var done: seq<P> := [];
    ghost var ps: seq<Piece<P>> := [];
    for i := 0 to |fs|
      invariant ps == PiecesUpTo(ops, fs, i)
      invariant done == Factors(ps) && factors == Text(ops, ps)
    {
      done, factors, ps := StrTurn(ops, fs, i, done, factors, ps);
    }
    return factors;
  }

  /** A one-factor FPolynomial is written as its factor, without parentheses. */
  lemma RenderOne<P, M>(ops: Ops<P, M>, f: P)
    ensures Render(ops, [f]) == ops.show(f)
  {
  }

  /** Every distinct factor is written once, and only the factors are written. */
  lemma PiecesCover<P, M>(ops: Ops<P, M>, fs: seq<P>)
    ensures forall x :: x in Factors(Pieces(ops, fs)) <==> x in fs
  {
    PiecesFactors(ops, fs, |fs|);
    assert fs[..|fs|] == fs;
  }

  lemma {:induction false} PiecesDistinctUpTo<P, M>(ops: Ops<P, M>, fs: seq<P>, n: nat)
    requires n <= |fs|
    ensures forall i, j :: 0 <= i < j < |PiecesUpTo(ops, fs, n)| ==>
      PiecesUpTo(ops, fs, n)[i].f != PiecesUpTo(ops, fs, n)[j].f
  {
    if n > 0 {
      PiecesDistinctUpTo(ops, fs, n - 1);
      PiecesFactors(ops, fs, n - 1);
    }
  }

  lemma PiecesDistinct<P, M>(ops: Ops<P, M>, fs: seq<P>)
    ensures forall i, j :: 0 <= i < j < |Pieces(ops, fs)| ==> Pieces(ops, fs)[i].f != Pieces(ops, fs)[j].f
  {
    PiecesDistinctUpTo(ops, fs, |fs|);
  }

  /** The index of the first occurrence of x. */
  function FirstPos<P(==)>(s: seq<P>, x: P): (i: nat)
    requires x in s
    ensures i < |s| && s[i] == x && x !in s[..i]
  {
    if s[0] == x then 0
    else
      assert x in s[1..] by { var k :| 0 <= k < |s| && s[k] == x; assert s[1..][k - 1] == x; }
      var k := FirstPos(s[1..], x);
      assert s[..k + 1] == [s[0]] + s[1..][..k];
      k + 1
  }

  lemma FirstPosPrefix<P>(s: seq<P>, n: nat, x: P)
    requires n <= |s| && x in s[..n]
    ensures FirstPos(s, x) == FirstPos(s[..n], x)
  {
    var i := FirstPos(s, x);
    var k := FirstPos(s[..n], x);
    assert s[..n][..k] == s[..k];
  }

  lemma {:induction false} PiecesOrderUpTo<P, M>(ops: Ops<P, M>, fs: seq<P>, n: nat)
    requires n <= |fs|
    ensures forall i :: 0 <= i < |PiecesUpTo(ops, fs, n)| ==>
      PiecesUpTo(ops, fs, n)[i].f in fs[..n] && FirstPos(fs, PiecesUpTo(ops, fs, n)[i].f) < n
    ensures forall i, j :: 0 <= i < j < |PiecesUpTo(ops, fs, n)| ==>
      FirstPos(fs, PiecesUpTo(ops, fs, n)[i].f) < FirstPos(fs, PiecesUpTo(ops, fs, n)[j].f)
  {
    if n > 0 {
      PiecesOrderUpTo(ops, fs, n - 1);
      var ps := PiecesUpTo(ops, fs, n - 1);
      forall i | 0 <= i < |ps| ensures ps[i].f in fs[..n] && FirstPos(fs, ps[i].f) < n - 1 {
        assert fs[..n - 1] == fs[..n][..n - 1];
      }
      var f := fs[n - 1];
      if f !in fs[..n - 1] {
        assert fs[..n][n - 1] == f;
      }
    }
  }

  /** The factors are written in the order of their first occurrence. */
  lemma PiecesOrder<P, M>(ops: Ops<P, M>, fs: seq<P>)
    ensures forall i :: 0 <= i < |Pieces(ops, fs)| ==> Pieces(ops, fs)[i].f in fs
    ensures forall i, j :: 0 <= i < j < |Pieces(ops, fs)| ==>
      FirstPos(fs, Pieces(ops, fs)[i].f) < FirstPos(fs, Pieces(ops, fs)[j].f)
  {
    PiecesOrderUpTo(ops, fs, |fs|);
    assert fs[..|fs|] == fs;
  }

  lemma {:induction false} PiecesShapeUpTo<P, M>(ops: Ops<P, M>, fs: seq<P>, n: nat)
    requires n <= |fs|
    ensures forall i :: 0 <= i < |PiecesUpTo(ops, fs, n)| ==>
      var p := PiecesUpTo(ops, fs, n)[i];
      && (p.Power? <==> Count(fs, p.f) > 1)
      && (p.Power? ==> p.n == Count(fs, p.f))
      && (p.Bare? <==> i == 0 && Count(fs, p.f) <= 1 && ops.size(p.f) == 1)
  {
    if n > 0 {
      PiecesShapeUpTo(ops, fs, n - 1);
    }
  }

  /**
   * A factor counted n > 1 times is written (f)**n; one counted once is
   * written bare only when it has one term and comes first, and in
   * parentheses otherwise.
   */
  lemma PiecesShape<P, M>(ops: Ops<P, M>, fs: seq<P>)
    ensures forall i :: 0 <= i < |Pieces(ops, fs)| ==>
      var p := Pieces(ops, fs)[i];
      && (p.Power? <==> Count(fs, p.f) > 1)
      && (p.Power? ==> p.n == Count(fs, p.f))
      && (p.Bare? <==> i == 0 && Count(fs, p.f) == 1 && ops.size(p.f) == 1)
  {
    PiecesShapeUpTo(ops, fs, |fs|);
    PiecesOrder(ops, fs);
  }

  // ---------------------------------------------------------------------
  // FPolynomial.eval
  // ---------------------------------------------------------------------

  /** reduce(lambda x, y: x * y, fs) on a non-empty fs. */
  function Product<P, M>(ops: Ops<P, M>, fs: seq<P>): P
    requires fs != []
  {
    if |fs| == 1 then fs[0] else ops.mul(Product(ops, fs[..|fs| - 1]), fs[|fs| - 1])
  }

  /** FPolynomial.eval: the product of the stored factors. */
  function Eval<P, M>(ops: Ops<P, M>, fs: seq<P>): (r: Result<P>)
    ensures r.Ok? <==> fs != []
    ensures r.Err? ==> r.error == EmptyReduce
  {
    if fs == [] then Err(EmptyReduce) else Ok(Product(ops, fs))
  }

  ghost predicate Associative<P(!new), M>(ops: Ops<P, M>) {
    forall a, b, c :: ops.mul(ops.mul(a, b), c) == ops.mul(a, ops.mul(b, c))
  }

  /** With an associative product, eval of a concatenation is the product of the two evals. */
  lemma {:induction false} ProductAppend<P(!new), M>(ops: Ops<P, M>, a: seq<P>, b: seq<P>)
    requires Associative(ops) && a != [] && b != []
    ensures Product(ops, a + b) == ops.mul(Product(ops, a), Product(ops, b))
    decreases |b|
  {
    var n := |b| - 1;
    if n > 0 {
      assert (a + b)[..|a + b| - 1] == a + b[..n];
      ProductAppend(ops, a, b[..n]);
    } else {
      assert (a + b)[..|a + b| - 1] == a;
    }
  }

  // ---------------------------------------------------------------------
  // factorize() and its inner gcf()
  // ---------------------------------------------------------------------

  /** reduce(lambda x, y: x.gcd(y), ts). */
  function GcdOf<P, M>(ops: Ops<P, M>, ts: seq<M>): M
    requires ts != []
  {
    if |ts| == 1 then ts[0] else ops.gcd(GcdOf(ops, ts[..|ts| - 1]), ts[|ts| - 1])
  }

  /** [t / g for t in ts]. */
  function Quotients<P, M>(ops: Ops<P, M>, ts: seq<M>, g: M): (qs: seq<M>)
    ensures |qs| == |ts| && forall i :: 0 <= i < |ts| ==> qs[i] == ops.div(ts[i], g)
  {
    seq(|ts|, i requires 0 <= i < |ts| => ops.div(ts[i], g))
  }

  /** gcf(p, fp): takes the greatest common factor of the terms of p out of p. */
  function Gcf<P, M>(ops: Ops<P, M>, p: P, fp: seq<M>): (r: Result<(P, seq<M>)>)
    ensures r.Err? <==> ops.termsOf(p) == []
    ensures r.Err? ==> r.error == EmptyReduce
    ensures r.Ok? && ops.monoIsOne(GcdOf(ops, ops.termsOf(p))) ==> r.value == (p, fp)
    ensures r.Ok? && !ops.monoIsOne(GcdOf(ops, ops.termsOf(p))) ==>
      var g := GcdOf(ops, ops.termsOf(p));
      r.value == (ops.polyOf(Quotients(ops, ops.termsOf(p), g)), fp + [g])
  {
    var ts := ops.termsOf(p);
    if ts == [] then Err(EmptyReduce)
    else
      var g := GcdOf(ops, ts);
      if ops.monoIsOne(g) then Ok((p, fp))
      else Ok((ops.polyOf(Quotients(ops, ts, g)), fp + [g]))
  }

  /** type(x).__name__ of a value that is not a Polynomial. */
  function TypeName<P, M>(f: Factor<P, M>): string {
    match f
    case Num(x) => if x.Int? then "int" else "float"
    case Mono(_) => "Monomial"
    case Poly(_) => "Polynomial"
    case Other(name) => name
  }

  function AsFactors<P, M>(ms: seq<M>): (fs: seq<Factor<P, M>>)
    ensures |fs| == |ms| && forall i :: 0 <= i < |ms| ==> fs[i] == Mono(ms[i])
  {
    seq(|ms|, i requires 0 <= i < |ms| => Mono(ms[i]))
  }

  /** The arguments factorize(p) passes to FPolynomial: the factors gcf found, then the polynomial left. */
  function GcfFactors<P, M>(ops: Ops<P, M>, p: P): (r: Result<seq<Factor<P, M>>>)
    ensures r.Ok? ==> r.value != [] && r.value[|r.value| - 1].Poly?
  {
    var (q, factors) :- Gcf(ops, p, []);
    Ok(AsFactors(factors) + [Poly(q)])
  }

  /** factorize(x): FPolynomial(*factors, polynomial) after one gcf step. */
  function Factorize<P(==), M>(ops: Ops<P, M>, x: Factor<P, M>): (r: Result<seq<P>>)
    ensures !x.Poly? ==> r == Err(TypeError("Can't factorize object of type '" + TypeName(x) + "'"))
  {
    match x
    case Poly(p) =>
      var fs :- GcfFactors(ops, p);
      Build(ops, fs)
    case _ => Err(TypeError("Can't factorize object of type '" + TypeName(x) + "'"))
  }

  /**
   * The laws factorize relies on: multiplying by something equal to 1
   * changes nothing, and a polynomial is the product of the gcd of its terms
   * and the polynomial of the quotients.
   */
  ghost predicate FactorLaws<P(!new), M(!new)>(ops: Ops<P, M>) {
    && ConversionsKeepOne(ops)
    && (forall a, q :: ops.polyIsOne(q) ==> ops.mul(a, q) == a)
    && (forall p :: ops.termsOf(p) != [] ==>
          var g := GcdOf(ops, ops.termsOf(p));
          ops.mul(ops.monoToPoly(g), ops.polyOf(Quotients(ops, ops.termsOf(p), g))) == p)
  }

  lemma SortOne<P>(a: P)
    ensures FrequencySort([a]) == [a]
  {
    assert [a][..0] == [];
  }

  lemma SortPair<P>(a: P, b: P)
    ensures FrequencySort([a, b]) == [a, b]
  {
    assert Count([a, b], a) == Count([a, b], b);
    assert [a, b][..1] == [a];
    SortOne(a);
  }

  /** FPolynomial(p) for a single polynomial p that is not 1 stores just p. */
  lemma BuildSingle<P, M>(ops: Ops<P, M>, p: P)
    requires !ops.polyIsOne(p)
    ensures Build(ops, [Poly(p)]) == Ok([p])
  {
    var fs: seq<Factor<P, M>> := [Poly(p)];
    assert fs[0].Poly?;
    assert fs[..0] == [];
    SortOne(p);
  }

  lemma MappedPair<P, M>(ops: Ops<P, M>, g: M, q: P)
    requires !ops.monoIsOne(g)
    ensures NoOther([Mono(g), Poly(q)])
    ensures Mapped(ops, [Mono(g), Poly(q)])
         == [ops.monoToPoly(g)] + if ops.polyIsOne(q) then [] else [q]
  {
    var fs: seq<Factor<P, M>> := [Mono(g), Poly(q)];
    assert fs[..1] == [Mono(g)] && fs[..1][..0] == [];
  }

  /** FPolynomial(g, q) for a Monomial g that is not 1 and a polynomial q. */
  lemma BuildPair<P(!new), M(!new)>(ops: Ops<P, M>, g: M, q: P)
    requires ConversionsKeepOne(ops) && !ops.monoIsOne(g)
    ensures var a := ops.monoToPoly(g);
      Build(ops, [Mono(g), Poly(q)]) == Ok(if ops.polyIsOne(q) then [a] else [a, q])
  {
    var fs: seq<Factor<P, M>> := [Mono(g), Poly(q)];
    var a := ops.monoToPoly(g);
    assert fs[1].Poly?;
    MappedPair(ops, g, q);
    if ops.polyIsOne(q) {
      SortOne(a);
      assert Mapped(ops, fs) == [a];
    } else {
      SortPair(a, q);
      assert Mapped(ops, fs) == [a, q];
    }
  }

  /** What gcf hands on: p itself when the gcd of its terms is 1, otherwise the gcd and the quotient. */
  lemma GcfCases<P, M>(ops: Ops<P, M>, p: P)
    requires ops.termsOf(p) != []
    ensures var g := GcdOf(ops, ops.termsOf(p));
      GcfFactors(ops, p) == Ok(if ops.monoIsOne(g) then [Poly(p)]
                               else [Mono(g), Poly(ops.polyOf(Quotients(ops, ops.termsOf(p), g)))])
  {
    var g := GcdOf(ops, ops.termsOf(p));
    if ops.monoIsOne(g) {
      assert AsFactors<P, M>([]) + [Poly(p)] == [Poly(p)];
    } else {
      var q := ops.polyOf(Quotients(ops, ops.termsOf(p), g));
      var none: seq<M> := [];
      assert none + [g] == [g];
      assert AsFactors<P, M>([g]) + [Poly(q)] == [Mono(g), Poly(q)];
    }
  }

  lemma EvalPair<P, M>(ops: Ops<P, M>, a: P, b: P)
    ensures Eval(ops, [a, b]) == Ok(ops.mul(a, b))
  {
    assert [a, b][..1] == [a];
    assert Product(ops, [a]) == a;
    assert Product(ops, [a, b]) == ops.mul(Product(ops, [a]), b);
  }

  /**
   * eval(factorize(p)) == p for a polynomial that has terms and is not 1
   * (factorize of 1 stores no factor, and eval of that raises).
   */
  lemma FactorizeEval<P(!new), M(!new)>(ops: Ops<P, M>, p: P)
    requires FactorLaws(ops)
    requires ops.termsOf(p) != [] && !ops.polyIsOne(p)
    ensures Factorize(ops, Poly(p)).Ok?
    ensures Eval(ops, Factorize(ops, Poly(p)).value) == Ok(p)
  {
    var ts := ops.termsOf(p);
    var g := GcdOf(ops, ts);
    GcfCases(ops, p);
    if ops.monoIsOne(g) {
      BuildSingle(ops, p);
      assert Factorize(ops, Poly(p)) == Build(ops, [Poly(p)]);
    } else {
      var q := ops.polyOf(Quotients(ops, ts, g));
      var a := ops.monoToPoly(g);
      BuildPair(ops, g, q);
      assert Factorize(ops, Poly(p)) == Build(ops, [Mono(g), Poly(q)]);
      assert ops.mul(a, q) == p;
      if ops.polyIsOne(q) {
        assert ops.mul(a, q) == a;
      } else {
        EvalPair(ops, a, q);
      }
    }
  }
}
