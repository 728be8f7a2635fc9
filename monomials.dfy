/**
 * The Monomial class of src/ruffini/monomials.py: a coefficient, a list of
 * variable tokens that the constructor regroups in place, and the degree.
 * regroup_variables is written out as its two loops and proved to leave
 * exactly what Tokens.RegroupState and Tokens.Regroup describe; the operators
 * build token lists with loops proved against Tokens.Reciprocal and
 * Tokens.Powered and then construct a new Monomial.
 */
module Monomials {
  import opened Errors
  import opened Numbers
  import Decimal
  import StringOrder
  import Tokens

  /** The right operand of * and /: a number, or another Monomial. */
  datatype Operand = Scalar(x: Number) | Term(m: Monomial)

  class Monomial {
    var coefficient: Number
    var variables: seq<string>
    var degree: int

    /** What every Monomial that __init__ returned satisfies: a regrouped list and its degree. */
    ghost predicate Valid()
      reads this
    {
      Tokens.Canonical(variables) && degree == Tokens.Degree(variables)
    }

    /** The object as __init__ fills it before it regroups the list; degree is not set yet and reads 0. */
    constructor Raw(c: Number, vs: seq<string>)
      ensures coefficient == c && variables == vs && degree == 0
    {
      coefficient := c;
      variables := vs;
      degree := 0;
    }

    /**
     * regroup_variables: count each letter's exponent in first-occurrence
     * order, then clear the list and append the rendered non-zero totals,
     * stop with ValueError("Not a monomial") at a negative total, sort the
     * list and store the sum of the totals as the degree.
     */
    method RegroupVariables() returns (err: Option<Error>)
      modifies this
      ensures coefficient == old(coefficient)
      ensures variables == Tokens.RegroupState(old(variables))
      ensures Tokens.Regroup(old(variables)).Ok? ==>
        && err.None?
        && variables == Tokens.Regroup(old(variables)).value.variables
        && degree == Tokens.Regroup(old(variables)).value.degree
        && Valid()
      ensures Tokens.Regroup(old(variables)).Err? ==>
        err == Some(Tokens.Regroup(old(variables)).error) && degree == old(degree)
    {
      var tokens := variables;
      var order, counts, failure := CountTokens(tokens);
      if failure.Some? {
        return failure;
      }
      ghost var c := Tokens.Counter(order, counts);
      var rewritten, negative := RewriteTotals(order, counts);
      if negative {
        Tokens.RegroupOfNegative(tokens, c);
        variables := rewritten;
        return Some(ValueError("Not a monomial"));
      }
      Tokens.RegroupOfCounter(tokens, c);
      variables := StringOrder.Sort(rewritten);
      degree := Tokens.SumCounts(Tokens.Counter(order, counts), |order|);
      err := None;
    }

    /**
     * The rewriting loop of regroup_variables: a zero total is skipped, a
     * total of 1 gives the bare letter, a larger one `letter^total`; the
     * loop stops at the first negative total.
     */
    static method RewriteTotals(order: seq<string>, counts: map<string, int>) returns (rewritten: seq<string>, negative: bool)
      requires Tokens.WellFormed(Tokens.Counter(order, counts))
      ensures negative <==> Tokens.FirstNegative(Tokens.Counter(order, counts), 0) < |order|
      ensures rewritten == Tokens.Emit(Tokens.Counter(order, counts), Tokens.FirstNegative(Tokens.Counter(order, counts), 0))
    {
      ghost var c := Tokens.Counter(order, counts);
      rewritten := [];
      var j := 0;
      while j < |order|
        invariant 0 <= j <= |order|
        invariant forall k :: 0 <= k < j ==> counts[order[k]] >= 0
        invariant rewritten == Tokens.Emit(c, j)
      {
        Tokens.RewritingStep(c, j);
        var v := order[j];
        var total := counts[v];
        if total < 0 {
          assert Tokens.FirstNegative(c, 0) == j;
          return rewritten, true;
        } else if total > 0 {
          if total > 1 {
            v := v + "^" + Decimal.IntToString(total);
          }
          rewritten := rewritten + [v];
        }
        j := j + 1;
      }
      assert Tokens.FirstNegative(c, 0) == |order|;
      negative := false;
    }

    /**
     * The counting loop of regroup_variables: each token's letter and
     * exponent (1 without a caret, else int() of the text after it with
     * the parentheses removed) added to a counter kept in insertion order;
     * the exception of the first token int() rejects.
     */
    static method CountTokens(tokens: seq<string>) returns (order: seq<string>, counts: map<string, int>, err: Option<Error>)
      ensures err.None? ==>
        Tokens.Parsed(tokens).Ok? && Tokens.Counter(order, counts) == Tokens.Count(Tokens.Parsed(tokens).value)
      ensures err.Some? ==>
        && Tokens.Regroup(tokens) == Err(err.value)
        && Tokens.RegroupState(tokens) == tokens
    {
      order := [];
      counts := map[];
      var i := 0;
      while i < |tokens|
        invariant 0 <= i <= |tokens|
        invariant Tokens.Parsed(tokens[..i]).Ok?
        invariant Tokens.Counter(order, counts) == Tokens.Count(Tokens.Parsed(tokens[..i]).value)
      {
        var tok := tokens[i];
        var letter := Tokens.Head(tok);
        var exponent: int;
        if '^' in tok {
          var text := Tokens.Field(tok);
          if '(' in text {
            text := Tokens.Remove(text, '(');
            text := Tokens.Remove(text, ')');
          }
          var parsed := Decimal.ParseInt(text);
          if parsed.Err? {
            Tokens.RegroupOfParseError(tokens, i);
            return order, counts, Some(parsed.error);
          }
          exponent := parsed.value;
        } else {
          exponent := 1;
        }
        assert Tokens.ParseToken(tok) == Ok((letter, exponent));
        Tokens.CountingStep(tokens, i, order, counts, letter, exponent);
        if letter in counts {
          counts := counts[letter := counts[letter] + exponent];
        } else {
          order := order + [letter];
          counts := counts[letter := exponent];
        }
        i := i + 1;
      }
      assert tokens[..i] == tokens;
      err := None;
    }

    /** Monomial(c, vs): the new object when regrouping succeeds, its exception otherwise. */
    static method New(c: Number, vs: seq<string>) returns (r: Result<Monomial>)
      ensures r.Ok? ==> fresh(r.value) && r.value.Valid()
      ensures Makes(r, c, vs)
    {
      var m := new Monomial.Raw(c, vs);
      var err := m.RegroupVariables();
      if err.Some? {
        r := Err(err.value);
      } else {
        r := Ok(m);
      }
    }

    /** "".join(self.variables). */
    function VariablesStr(): string
      reads this
    {
      Tokens.Join(variables)
    }

    /** str(self): "1" for coefficient 1 and no variables, "0" for coefficient 0, the coefficient written before the variables otherwise. */
    function Str(showFloat: real -> string): (s: string)
      reads this
      ensures Value(coefficient) == 0.0 ==> s == "0"
      ensures Value(coefficient) == 1.0 ==> s == (if variables == [] then "1" else VariablesStr())
      ensures Value(coefficient) != 0.0 && Value(coefficient) != 1.0 ==>
        s == Show(coefficient, showFloat) + VariablesStr()
    {
      if Value(coefficient) == 1.0 && variables == [] then "1"
      else if Value(coefficient) == 1.0 then Tokens.Join(variables)
      else if Value(coefficient) == 0.0 then "0"
      else Show(coefficient, showFloat) + Tokens.Join(variables)
    }

    /** self + other: same variables required; the coefficients add. */
    method Add(other: Monomial) returns (r: Result<Monomial>)
      ensures r.Ok? ==> fresh(r.value)
      ensures variables == other.variables ==> Makes(r, Plus(coefficient, other.coefficient), variables)
      ensures variables != other.variables ==> r == Err(ValueError("The variables are not equals"))
      ensures Valid() && variables == other.variables ==>
        r.Ok? && r.value.variables == variables && r.value.degree == degree
    {
      if variables == other.variables {
        r := New(Plus(coefficient, other.coefficient), variables);
        Shared(r, Plus(coefficient, other.coefficient));
      } else {
        r := Err(ValueError("The variables are not equals"));
      }
    }

    /** self - other: same variables required; the coefficients subtract. */
    method Sub(other: Monomial) returns (r: Result<Monomial>)
      ensures r.Ok? ==> fresh(r.value)
      ensures variables == other.variables ==> Makes(r, Minus(coefficient, other.coefficient), variables)
      ensures variables != other.variables ==> r == Err(ValueError("The variables are not equals"))
      ensures Valid() && variables == other.variables ==>
        r.Ok? && r.value.variables == variables && r.value.degree == degree
    {
      if variables == other.variables {
        r := New(Minus(coefficient, other.coefficient), variables);
        Shared(r, Minus(coefficient, other.coefficient));
      } else {
        r := Err(ValueError("The variables are not equals"));
      }
    }

    /**
     * A new Monomial built on this one's list keeps that list and the degree
     * when this Monomial is regrouped already: why __add__, __sub__ and the
     * scalar branches of __mul__ and __truediv__ may hand self.variables on.
     */
    lemma Shared(r: Result<Monomial>, c: Number)
      requires Makes(r, c, variables)
      ensures Valid() ==> r.Ok? && r.value.variables == variables && r.value.degree == degree
    {
      if Valid() {
        Tokens.RegroupIdempotent(variables);
      }
    }

    /** self * other: a number scales the coefficient; a Monomial also joins the lists, so exponents add. */
    method Mul(other: Operand) returns (r: Result<Monomial>)
      ensures r.Ok? ==> fresh(r.value)
      ensures other.Scalar? ==> Makes(r, Times(coefficient, other.x), variables)
      ensures other.Term? ==>
        Makes(r, Times(coefficient, other.m.coefficient), variables + other.m.variables)
      ensures other.Scalar? && Valid() ==>
        r.Ok? && r.value.variables == variables && r.value.degree == degree
      ensures other.Term? && Valid() && other.m.Valid() ==>
        && r.Ok? && r.value.Valid()
        && (forall l :: Tokens.Exponent(r.value.variables, l) == Tokens.Exponent(variables, l) + Tokens.Exponent(other.m.variables, l))
        && r.value.degree == degree + other.m.degree
    {
      if other.Scalar? {
        r := New(Times(coefficient, other.x), variables);
        Shared(r, Times(coefficient, other.x));
      } else {
        r := New(Times(coefficient, other.m.coefficient), variables + other.m.variables);
        if Valid() && other.m.Valid() {
          Tokens.ProductLaw(variables, other.m.variables);
        }
      }
    }

    /**
     * self / other: a number divides the coefficient; for a Monomial, a
     * copy of self.variables gets letter^-e for each of the divisor's
     * tokens, the coefficients are divided (ZeroDivisionError before any
     * regrouping) and the new list is regrouped, so exponents subtract and
     * a letter the divisor holds more often fails with "Not a monomial".
     */
    method Div(other: Operand) returns (r: Result<Monomial>)
      ensures r.Ok? ==> fresh(r.value)
      ensures other.Scalar? ==>
        match Quotient(coefficient, other.x)
        case Err(e) => r == Err(e)
        case Ok(q) => Makes(r, q, variables)
      ensures other.Term? ==>
        match Tokens.Reciprocal(other.m.variables)
        case Err(e) => r == Err(e)
        case Ok(rec) =>
          match Quotient(coefficient, other.m.coefficient)
          case Err(e) => r == Err(e)
          case Ok(q) => Makes(r, q, variables + rec)
      ensures other.Scalar? && Valid() && Value(other.x) != 0.0 ==>
        r.Ok? && r.value.variables == variables && r.value.degree == degree
      ensures other.Term? && Valid() && other.m.Valid() && Value(other.m.coefficient) != 0.0 ==>
        && (r.Ok? <==> forall l :: Tokens.Exponent(other.m.variables, l) <= Tokens.Exponent(variables, l))
        && (r.Ok? ==> r.value.Valid())
        && (r.Ok? ==>
              && (forall l :: Tokens.Exponent(r.value.variables, l) == Tokens.Exponent(variables, l) - Tokens.Exponent(other.m.variables, l))
              && r.value.degree == degree - other.m.degree)
        && (r.Err? ==> r.error == ValueError("Not a monomial"))
    {
      if other.Scalar? {
        var q := Quotient(coefficient, other.x);
        if q.Err? {
          return Err(q.error);
        }
        r := New(q.value, variables);
        Shared(r, q.value);
        return;
      }
      var divisor := other.m.variables;
      if other.m.Valid() {
        Tokens.ReciprocalShape(divisor);
      }
      var rec := ReciprocalTokens(divisor);
      if rec.Err? {
        return Err(rec.error);
      }
      var vs := variables + rec.value;
      var q := Quotient(coefficient, other.m.coefficient);
      if q.Err? {
        return Err(q.error);
      }
      r := New(q.value, vs);
      if Valid() && other.m.Valid() {
        QuotientMade(r, q.value, variables, divisor);
      }
    }

    /** The loop of __truediv__: letter^str(-e) for each token of the divisor (e is 1 without a caret). */
    static method ReciprocalTokens(divisor: seq<string>) returns (r: Result<seq<string>>)
      ensures r == Tokens.Reciprocal(divisor)
    {
      var vs: seq<string> := [];
      var i := 0;
      while i < |divisor|
        invariant 0 <= i <= |divisor|
        invariant Tokens.Reciprocal(divisor[..i]) == Ok(vs)
      {
        var tok := divisor[i];
        var letter := Tokens.Head(tok);
        var exponent: int;
        Tokens.DivisorTokenCases(tok);
        if '^' in tok {
          var parsed := Decimal.ParseInt(Tokens.Field(tok));
          if parsed.Err? {
            Tokens.ReciprocalStopsAt(divisor, i);
            return Err(parsed.error);
          }
          exponent := parsed.value * -1;
        } else {
          exponent := 1 * -1;
        }
        Tokens.ReciprocalStep(divisor, i);
        vs := vs + [letter + "^" + Decimal.IntToString(exponent)];
        i := i + 1;
      }
      assert divisor[..i] == divisor;
      r := Ok(vs);
    }

    /**
     * self ** n: each token becomes letter^(e * n), the coefficient is
     * raised to n (its exception comes before any regrouping) and the list
     * is regrouped, so every exponent is multiplied by n.
     */
    method Pow(n: int) returns (r: Result<Monomial>)
      ensures r.Ok? ==> fresh(r.value)
      ensures
        match Tokens.Powered(variables, n)
        case Err(e) => r == Err(e)
        case Ok(ps) =>
          match Numbers.Pow(coefficient, n)
          case Err(e) => r == Err(e)
          case Ok(c) => Makes(r, c, ps)
      ensures Valid() && Numbers.Pow(coefficient, n).Ok? ==>
        && (r.Ok? <==> n >= 0 || variables == [])
        && (r.Ok? ==> r.value.Valid())
        && (r.Ok? ==>
              && (forall l :: Tokens.Exponent(r.value.variables, l) == n * Tokens.Exponent(variables, l))
              && r.value.degree == n * degree)
        && (r.Err? ==> r.error == ValueError("Not a monomial"))
        && (n == 0 ==> r.Ok? && r.value.variables == [] && r.value.degree == 0)
    {
      if Valid() {
        Tokens.PoweredShape(variables, n);
      }
      var ps := PoweredTokens(variables, n);
      if ps.Err? {
        return Err(ps.error);
      }
      var c := Numbers.Pow(coefficient, n);
      if c.Err? {
        return Err(c.error);
      }
      r := New(c.value, ps.value);
      if Valid() {
        PowerMade(r, c.value, variables, n);
      }
    }

    /** The loop of __pow__: letter^str(e * n) for each token (e is 1 without a caret). */
    static method PoweredTokens(vs: seq<string>, n: int) returns (r: Result<seq<string>>)
      ensures r == Tokens.Powered(vs, n)
    {
      var ps: seq<string> := [];
      var i := 0;
      while i < |vs|
        invariant 0 <= i <= |vs|
        invariant Tokens.Powered(vs[..i], n) == Ok(ps)
      {
        var tok := vs[i];
        var letter := Tokens.Head(tok);
        var exponent: int;
        if '^' in tok {
          var parsed := Decimal.ParseInt(Tokens.Field(tok));
          if parsed.Err? {
            Tokens.PoweredStopsAt(vs, n, i);
            return Err(parsed.error);
          }
          exponent := parsed.value * n;
        } else {
          exponent := 1 * n;
        }
        assert Tokens.PowerToken(tok, n) == Ok(Tokens.Power(letter, exponent));
        Tokens.PoweredStep(vs, n, i);
        ps := ps + [letter + "^" + Decimal.IntToString(exponent)];
        i := i + 1;
      }
      assert vs[..i] == vs;
      r := Ok(ps);
    }
  }

  /** What Makes says of r, one field at a time. */
  lemma MakesFields(r: Result<Monomial>, c: Number, vs: seq<string>)
    requires Makes(r, c, vs)
    ensures r.Ok? <==> Tokens.Regroup(vs).Ok?
    ensures r.Ok? ==>
      r.value.variables == Tokens.Regroup(vs).value.variables && r.value.degree == Tokens.Regroup(vs).value.degree
    ensures r.Err? ==> r.error == Tokens.Regroup(vs).error
  {
  }

  /** The quotient law carried over to the Monomial that regrouping builds. */
  lemma QuotientMade(r: Result<Monomial>, q: Number, a: seq<string>, b: seq<string>)
    requires Tokens.Canonical(a) && Tokens.Canonical(b)
    requires Tokens.Reciprocal(b).Ok? && Makes(r, q, a + Tokens.Reciprocal(b).value)
    ensures r.Ok? <==> forall l :: Tokens.Exponent(b, l) <= Tokens.Exponent(a, l)
    ensures r.Ok? ==> Tokens.Canonical(r.value.variables)
    ensures r.Ok? ==>
      && (forall l :: Tokens.Exponent(r.value.variables, l) == Tokens.Exponent(a, l) - Tokens.Exponent(b, l))
      && r.value.degree == Tokens.Degree(a) - Tokens.Degree(b)
    ensures r.Err? ==> r.error == ValueError("Not a monomial")
  {
    MakesFields(r, q, a + Tokens.Reciprocal(b).value);
    Tokens.QuotientLaw(a, b);
  }

  /** The power law carried over to the Monomial that regrouping builds. */
  lemma PowerMade(r: Result<Monomial>, c: Number, a: seq<string>, n: int)
    requires Tokens.Canonical(a)
    requires Tokens.Powered(a, n).Ok? && Makes(r, c, Tokens.Powered(a, n).value)
    ensures r.Ok? <==> n >= 0 || a == []
    ensures r.Ok? ==> Tokens.Canonical(r.value.variables)
    ensures r.Ok? ==>
      && (forall l :: Tokens.Exponent(r.value.variables, l) == n * Tokens.Exponent(a, l))
      && r.value.degree == n * Tokens.Degree(a)
    ensures r.Err? ==> r.error == ValueError("Not a monomial")
    ensures n == 0 ==> r.Ok? && r.value.variables == [] && r.value.degree == 0
  {
    MakesFields(r, c, Tokens.Powered(a, n).value);
    Tokens.PowerLaw(a, n);
  }

  /** r is what Monomial(c, vs) evaluates to: the regrouped object, or the exception regrouping raises. */
  ghost predicate Makes(r: Result<Monomial>, c: Number, vs: seq<string>)
    reads if r.Ok? then {r.value} else {}
  {
    match Tokens.Regroup(vs)
    case Err(e) => r == Err(e)
    case Ok(g) =>
      r.Ok? && r.value.coefficient == c && r.value.variables == g.variables && r.value.degree == g.degree
  }
}
