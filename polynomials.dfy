/**
 * The Polynomial class of src/ruffini/polynomials.py: a list of Monomials
 * that the constructor reduces in place. reduce groups the terms by the
 * string their variables join to, adds up the coefficients of each group in
 * the order the terms come, keeps the variable list of each group's first
 * term, rebuilds one Monomial per group in first-occurrence order and sets
 * the degree to the largest term degree.
 */
module Polynomials {
  import opened Errors
  import opened Numbers
  import StringOrder
  import Tokens
  import Monomials

  /** What reduce reads of a Monomial: its coefficient and its variable list. */
  datatype Term = Term(coefficient: Number, variables: seq<string>)

  /** variables_str(): the key reduce groups the terms by. */
  function Key(t: Term): string {
    Tokens.Join(t.variables)
  }

  /** Some term of ts has key k. */
  predicate Occurs(ts: seq<Term>, k: string) {
    exists j :: 0 <= j < |ts| && Key(ts[j]) == k
  }

  /** No two terms of ts have the same key. */
  predicate DistinctKeys(ts: seq<Term>) {
    forall i, j :: 0 <= i < j < |ts| ==> Key(ts[i]) != Key(ts[j])
  }

  /** The position of the first term of ts with key k. */
  function FirstIndex(ts: seq<Term>, k: string): (i: nat)
    requires Occurs(ts, k)
    ensures i < |ts| && Key(ts[i]) == k
    ensures forall j :: 0 <= j < i ==> Key(ts[j]) != k
  {
    if Key(ts[0]) == k then 0
    else
      assert Occurs(ts[1..], k) by {
        var j :| 0 <= j < |ts| && Key(ts[j]) == k;
        assert ts[1..][j - 1] == ts[j];
      }
      var i := FirstIndex(ts[1..], k);
      assert forall j :: 1 <= j < i + 1 ==> ts[j] == ts[1..][j - 1];
      i + 1
  }

  /** The coefficients of the terms of ts with key k, in the order of ts. */
  function Coefficients(ts: seq<Term>, k: string): seq<Number> {
    if ts == [] then []
    else
      var t := ts[|ts| - 1];
      Coefficients(ts[..|ts| - 1], k) + if Key(t) == k then [t.coefficient] else []
  }

  /** The sum of the numbers cs stand for. */
  function ValueSum(cs: seq<Number>): real {
    if cs == [] then 0.0 else ValueSum(cs[..|cs| - 1]) + Value(cs[|cs| - 1])
  }

  /**
   * c1 + c2 + ... + cn, added left to right with Python's +: the value is the
   * sum, and it is an int exactly when every ci is one.
   */
  function FoldPlus(cs: seq<Number>): (r: Number)
    requires cs != []
    ensures Value(r) == ValueSum(cs)
    ensures r.Int? <==> forall i :: 0 <= i < |cs| ==> cs[i].Int?
  {
    if |cs| == 1 then
      assert cs[..0] == [];
      cs[0]
    else
      var p := cs[..|cs| - 1];
      assert forall i :: 0 <= i < |p| ==> p[i] == cs[i];
      Plus(FoldPlus(p), cs[|cs| - 1])
  }

  /** The counter and var_to_list dictionaries of reduce, with the order their keys went in. */
  datatype Groups = Groups(keys: seq<string>, sums: map<string, Number>, first: map<string, seq<string>>)

  /** What the first loop of reduce leaves after reading ts. */
  function Group(ts: seq<Term>): (g: Groups)
    ensures forall k :: k in g.sums <==> k in g.keys
    ensures forall k :: k in g.first <==> k in g.keys
  {
    if ts == [] then Groups([], map[], map[])
    else
      var g := Group(ts[..|ts| - 1]);
      var t := ts[|ts| - 1];
      var k := Key(t);
      if k in g.sums then Groups(g.keys, g.sums[k := Plus(g.sums[k], t.coefficient)], g.first)
      else Groups(g.keys + [k], g.sums[k := t.coefficient], g.first[k := t.variables])
  }

  /** The counter's keys are distinct, at most one per term, and each var_to_list entry joins to its key. */
  lemma {:induction false} GroupShape(ts: seq<Term>)
    ensures StringOrder.Distinct(Group(ts).keys)
    ensures |Group(ts).keys| <= |ts|
    ensures forall k :: k in Group(ts).first ==> Tokens.Join(Group(ts).first[k]) == k
  {
    if ts != [] {
      GroupShape(ts[..|ts| - 1]);
    }
  }

  /** The terms reduce leaves: one per key of ts, in the order the keys first occur. */
  function Reduced(ts: seq<Term>): (rs: seq<Term>)
    ensures |rs| <= |ts|
  {
    GroupShape(ts);
    var g := Group(ts);
    seq(|g.keys|, i requires 0 <= i < |g.keys| => Term(g.sums[g.keys[i]], g.first[g.keys[i]]))
  }

  /** max() of a non-empty list of ints: one of them, and no smaller than any. */
  function Max(ds: seq<int>): (d: int)
    requires ds != []
    ensures d in ds
    ensures forall i :: 0 <= i < |ds| ==> ds[i] <= d
  {
    if |ds| == 1 then ds[0]
    else
      var p := ds[..|ds| - 1];
      assert forall i :: 0 <= i < |p| ==> p[i] == ds[i];
      var m := Max(p);
      if ds[|ds| - 1] > m then ds[|ds| - 1] else m
  }

  /** The degree of each term: the sum of its exponents. */
  function Degrees(ts: seq<Term>): (ds: seq<int>)
    ensures |ds| == |ts|
  {
    seq(|ts|, i requires 0 <= i < |ts| => Tokens.Degree(ts[i].variables))
  }

  // ---------------------------------------------------------------------
  // What the first loop computes, key by key

  lemma OccursStep(ts: seq<Term>, k: string)
    requires ts != []
    ensures Occurs(ts, k) <==> Occurs(ts[..|ts| - 1], k) || k == Key(ts[|ts| - 1])
  {
    var p := ts[..|ts| - 1];
    if Occurs(p, k) {
      var j :| 0 <= j < |p| && Key(p[j]) == k;
      assert ts[j] == p[j];
    }
    if Occurs(ts, k) && k != Key(ts[|ts| - 1]) {
      var j :| 0 <= j < |ts| && Key(ts[j]) == k;
      assert p[j] == ts[j];
    }
  }

  lemma FirstIndexPrefix(ts: seq<Term>, k: string)
    requires ts != [] && Occurs(ts[..|ts| - 1], k)
    ensures Occurs(ts, k) && FirstIndex(ts, k) == FirstIndex(ts[..|ts| - 1], k)
  {
    var p := ts[..|ts| - 1];
    OccursStep(ts, k);
    var i, i2 := FirstIndex(p, k), FirstIndex(ts, k);
    assert Key(ts[i]) == k by {
      assert ts[i] == p[i];
    }
    assert i2 <= i;
    assert Key(p[i2]) == k by {
      assert p[i2] == ts[i2];
    }
  }

  lemma FirstIndexLast(ts: seq<Term>)
    requires ts != [] && !Occurs(ts[..|ts| - 1], Key(ts[|ts| - 1]))
    ensures Occurs(ts, Key(ts[|ts| - 1])) && FirstIndex(ts, Key(ts[|ts| - 1])) == |ts| - 1
  {
    var p := ts[..|ts| - 1];
    var k := Key(ts[|ts| - 1]);
    forall j | 0 <= j < |p|
      ensures Key(ts[j]) != k
    {
      assert p[j] == ts[j];
    }
    assert Occurs(ts, k);
  }

  /** The keys of the counter are the keys of the terms read. */
  lemma {:induction false} GroupMembers(ts: seq<Term>)
    ensures forall k :: k in Group(ts).sums <==> Occurs(ts, k)
  {
    if ts != [] {
      GroupMembers(ts[..|ts| - 1]);
      forall k
        ensures Occurs(ts, k) <==> Occurs(ts[..|ts| - 1], k) || k == Key(ts[|ts| - 1])
      {
        OccursStep(ts, k);
      }
    }
  }

  lemma {:induction false} NoCoefficients(ts: seq<Term>, k: string)
    requires !Occurs(ts, k)
    ensures Coefficients(ts, k) == []
  {
    if ts != [] {
      OccursStep(ts, k);
      NoCoefficients(ts[..|ts| - 1], k);
    }
  }

  /** The counter holds, for each key, the coefficients with that key added left to right. */
  lemma {:induction false} GroupSums(ts: seq<Term>, k: string)
    requires k in Group(ts).sums
    ensures Coefficients(ts, k) != [] && Group(ts).sums[k] == FoldPlus(Coefficients(ts, k))
  {
    var p := ts[..|ts| - 1];
    var t := ts[|ts| - 1];
    if Key(t) != k {
      GroupSums(p, k);
      assert Coefficients(ts, k) == Coefficients(p, k) + [];
      assert Coefficients(ts, k) == Coefficients(p, k);
      assert Group(ts).sums[k] == Group(p).sums[k];
    } else if k in Group(p).sums {
      GroupSums(p, k);
      var cs := Coefficients(p, k);
      assert Coefficients(ts, k) == cs + [t.coefficient];
      assert (cs + [t.coefficient])[..|cs|] == cs;
    } else {
      GroupMembers(p);
      NoCoefficients(p, k);
      assert Coefficients(ts, k) == [t.coefficient];
    }
  }

  /** var_to_list holds, for each key, the variable list of the first term with that key. */
  lemma {:induction false} GroupFirst(ts: seq<Term>, k: string)
    requires k in Group(ts).first
    ensures Occurs(ts, k) && Group(ts).first[k] == ts[FirstIndex(ts, k)].variables
  {
    var p := ts[..|ts| - 1];
    GroupMembers(ts);
    GroupMembers(p);
    if k in Group(p).first {
      GroupFirst(p, k);
      FirstIndexPrefix(ts, k);
      assert p[FirstIndex(p, k)] == ts[FirstIndex(p, k)];
    } else {
      FirstIndexLast(ts);
    }
  }

  /** The counter's keys are in the order of their first occurrence. */
  lemma {:induction false} GroupOrder(ts: seq<Term>)
    ensures forall i :: 0 <= i < |Group(ts).keys| ==> Occurs(ts, Group(ts).keys[i])
    ensures forall i, j :: 0 <= i < j < |Group(ts).keys| ==>
      FirstIndex(ts, Group(ts).keys[i]) < FirstIndex(ts, Group(ts).keys[j])
  {
    GroupMembers(ts);
    if ts != [] {
      var p := ts[..|ts| - 1];
      var k := Key(ts[|ts| - 1]);
      GroupOrder(p);
      GroupMembers(p);
      var ks, pk := Group(ts).keys, Group(p).keys;
      forall i | 0 <= i < |pk|
        ensures FirstIndex(ts, pk[i]) == FirstIndex(p, pk[i]) < |p|
      {
        FirstIndexPrefix(ts, pk[i]);
      }
      if k in Group(p).sums {
        assert ks == pk;
      } else {
        assert ks == pk + [k];
        FirstIndexLast(ts);
        forall i, j | 0 <= i < j < |ks|
          ensures FirstIndex(ts, ks[i]) < FirstIndex(ts, ks[j])
        {
          if j == |pk| {
            assert ks[i] == pk[i];
          } else {
            assert ks[i] == pk[i] && ks[j] == pk[j];
          }
        }
      }
    }
  }

  lemma {:induction false} GroupOfDistinct(ts: seq<Term>)
    requires DistinctKeys(ts)
    ensures |Group(ts).keys| == |ts|
    ensures forall i :: 0 <= i < |ts| ==>
      && Group(ts).keys[i] == Key(ts[i])
      && Group(ts).sums[Key(ts[i])] == ts[i].coefficient
      && Group(ts).first[Key(ts[i])] == ts[i].variables
  {
    if ts != [] {
      var p, t := ts[..|ts| - 1], ts[|ts| - 1];
      var k := Key(t);
      assert forall i :: 0 <= i < |p| ==> p[i] == ts[i];
      GroupOfDistinct(p);
      var g := Group(p);
      forall i | 0 <= i < |p|
        ensures g.keys[i] != k
      {
        assert g.keys[i] == Key(ts[i]);
      }
      assert k !in g.sums;
      var h := Group(ts);
      assert h.keys == g.keys + [k];
      assert h.sums == g.sums[k := t.coefficient];
      assert h.first == g.first[k := t.variables];
      forall i | 0 <= i < |ts|
        ensures h.keys[i] == Key(ts[i]) && h.sums[Key(ts[i])] == ts[i].coefficient && h.first[Key(ts[i])] == ts[i].variables
      {
        if i < |p| {
          assert Key(ts[i]) == g.keys[i] != k;
          assert h.keys[i] == g.keys[i];
        }
      }
    }
  }

  // ---------------------------------------------------------------------
  // What reduce promises

  /** No two terms that reduce leaves have the same variable string. */
  lemma ReducedDistinct(ts: seq<Term>)
    ensures DistinctKeys(Reduced(ts))
  {
    var g := Group(ts);
    GroupShape(ts);
    forall i | 0 <= i < |Reduced(ts)|
      ensures Key(Reduced(ts)[i]) == g.keys[i]
    {
    }
  }

  /**
   * The variable strings that reduce leaves are exactly those of the input
   * terms: a group whose coefficients add up to 0 is kept.
   */
  lemma ReducedCovers(ts: seq<Term>)
    ensures forall k :: Occurs(Reduced(ts), k) <==> Occurs(ts, k)
  {
    var g := Group(ts);
    var rs := Reduced(ts);
    GroupMembers(ts);
    GroupShape(ts);
    forall k
      ensures Occurs(rs, k) <==> k in g.keys
    {
      if k in g.keys {
        var i :| 0 <= i < |g.keys| && g.keys[i] == k;
        assert Key(rs[i]) == k;
      }
    }
  }

  /** Each term's coefficient is the input coefficients with its variable string added left to right. */
  lemma ReducedSums(ts: seq<Term>)
    ensures forall i :: 0 <= i < |Reduced(ts)| ==>
      && Coefficients(ts, Key(Reduced(ts)[i])) != []
      && Reduced(ts)[i].coefficient == FoldPlus(Coefficients(ts, Key(Reduced(ts)[i])))
  {
    var g := Group(ts);
    GroupShape(ts);
    forall i | 0 <= i < |Reduced(ts)|
      ensures Coefficients(ts, g.keys[i]) != [] && g.sums[g.keys[i]] == FoldPlus(Coefficients(ts, g.keys[i]))
    {
      GroupSums(ts, g.keys[i]);
    }
  }

  /**
   * Each term keeps the variable list of the first input term with its
   * variable string, and the terms come in the order those first terms do.
   */
  lemma ReducedFirst(ts: seq<Term>)
    ensures forall i :: 0 <= i < |Reduced(ts)| ==>
      && Occurs(ts, Key(Reduced(ts)[i]))
      && Reduced(ts)[i].variables == ts[FirstIndex(ts, Key(Reduced(ts)[i]))].variables
    ensures forall i, j :: 0 <= i < j < |Reduced(ts)| ==>
      FirstIndex(ts, Key(Reduced(ts)[i])) < FirstIndex(ts, Key(Reduced(ts)[j]))
  {
    var g := Group(ts);
    GroupOrder(ts);
    GroupShape(ts);
    forall i | 0 <= i < |Reduced(ts)|
      ensures Key(Reduced(ts)[i]) == g.keys[i]
      ensures Reduced(ts)[i].variables == ts[FirstIndex(ts, g.keys[i])].variables
    {
      GroupFirst(ts, g.keys[i]);
    }
  }

  /** Terms whose variable strings are all different are left as they are. */
  lemma ReducedOfDistinct(ts: seq<Term>)
    requires DistinctKeys(ts)
    ensures Reduced(ts) == ts
  {
    GroupOfDistinct(ts);
  }

  /** Reducing twice is reducing once. */
  lemma ReducedIdempotent(ts: seq<Term>)
    ensures Reduced(Reduced(ts)) == Reduced(ts)
  {
    ReducedDistinct(ts);
    ReducedOfDistinct(Reduced(ts));
  }

  /** Reduce leaves no term exactly when it is given none. */
  lemma ReducedEmpty(ts: seq<Term>)
    ensures Reduced(ts) == [] <==> ts == []
  {
    if ts != [] {
      ReducedCovers(ts);
      assert Occurs(ts, Key(ts[0]));
    }
  }

  // ---------------------------------------------------------------------
  // The class

  /** The coefficients and variable lists of a list of Monomials. */
  function Values(ms: seq<Monomials.Monomial>): (ts: seq<Term>)
    reads ms
    ensures |ts| == |ms|
    ensures forall i :: 0 <= i < |ms| ==> ts[i] == Term(ms[i].coefficient, ms[i].variables)
  {
    seq(|ms|, i reads ms requires 0 <= i < |ms| => Term(ms[i].coefficient, ms[i].variables))
  }

  lemma GroupStep(ts: seq<Term>, i: nat, order: seq<string>, counter: map<string, Number>, first: map<string, seq<string>>)
    requires i < |ts| && Group(ts[..i]) == Groups(order, counter, first)
    ensures Group(ts[..i + 1]) ==
      if Key(ts[i]) in counter then Groups(order, counter[Key(ts[i]) := Plus(counter[Key(ts[i])], ts[i].coefficient)], first)
      else Groups(order + [Key(ts[i])], counter[Key(ts[i]) := ts[i].coefficient], first[Key(ts[i]) := ts[i].variables])
  {
    assert ts[..i + 1][..i] == ts[..i];
  }

  lemma ReducedOfGroups(ts: seq<Term>, order: seq<string>, counter: map<string, Number>, first: map<string, seq<string>>)
    requires Group(ts) == Groups(order, counter, first)
    ensures |Reduced(ts)| == |order|
    ensures forall i :: 0 <= i < |order| ==> Reduced(ts)[i] == Term(counter[order[i]], first[order[i]])
  {
  }

  lemma GroupCanonical(ts: seq<Term>)
    requires forall i :: 0 <= i < |ts| ==> Tokens.Canonical(ts[i].variables)
    ensures forall k :: k in Group(ts).first ==> Tokens.Canonical(Group(ts).first[k])
  {
    forall k | k in Group(ts).first
      ensures Tokens.Canonical(Group(ts).first[k])
    {
      GroupFirst(ts, k);
    }
  }

  lemma ValidValues(ms: seq<Monomials.Monomial>)
    requires forall m :: m in ms ==> m.Valid()
    ensures forall i :: 0 <= i < |Values(ms)| ==> Tokens.Canonical(Values(ms)[i].variables)
  {
    forall i | 0 <= i < |ms|
      ensures ms[i].Valid()
    {
      assert ms[i] in ms;
    }
  }

  /** The first loop of reduce: fill counter and var_to_list from the terms. */
  method CountTerms(ms: seq<Monomials.Monomial>, ghost ts: seq<Term>)
    returns (order: seq<string>, counter: map<string, Number>, varToList: map<string, seq<string>>)
    requires ts == Values(ms)
    ensures Group(ts) == Groups(order, counter, varToList)
  {
    order, counter, varToList := [], map[], map[];
    var i := 0;
    while i < |ms|
      invariant 0 <= i <= |ms|
      invariant Group(ts[..i]) == Groups(order, counter, varToList)
    {
      var term := ms[i];
      var key := term.VariablesStr();
      GroupStep(ts, i, order, counter, varToList);
      if key in counter {
        counter := counter[key := Plus(counter[key], term.coefficient)];
      } else {
        counter := counter[key := term.coefficient];
        varToList := varToList[key := term.variables];
        order := order + [key];
      }
      i := i + 1;
    }
    assert ts[..|ms|] == ts;
  }

  /** The second loop of reduce: one new Monomial per key, from its sum and its first variable list. */
  method NewTerms(order: seq<string>, counter: map<string, Number>, varToList: map<string, seq<string>>)
    returns (ms: seq<Monomials.Monomial>)
    requires forall k :: k in order ==> k in counter && k in varToList && Tokens.Canonical(varToList[k])
    ensures |ms| == |order|
    ensures forall i :: 0 <= i < |ms| ==>
      ms[i].coefficient == counter[order[i]] && ms[i].variables == varToList[order[i]]
    ensures forall m :: m in ms ==> fresh(m) && m.Valid()
  {
    ms := [];
    var j := 0;
    while j < |order|
      invariant 0 <= j <= |order| && |ms| == j
      invariant forall i :: 0 <= i < j ==>
        ms[i].coefficient == counter[order[i]] && ms[i].variables == varToList[order[i]]
      invariant forall m :: m in ms ==> fresh(m) && m.Valid()
    {
      var key := order[j];
      Tokens.RegroupIdempotent(varToList[key]);
      var m := Monomials.Monomial.New(counter[key], varToList[key]);
      assert m.Ok?;
      ms := ms + [m.value];
      j := j + 1;
    }
  }

  class Polynomial {
    var terms: seq<Monomials.Monomial>
    var degree: int

    /** What every Polynomial that __init__ returns satisfies. */
    ghost predicate Valid()
      reads this, terms
    {
      && terms != []
      && (forall m :: m in terms ==> m.Valid())
      && Reduced(Values(terms)) == Values(terms)
      && degree == Max(Degrees(Values(terms)))
    }

    /** The object as __init__ fills it before it reduces the list; degree is not set yet and reads 0. */
    constructor Raw(ms: seq<Monomials.Monomial>)
      ensures terms == ms && degree == 0
    {
      terms := ms;
      degree := 0;
    }

    /**
     * reduce: copy and clear the list, group the old terms by variable
     * string, append one new Monomial per group and store the largest term
     * degree; max() of no terms raises ValueError.
     */
    method Reduce() returns (err: Option<Error>)
      requires forall m :: m in terms ==> m.Valid()
      modifies this
      ensures Values(terms) == Reduced(old(Values(terms)))
      ensures forall m :: m in terms ==> fresh(m) && m.Valid()
      ensures old(terms) == [] ==>
        terms == [] && degree == old(degree) && err == Some(ValueError("max() arg is an empty sequence"))
      ensures old(terms) != [] ==> err.None? && Valid()
    {
      var oldTerms := terms;
      ghost var ts := Values(oldTerms);
      ValidValues(oldTerms);
      var order, counter, varToList := CountTerms(oldTerms, ts);
      GroupCanonical(ts);
      Rebuild(order, counter, varToList);
      ReducedOfGroups(ts, order, counter, varToList);
      assert Values(terms) == Reduced(ts);
      ReducedEmpty(ts);
      if terms == [] {
        return Some(ValueError("max() arg is an empty sequence"));
      }
      ReducedIdempotent(ts);
      err := None;
    }

    /**
     * The rest of reduce once the dictionaries are filled: the list holds one
     * new Monomial per key and, unless it is empty, the degree is the largest
     * term degree.
     */
    method Rebuild(order: seq<string>, counter: map<string, Number>, varToList: map<string, seq<string>>)
      requires forall k :: k in order ==> k in counter && k in varToList && Tokens.Canonical(varToList[k])
      modifies this
      ensures |terms| == |order|
      ensures forall i :: 0 <= i < |terms| ==>
        terms[i].coefficient == counter[order[i]] && terms[i].variables == varToList[order[i]]
      ensures forall m :: m in terms ==> fresh(m) && m.Valid()
      ensures terms != [] ==> degree == Max(Degrees(Values(terms)))
      ensures terms == [] ==> degree == old(degree)
    {
      var newTerms := NewTerms(order, counter, varToList);
      ghost var vals := Values(newTerms);
      var d := degree;
      if newTerms != [] {
        d := Max(Degrees(Values(newTerms)));
      }
      terms, degree := newTerms, d;
      assert Values(terms) == vals;
    }

    /** Polynomial(*monomials): store the terms and reduce them. */
    static method New(ms: seq<Monomials.Monomial>) returns (r: Result<Polynomial>)
      requires forall m :: m in ms ==> m.Valid()
      ensures ms == [] ==> r == Err(ValueError("max() arg is an empty sequence"))
      ensures ms != [] ==> r.Ok? && fresh(r.value) && r.value.Valid()
      ensures r.Ok? ==> Values(r.value.terms) == Reduced(Values(ms))
    {
      var p := new Polynomial.Raw(ms);
      var err := p.Reduce();
      if err.Some? {
        r := Err(err.value);
      } else {
        r := Ok(p);
      }
    }
  }
}
