/**
 * VariablesDict: an immutable map from a one-letter variable name to a
 * positive exponent. A missing letter reads as exponent 0 and a zero exponent
 * is never stored. The value is a map<char, nat> kept Valid; the loops with
 * which the constructor and the operators +, - and * build their result are
 * methods, each proved equal to a specification function, and the algebraic
 * laws are lemmas about those functions.
 */
module Variables {
  import opened Errors
  import Decimal

  /**
   * A Python value handed to VariablesDict or to one of its operators: an int,
   * a float (as an exact real), another VariablesDict, or any other object,
   * known by its type name.
   */
  datatype PyValue =
    | PyInt(i: int)
    | PyFloat(f: real)
    | PyVars(m: map<char, nat>)
    | PyOther(typeName: string)

  function TypeName(v: PyValue): string {
    match v
    case PyInt(_) => "int"
    case PyFloat(_) => "float"
    case PyVars(_) => "VariablesDict"
    case PyOther(t) => t
  }

  predicate IsLower(c: char) {
    'a' <= c <= 'z'
  }

  predicate IsUpper(c: char) {
    'A' <= c <= 'Z'
  }

  /** str.isalpha(): a non-empty string of letters. */
  predicate IsAlpha(s: string) {
    |s| > 0 && forall i :: 0 <= i < |s| ==> IsLower(s[i]) || IsUpper(s[i])
  }

  /** str.lower() on one character. */
  function Lower(c: char): (r: char)
    ensures (IsLower(c) || IsUpper(c)) ==> IsLower(r)
    ensures IsLower(c) ==> r == c
  {
    if IsUpper(c) then ((c as int) + 32) as char else c
  }

  /** The invariant every VariablesDict keeps. */
  predicate Valid(m: map<char, nat>) {
    forall c :: c in m ==> IsLower(c) && m[c] > 0
  }

  /** The exponent of letter c: 0 when c is absent. */
  function At(m: map<char, nat>, c: char): nat {
    if c in m then m[c] else 0
  }

  /** v[key] for a string key: the stored exponent, or 0 when the key is absent. */
  function Get(m: map<char, nat>, key: string): (r: nat)
    requires Valid(m)
    ensures r > 0 <==> |key| == 1 && key[0] in m
    ensures |key| == 1 ==> r == At(m, key[0])
  {
    if |key| == 1 && key[0] in m then m[key[0]] else 0
  }

  // ---------------------------------------------------------------------
  // Construction

  /** The exception VariablesDict raises for one (name, exponent) pair, checks taken in the source's order. */
  function PairError(key: string, value: PyValue): Option<Error> {
    if !IsAlpha(key) then Some(ValueError("variable's name must be alphabetical"))
    else if |key| > 1 then Some(ValueError("variable's name length must be one"))
    else if !(value.PyInt? || value.PyFloat?) then Some(TypeError("variable's exponent must be int or float"))
    else if value.PyFloat? && value.f != value.f.Floor as real then Some(ValueError("variable's exponent must be a whole number"))
    else if (value.PyInt? && value.i < 0) || (value.PyFloat? && value.f < 0.0) then Some(ValueError("variable's exponent must be positive"))
    else None
  }

  /** int(value) for an int or a float; 0 for anything else. */
  function Exponent(value: PyValue): int {
    match value
    case PyInt(i) => i
    case PyFloat(f) => f.Floor
    case _ => 0
  }

  /** The first pair, in input order, that VariablesDict rejects, and its exception. */
  function FirstError(pairs: seq<(string, PyValue)>): Option<Error> {
    if pairs == [] then None
    else
      var init := pairs[..|pairs| - 1];
      var last := pairs[|pairs| - 1];
      if FirstError(init).Some? then FirstError(init) else PairError(last.0, last.1)
  }

  /** The dict VariablesDict builds from accepted pairs: nonzero exponents under lowercased names, a later pair overwriting an earlier one. */
  function Collect(pairs: seq<(string, PyValue)>): map<char, nat>
    requires FirstError(pairs).None?
  {
    if pairs == [] then map[]
    else
      var init := pairs[..|pairs| - 1];
      var (key, value) := pairs[|pairs| - 1];
      var acc := Collect(init);
      var e := Exponent(value);
      if e == 0 then acc else acc[Lower(key[0]) := e]
  }

  /** VariablesDict(pairs): the specification the constructor's loop is proved against. */
  function FromPairs(pairs: seq<(string, PyValue)>): Result<map<char, nat>> {
    match FirstError(pairs)
    case Some(e) => Err(e)
    case None => Ok(Collect(pairs))
  }

  /** True when pair p names letter c (after lowercasing). */
  predicate Names(p: (string, PyValue), c: char) {
    |p.0| == 1 && Lower(p.0[0]) == c
  }

  /**
   * VariablesDict(variables, **kwargs): the keyword arguments are used when
   * variables is empty; the pairs are validated and stored one by one.
   */
  method New(variables: seq<(string, PyValue)>, kwargs: seq<(string, PyValue)>) returns (r: Result<map<char, nat>>)
    ensures r == FromPairs(if variables == [] then kwargs else variables)
  {
    var vs := if variables == [] then kwargs else variables;
    var newVariables: map<char, nat> := map[];
    for i := 0 to |vs|
      invariant FirstError(vs[..i]).None?
      invariant newVariables == Collect(vs[..i])
    {
      assert vs[..i + 1][..i] == vs[..i];
      var (key, value) := vs[i];
      if PairError(key, value).Some? {
        FirstErrorExtend(vs, i + 1);
      }
      if !IsAlpha(key) {
        return Err(ValueError("variable's name must be alphabetical"));
      } else if |key| > 1 {
        return Err(ValueError("variable's name length must be one"));
      }
      if !(value.PyInt? || value.PyFloat?) {
        return Err(TypeError("variable's exponent must be int or float"));
      } else if value.PyFloat? && value.f != value.f.Floor as real {
        return Err(ValueError("variable's exponent must be a whole number"));
      } else if (value.PyInt? && value.i < 0) || (value.PyFloat? && value.f < 0.0) {
        return Err(ValueError("variable's exponent must be positive"));
      }
      var e: nat := if value.PyInt? then value.i else value.f.Floor;
      if e != 0 {
        newVariables := newVariables[Lower(key[0]) := e];
      }
    }
    assert vs[..|vs|] == vs;
    r := Ok(newVariables);
  }

  /** Once a prefix holds a rejected pair, the whole input raises that pair's exception. */
  lemma {:induction false} FirstErrorExtend(pairs: seq<(string, PyValue)>, j: nat)
    requires j <= |pairs| && FirstError(pairs[..j]).Some?
    ensures FirstError(pairs) == FirstError(pairs[..j])
    decreases |pairs| - j
  {
    if j < |pairs| {
      assert pairs[..j + 1][..j] == pairs[..j];
      FirstErrorExtend(pairs, j + 1);
    } else {
      assert pairs[..j] == pairs;
    }
  }

  /** After construction every key is a lowercase letter and every exponent is positive. */
  lemma {:induction false} CollectValid(pairs: seq<(string, PyValue)>)
    requires FirstError(pairs).None?
    ensures Valid(Collect(pairs))
  {
    if pairs != [] {
      CollectValid(pairs[..|pairs| - 1]);
    }
  }

  /**
   * A letter is stored exactly when some pair names it with a nonzero
   * exponent, and its exponent is that of the last such pair; pairs with
   * exponent 0 are omitted.
   */
  lemma {:induction false} CollectContents(pairs: seq<(string, PyValue)>, c: char)
    requires FirstError(pairs).None?
    ensures c in Collect(pairs) <==> exists i :: 0 <= i < |pairs| && Names(pairs[i], c) && Exponent(pairs[i].1) != 0
    ensures c in Collect(pairs) ==>
      exists i :: 0 <= i < |pairs| && Names(pairs[i], c) && Exponent(pairs[i].1) == Collect(pairs)[c] &&
        forall j :: i < j < |pairs| && Names(pairs[j], c) ==> Exponent(pairs[j].1) == 0
  {
    if pairs != [] {
      var n := |pairs| - 1;
      var init := pairs[..n];
      CollectContents(init, c);
      assert forall i :: 0 <= i < n ==> init[i] == pairs[i];
      var m := Collect(pairs);
      if Names(pairs[n], c) && Exponent(pairs[n].1) != 0 {
        assert m[c] == Exponent(pairs[n].1);
      } else {
        assert c in m <==> c in Collect(init);
        if c in m {
          assert m[c] == Collect(init)[c];
          var i :| 0 <= i < n && Names(init[i], c) && Exponent(init[i].1) == Collect(init)[c] &&
            forall j :: i < j < n && Names(init[j], c) ==> Exponent(init[j].1) == 0;
          assert forall j :: i < j < |pairs| && Names(pairs[j], c) ==> Exponent(pairs[j].1) == 0;
        }
      }
    }
  }

  /**
   * Construction fails exactly when some pair is rejected, and it raises the
   * exception of the first rejected pair.
   */
  lemma {:induction false} FirstErrorIsFirst(pairs: seq<(string, PyValue)>)
    ensures FirstError(pairs).None? <==> forall i :: 0 <= i < |pairs| ==> PairError(pairs[i].0, pairs[i].1).None?
    ensures FirstError(pairs).Some? ==>
      exists i :: 0 <= i < |pairs| && PairError(pairs[i].0, pairs[i].1) == FirstError(pairs) &&
        forall j :: 0 <= j < i ==> PairError(pairs[j].0, pairs[j].1).None?
  {
    if pairs != [] {
      var n := |pairs| - 1;
      var init := pairs[..n];
      FirstErrorIsFirst(init);
      assert forall i :: 0 <= i < n ==> init[i] == pairs[i];
      if FirstError(init).Some? {
        var i :| 0 <= i < n && PairError(init[i].0, init[i].1) == FirstError(init) &&
          forall j :: 0 <= j < i ==> PairError(init[j].0, init[j].1).None?;
        assert PairError(pairs[i].0, pairs[i].1) == FirstError(pairs);
      }
    }
  }

  /** On the documented examples, the checks come in their order: a name is checked before its exponent, alphabet before length. */
  lemma ValidationOrder()
    ensures PairError("x2", PyInt(9)) == Some(ValueError("variable's name must be alphabetical"))
    ensures PairError("xy", PyInt(3)) == Some(ValueError("variable's name length must be one"))
    ensures PairError("k", PyOther("list")) == Some(TypeError("variable's exponent must be int or float"))
    ensures PairError("z", PyFloat(7.13)) == Some(ValueError("variable's exponent must be a whole number"))
    ensures PairError("f", PyInt(-3)) == Some(ValueError("variable's exponent must be positive"))
    ensures PairError("x2", PyOther("list")) == Some(ValueError("variable's name must be alphabetical"))
    ensures PairError("z", PyFloat(-2.5)) == Some(ValueError("variable's exponent must be a whole number"))
  {
    assert !IsAlpha("x2") by {
      assert !(IsLower("x2"[1]) || IsUpper("x2"[1]));
    }
    assert IsAlpha("xy") && IsAlpha("k") && IsAlpha("z") && IsAlpha("f");
    assert (7.13).Floor == 7;
    assert (-2.5).Floor == -3;
  }

  // ---------------------------------------------------------------------
  // The constructor applied to a dict the operators build themselves

  /**
   * VariablesDict(result) for a dict whose keys are lowercase letters and whose
   * values are ints: ValueError when an exponent is negative, else the nonzero
   * entries.
   */
  function FromCounts(m: map<char, int>): (r: Result<map<char, nat>>)
    requires forall c :: c in m ==> IsLower(c)
    ensures r.Ok? ==> Valid(r.value)
  {
    if exists c :: c in m && m[c] < 0 then Err(ValueError("variable's exponent must be positive"))
    else Ok(map c | c in m && m[c] != 0 :: m[c] as nat)
  }

  /** A dict whose exponents are already positive passes through the constructor unchanged. */
  lemma FromCountsOfPositive(m: map<char, int>)
    requires forall c :: c in m ==> IsLower(c) && m[c] > 0
    ensures FromCounts(m).Ok? && FromCounts(m).value == m
  {
    var r := FromCounts(m).value;
    assert r.Keys == m.Keys;
  }

  /**
   * Whatever order the entries of m are enumerated in, validating them one by
   * one as the constructor does gives FromCounts(m).
   */
  lemma FromCountsIsFromPairs(m: map<char, int>, pairs: seq<(string, PyValue)>)
    requires forall c :: c in m ==> IsLower(c)
    requires forall i :: 0 <= i < |pairs| ==> |pairs[i].0| == 1 && pairs[i].0[0] in m && pairs[i].1 == PyInt(m[pairs[i].0[0]])
    requires forall c :: c in m ==> exists i :: 0 <= i < |pairs| && pairs[i].0 == [c]
    ensures FromPairs(pairs) == FromCounts(m)
  {
    if exists c :: c in m && m[c] < 0 {
      NegativePairRejected(m, pairs);
    } else {
      AllPairsAccepted(m, pairs);
    }
  }

  lemma NegativePairRejected(m: map<char, int>, pairs: seq<(string, PyValue)>)
    requires forall c :: c in m ==> IsLower(c)
    requires forall i :: 0 <= i < |pairs| ==> |pairs[i].0| == 1 && pairs[i].0[0] in m && pairs[i].1 == PyInt(m[pairs[i].0[0]])
    requires forall c :: c in m ==> exists i :: 0 <= i < |pairs| && pairs[i].0 == [c]
    requires exists c :: c in m && m[c] < 0
    ensures FromPairs(pairs) == Err(ValueError("variable's exponent must be positive"))
  {
    var c :| c in m && m[c] < 0;
    var i :| 0 <= i < |pairs| && pairs[i].0 == [c];
    PairErrorOfCount(pairs[i]);
    FirstErrorIsFirst(pairs);
    var k :| 0 <= k < |pairs| && PairError(pairs[k].0, pairs[k].1) == FirstError(pairs);
    PairErrorOfCount(pairs[k]);
  }

  /** A one-letter lowercase name with an int exponent is rejected exactly when the exponent is negative. */
  lemma PairErrorOfCount(p: (string, PyValue))
    requires |p.0| == 1 && IsLower(p.0[0]) && p.1.PyInt?
    ensures PairError(p.0, p.1) == if p.1.i < 0 then Some(ValueError("variable's exponent must be positive")) else None
  {
    assert IsAlpha(p.0);
  }

  lemma AllPairsAccepted(m: map<char, int>, pairs: seq<(string, PyValue)>)
    requires forall c :: c in m ==> IsLower(c) && m[c] >= 0
    requires forall i :: 0 <= i < |pairs| ==> |pairs[i].0| == 1 && pairs[i].0[0] in m && pairs[i].1 == PyInt(m[pairs[i].0[0]])
    requires forall c :: c in m ==> exists i :: 0 <= i < |pairs| && pairs[i].0 == [c]
    ensures FromPairs(pairs) == FromCounts(m)
  {
    forall i | 0 <= i < |pairs| ensures PairError(pairs[i].0, pairs[i].1).None? {
      PairErrorOfCount(pairs[i]);
    }
    FirstErrorIsFirst(pairs);
    var got := Collect(pairs);
    var want := FromCounts(m).value;
    forall c | c in got ensures c in want && got[c] == want[c] {
      CollectContents(pairs, c);
    }
    forall c | c in want ensures c in got {
      CollectContents(pairs, c);
      var i :| 0 <= i < |pairs| && pairs[i].0 == [c];
      assert Names(pairs[i], c);
    }
    assert got == want;
  }

  // ---------------------------------------------------------------------
  // Operators

  function Unsupported(op: string, other: PyValue): Error {
    TypeError("unsupported operand type(s) for " + op + ": 'VariablesDict' and '" + TypeName(other) + "'")
  }

  /** The per-letter sums over the union of the letters of a and b. */
  function Sums(a: map<char, nat>, b: map<char, nat>): map<char, int> {
    map l | l in a.Keys + b.Keys :: At(a, l) + At(b, l)
  }

  /** The per-letter differences over the union of the letters of a and b. */
  function Differences(a: map<char, nat>, b: map<char, nat>): map<char, int> {
    map l | l in a.Keys + b.Keys :: At(a, l) - At(b, l)
  }

  lemma SumsExt(a: map<char, nat>, b: map<char, nat>, r: map<char, int>)
    requires r.Keys == a.Keys + b.Keys
    requires forall l :: l in r ==> r[l] == At(a, l) + At(b, l)
    ensures r == Sums(a, b)
  {
  }

  lemma DifferencesExt(a: map<char, nat>, b: map<char, nat>, r: map<char, int>)
    requires r.Keys == a.Keys + b.Keys
    requires forall l :: l in r ==> r[l] == At(a, l) - At(b, l)
    ensures r == Differences(a, b)
  {
  }

  /** a + other: per-letter sum over the union of the letters. */
  function Plus(a: map<char, nat>, other: PyValue): Result<map<char, nat>>
    requires Valid(a) && (other.PyVars? ==> Valid(other.m))
  {
    if !other.PyVars? then Err(Unsupported("+", other))
    else FromCounts(Sums(a, other.m))
  }

  /** a - other: per-letter difference over the union of the letters, which must not be negative. */
  function Minus(a: map<char, nat>, other: PyValue): Result<map<char, nat>>
    requires Valid(a) && (other.PyVars? ==> Valid(other.m))
  {
    if !other.PyVars? then Err(Unsupported("-", other))
    else FromCounts(Differences(a, other.m))
  }

  /** a * other: every exponent multiplied by a non-negative int. */
  function Times(a: map<char, nat>, other: PyValue): Result<map<char, nat>>
    requires Valid(a)
  {
    if !other.PyInt? then Err(Unsupported("*", other))
    else if other.i < 0 then Err(ValueError("can't multiply a VariablesDict and a negative number"))
    else FromCounts(Scaled(a, other.i))
  }

  /** Every exponent of a multiplied by k. */
  function Scaled(a: map<char, nat>, k: int): map<char, int> {
    map l | l in a :: a[l] * k
  }

  /** Every exponent of a divided by k. */
  function Quotients(a: map<char, nat>, k: int): map<char, int>
    requires k != 0
  {
    map l | l in a :: a[l] / k
  }

  /** The loop of __add__: one entry per letter of either operand, holding the sum of the exponents. */
  method SumLetters(a: map<char, nat>, b: map<char, nat>) returns (result: map<char, int>)
    ensures result == Sums(a, b)
  {
    result := map[];
    var todo := a.Keys + b.Keys;
    while todo != {}
      invariant todo <= a.Keys + b.Keys
      invariant result.Keys == (a.Keys + b.Keys) - todo
      invariant forall l :: l in result ==> result[l] == At(a, l) + At(b, l)
      decreases |todo|
    {
      var letter :| letter in todo;
      result := result[letter := At(a, letter) + At(b, letter)];
      todo := todo - {letter};
    }
    SumsExt(a, b, result);
  }

  /** The loop of __sub__: one entry per letter of either operand, holding the difference of the exponents. */
  method SubtractLetters(a: map<char, nat>, b: map<char, nat>) returns (result: map<char, int>)
    ensures result == Differences(a, b)
  {
    result := map[];
    var todo := a.Keys + b.Keys;
    while todo != {}
      invariant todo <= a.Keys + b.Keys
      invariant result.Keys == (a.Keys + b.Keys) - todo
      invariant forall l :: l in result ==> result[l] == At(a, l) - At(b, l)
      decreases |todo|
    {
      var letter :| letter in todo;
      result := result[letter := At(a, letter) - At(b, letter)];
      todo := todo - {letter};
    }
    DifferencesExt(a, b, result);
  }

  /** a + other: TypeError unless other is a VariablesDict, else the sums passed through the constructor. */
  method Add(a: map<char, nat>, other: PyValue) returns (r: Result<map<char, nat>>)
    requires Valid(a) && (other.PyVars? ==> Valid(other.m))
    ensures r == Plus(a, other)
  {
    if !other.PyVars? {
      return Err(Unsupported("+", other));
    }
    var result := SumLetters(a, other.m);
    r := FromCounts(result);
  }

  /** a - other: TypeError unless other is a VariablesDict, else the differences passed through the constructor. */
  method Sub(a: map<char, nat>, other: PyValue) returns (r: Result<map<char, nat>>)
    requires Valid(a) && (other.PyVars? ==> Valid(other.m))
    ensures r == Minus(a, other)
  {
    if !other.PyVars? {
      return Err(Unsupported("-", other));
    }
    var result := SubtractLetters(a, other.m);
    r := FromCounts(result);
  }

  /** The loop of __mul__ over the letters of the dict. */
  method Mul(a: map<char, nat>, other: PyValue) returns (r: Result<map<char, nat>>)
    requires Valid(a)
    ensures r == Times(a, other)
  {
    if !other.PyInt? {
      return Err(Unsupported("*", other));
    } else if other.i < 0 {
      return Err(ValueError("can't multiply a VariablesDict and a negative number"));
    }
    var k := other.i;
    var variables: map<char, int> := map[];
    var todo := a.Keys;
    while todo != {}
      invariant todo <= a.Keys
      invariant variables == map l | l in a.Keys - todo :: a[l] * k
      decreases |todo|
    {
      var l :| l in todo;
      variables := variables[l := a[l] * k];
      todo := todo - {l};
    }
    assert variables == Scaled(a, k);
    r := FromCounts(variables);
  }

  /** a % other: whether every exponent is divisible by a non-negative int. */
  function Mod(a: map<char, nat>, other: PyValue): Result<bool>
    requires Valid(a)
  {
    if !other.PyInt? then Err(Unsupported("%", other))
    else if other.i < 0 then Err(ValueError("can't use modulus with VariablesDict and negative numbers"))
    else if other.i == 0 then
      // all() stops at the first exponent, and l % 0 raises
      if |a| == 0 then Ok(true) else Err(ZeroDivisionError("integer modulo by zero"))
    else Ok(forall l :: l in a ==> a[l] % other.i == 0)
  }

  /** a / other: exact division of every exponent, allowed only when a % other holds. */
  function Div(a: map<char, nat>, other: PyValue): Result<map<char, nat>>
    requires Valid(a)
  {
    if !other.PyInt? then Err(Unsupported("/", other))
    else
      var divisible :- Mod(a, other);
      if !divisible then Err(ValueError("can't divide a VariablesDict by " + Decimal.IntToString(other.i)))
      else if other.i == 0 then Ok(map[])  // reached only when a is empty
      else FromCounts(Quotients(a, other.i))
  }

  // ---------------------------------------------------------------------
  // Laws

  /** (a + b)[l] == a[l] + b[l] for every letter l. */
  lemma PlusAt(a: map<char, nat>, b: map<char, nat>)
    requires Valid(a) && Valid(b)
    ensures Plus(a, PyVars(b)).Ok?
    ensures forall l :: At(Plus(a, PyVars(b)).value, l) == At(a, l) + At(b, l)
  {
  }

  /** + is commutative. */
  lemma PlusCommutative(a: map<char, nat>, b: map<char, nat>)
    requires Valid(a) && Valid(b)
    ensures Plus(a, PyVars(b)) == Plus(b, PyVars(a))
  {
    var x := Plus(a, PyVars(b)).value;
    var y := Plus(b, PyVars(a)).value;
    assert forall l :: l in x <==> l in y;
    assert x == y;
  }

  /** The empty VariablesDict is the identity of +. */
  lemma PlusIdentity(a: map<char, nat>)
    requires Valid(a)
    ensures Plus(a, PyVars(map[])) == Ok(a)
  {
    var x := Plus(a, PyVars(map[])).value;
    assert forall l :: l in x <==> l in a;
    assert x == a;
  }

  /** + rejects anything but a VariablesDict with TypeError. */
  lemma PlusTypeError(a: map<char, nat>, other: PyValue)
    requires Valid(a) && !other.PyVars?
    ensures Plus(a, other).Err? && Plus(a, other).error.TypeError?
  {
  }

  /**
   * a - b succeeds exactly when no exponent of b exceeds that of a, and then
   * (a - b)[l] == a[l] - b[l]; otherwise it raises ValueError.
   */
  lemma MinusAt(a: map<char, nat>, b: map<char, nat>)
    requires Valid(a) && Valid(b)
    ensures Minus(a, PyVars(b)).Ok? <==> forall l :: At(b, l) <= At(a, l)
    ensures Minus(a, PyVars(b)).Ok? ==> forall l :: At(Minus(a, PyVars(b)).value, l) == At(a, l) - At(b, l)
    ensures Minus(a, PyVars(b)).Err? ==> Minus(a, PyVars(b)).error == ValueError("variable's exponent must be positive")
  {
    var m := Differences(a, b);
    if forall l :: At(b, l) <= At(a, l) {
      assert !exists c :: c in m && m[c] < 0;
    } else {
      var l :| At(b, l) > At(a, l);
      assert l in m && m[l] < 0;
    }
  }

  /** a - a is empty. */
  lemma MinusSelf(a: map<char, nat>)
    requires Valid(a)
    ensures Minus(a, PyVars(a)) == Ok(map[])
  {
    MinusAt(a, a);
    var x := Minus(a, PyVars(a)).value;
    assert forall l :: l !in x;
  }

  /**
   * a * k multiplies every exponent by k; a negative k raises ValueError and
   * a * 0 is empty because the zero exponents are dropped.
   */
  lemma TimesAt(a: map<char, nat>, k: int)
    requires Valid(a)
    ensures Times(a, PyInt(k)).Ok? <==> k >= 0
    ensures k >= 0 ==> forall l :: At(Times(a, PyInt(k)).value, l) == At(a, l) * k
    ensures k == 0 ==> Times(a, PyInt(k)) == Ok(map[])
    ensures k < 0 ==> Times(a, PyInt(k)) == Err(ValueError("can't multiply a VariablesDict and a negative number"))
  {
    if k == 0 {
      var x := Times(a, PyInt(0)).value;
      assert forall l :: l !in x;
    }
  }

  /** With k > 0, a % k holds exactly when every exponent, absent letters included, is divisible by k. */
  lemma ModIff(a: map<char, nat>, k: int)
    requires Valid(a) && k > 0
    ensures Mod(a, PyInt(k)) == Ok(forall l :: At(a, l) % k == 0)
  {
    if forall l :: l in a ==> a[l] % k == 0 {
      assert forall l :: At(a, l) % k == 0;
    } else {
      var l :| l in a && a[l] % k != 0;
      assert At(a, l) % k != 0;
    }
  }

  /**
   * With k > 0, a / k is defined exactly when a % k holds (ValueError
   * otherwise), and then (a / k) * k == a.
   */
  lemma DivTimesRoundTrip(a: map<char, nat>, k: int)
    requires Valid(a) && k > 0
    ensures Div(a, PyInt(k)).Ok? <==> Mod(a, PyInt(k)) == Ok(true)
    ensures Div(a, PyInt(k)).Err? ==> Div(a, PyInt(k)).error == ValueError("can't divide a VariablesDict by " + Decimal.IntToString(k))
    ensures Div(a, PyInt(k)).Ok? ==> Times(Div(a, PyInt(k)).value, PyInt(k)) == Ok(a)
  {
    if Mod(a, PyInt(k)) == Ok(true) {
      var q := Quotients(a, k);
      forall l | l in q ensures q[l] > 0 && q[l] * k == a[l] {
        DivExact(a[l], k);
      }
      FromCountsOfPositive(q);
      var d := Div(a, PyInt(k)).value;
      assert d == q;
      var back := Scaled(d, k);
      assert back == a;
      FromCountsOfPositive(back);
    }
  }

  lemma DivExact(x: nat, k: int)
    requires k > 0 && x % k == 0 && x > 0
    ensures x / k > 0 && (x / k) * k == x
  {
  }

  lemma MulDiv(x: nat, k: int)
    requires k > 0 && x > 0
    ensures x * k > 0 && (x * k) % k == 0 && (x * k) / k == x
  {
    var q, r := (x * k) / k, (x * k) % k;
    assert x * k == q * k + r && 0 <= r < k;
    assert (x - q) * k == r;
    if x - q != 0 {
      ProductMagnitude(x - q, k);
      assert false;
    }
    ProductMagnitude(x, k);
  }

  lemma ProductMagnitude(d: int, k: int)
    requires k > 0 && d != 0
    ensures d > 0 ==> d * k >= k
    ensures d < 0 ==> d * k <= -k
  {
  }

  /** Dividing a product by the same positive factor gives back the dict. */
  lemma TimesDivRoundTrip(a: map<char, nat>, k: int)
    requires Valid(a) && k > 0
    ensures Times(a, PyInt(k)).Ok?
    ensures Div(Times(a, PyInt(k)).value, PyInt(k)) == Ok(a)
  {
    var s := Scaled(a, k);
    forall l | l in s ensures s[l] > 0 {
      MulDiv(a[l], k);
    }
    FromCountsOfPositive(s);
    var p := Times(a, PyInt(k)).value;
    assert p == s;
    forall l | l in p ensures p[l] % k == 0 && p[l] / k == a[l] {
      MulDiv(a[l], k);
    }
    assert Mod(p, PyInt(k)) == Ok(true);
    var q := Quotients(p, k);
    assert q == a;
    FromCountsOfPositive(q);
  }

  // ---------------------------------------------------------------------
  // Immutability

  /** The dict methods VariablesDict overrides to forbid changes. */
  datatype Mutation =
    | SetItem(key: string, value: PyValue)
    | DelItem(key: string)
    | Pop(key: string)
    | Clear

  /** Every item-changing method raises TypeError, so a VariablesDict never changes after construction. */
  function Mutate(m: map<char, nat>, op: Mutation): (r: Result<map<char, nat>>)
    ensures r == Err(TypeError("VariablesDict is immutable"))
  {
    Err(TypeError("VariablesDict is immutable"))
  }

  // ---------------------------------------------------------------------
  // Representation and hashing

  function Letter(i: nat): (c: char)
    requires i < 26
    ensures IsLower(c)
  {
    (('a' as int) + i) as char
  }

  /** The items whose letter is Letter(i) or later, in alphabetical order. */
  function ItemsFrom(m: map<char, nat>, i: nat): (r: seq<(char, nat)>)
    requires i <= 26
    ensures forall k :: 0 <= k < |r| ==> r[k].0 in m && m[r[k].0] == r[k].1 && (i as int) <= (r[k].0 as int) - ('a' as int) < 26
    ensures forall k, k' :: 0 <= k < k' < |r| ==> r[k].0 < r[k'].0
    decreases 26 - i
  {
    if i == 26 then []
    else
      var rest := ItemsFrom(m, i + 1);
      if Letter(i) in m then [(Letter(i), m[Letter(i)])] + rest else rest
  }

  lemma {:induction false} ItemsFromComplete(m: map<char, nat>, i: nat, c: char)
    requires i <= 26 && c in m && IsLower(c) && (i as int) <= (c as int) - ('a' as int)
    ensures exists k :: 0 <= k < |ItemsFrom(m, i)| && ItemsFrom(m, i)[k].0 == c
    decreases 26 - i
  {
    if i < 26 {
      var rest := ItemsFrom(m, i + 1);
      if c == Letter(i) {
        assert ItemsFrom(m, i)[0].0 == c;
      } else {
        ItemsFromComplete(m, i + 1, c);
        var k :| 0 <= k < |rest| && rest[k].0 == c;
        if Letter(i) in m {
          var r := ItemsFrom(m, i);
          assert r == [(Letter(i), m[Letter(i)])] + rest;
          assert r[k + 1] == rest[k];
        } else {
          assert ItemsFrom(m, i) == rest;
        }
      }
    }
  }

  /** The sorted (letter, exponent) tuple the source hashes. */
  function Items(m: map<char, nat>): seq<(char, nat)> {
    ItemsFrom(m, 0)
  }

  /**
   * The hash key is order-independent and determines the dict: two
   * VariablesDicts have the same sorted items exactly when they are equal,
   * and the items are strictly increasing in the letter.
   */
  lemma ItemsKey(a: map<char, nat>, b: map<char, nat>)
    requires Valid(a) && Valid(b)
    ensures Items(a) == Items(b) <==> a == b
    ensures forall k, k' :: 0 <= k < k' < |Items(a)| ==> Items(a)[k].0 < Items(a)[k'].0
  {
    if Items(a) == Items(b) {
      forall c | c in a ensures c in b && b[c] == a[c] {
        ItemsFromComplete(a, 0, c);
      }
      forall c | c in b ensures c in a {
        ItemsFromComplete(b, 0, c);
      }
    }
  }

  function RenderItems(items: seq<(char, nat)>): string {
    if items == [] then ""
    else
      var head := "'" + [items[0].0] + "': " + Decimal.NatToString(items[0].1);
      if |items| == 1 then head else head + ", " + RenderItems(items[1..])
  }

  /** str(v): the pairs in alphabetical order, written as a dict literal. */
  function Str(m: map<char, nat>): (s: string)
    ensures |s| >= 2 && s[0] == '{' && s[|s| - 1] == '}'
  {
    "{" + RenderItems(Items(m)) + "}"
  }
}
