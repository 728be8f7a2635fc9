# ruffini, modelled in Dafny

ruffini is a small Python library for polynomial algebra. This project
models its core and proves properties of the model. The core has four
parts:

- `VariablesDict`. An immutable dictionary from a one-letter variable name to
  a positive whole exponent. It validates its pairs and answers 0 for a
  missing letter. It offers `+`, `-`, `*`, `/` and `%` on exponents.
- `Monomial`. A coefficient and a list of variable tokens such as `"x"`,
  `"y^3"` or `"x^(-2)"`. The constructor regroups the tokens in place:
  - the exponents are summed per letter;
  - zero totals are dropped;
  - a negative total raises `ValueError("Not a monomial")`;
  - each letter is written once, and the tokens are sorted.

  The operators build a new token list and construct a new Monomial from it.
- `Polynomial`. A list of Monomials. The constructor reduces it in place:
  - terms whose variables join to the same string are summed;
  - one Monomial is rebuilt per group, in first-occurrence order;
  - the degree becomes the largest term degree.
- `FPolynomial` and `factorize`. `FPolynomial` is a tuple of polynomial
  factors:
  - factors equal to 1 are dropped;
  - at least one Polynomial is required;
  - the factors are sorted by frequency;
  - it is written with `(f)**n` for repeated factors;
  - `eval` multiplies the factors out.

  `factorize` takes the greatest common factor of the terms out of a
  polynomial.

Modules follow the program:

- `Variables` (src/ruffini/variables.py).
- `Tokens` and `Monomials` (src/ruffini/monomials.py). `Tokens` holds the
  token normal form as pure functions. `Monomials` holds the `Monomial` class,
  whose loops are proved equal to those functions.
- `Polynomials` (src/ruffini/polynomials.py).
- `FPolynomials` (src/ruffini/fpolynomials.py).
- Supporting modules:
  - `Errors`: the Python exceptions as a `Result`.
  - `Decimal`: `str(int)` and `int(str)`.
  - `StringOrder`: Python string order and `list.sort()`.
  - `Numbers`: int/float coefficients and their arithmetic.

Imperative code is modelled imperatively:

- `Monomial` and `Polynomial` are classes whose constructors and methods
  update their fields.
- Every loop of the source is a method with invariants, proved equal to a
  specification function.
- The algebraic facts are lemmas about those functions.

`VariablesDict` and `FPolynomial` are immutable values, so they are a
`map<char, nat>` and a `seq` of factors.

`FPolynomial` and `factorize` use Polynomial and Monomial operations of three
kinds in this revision:

- missing from the classes: polynomial equality, `len`, `*`, `str` and term
  iteration, and `Monomial.gcd`;
- present and modelled elsewhere: Monomial `/` (`Monomial.__truediv__`,
  modelled by `Monomials.Monomial.Div`) and `Polynomial(m)` for a Monomial
  (the ordinary constructor, `Polynomials.Polynomial.New`);
- present but failing: `Polynomial(x)` for a number raises AttributeError,
  because `reduce` calls `variables_str()` on the int.

For `FPolynomial` and `factorize` all of them are kept abstract, as fields of
an `Ops` record over an abstract factor type. A property that needs a law
about them says so in its requires clause:

- `FPolynomials.ConversionsKeepOne`: a conversion to a Polynomial equals 1
  only when its input equals 1 (a number whose value is 1, or a Monomial
  equal to 1).
- `FPolynomials.Associative`.
- `FPolynomials.FactorLaws`, which holds two laws:
  - multiplying by 1 changes nothing;
  - a polynomial equals the product of its terms' gcd and the polynomial of
    the quotients.

## Model

| member | source | states |
|---|---|---|
| Variables.New | src/ruffini/variables.py:92-120 | the constructor's loop yields exactly the validated map of `variables`, or of the keyword pairs when `variables` is empty, or the first error |
| Variables.FirstErrorIsFirst | src/ruffini/variables.py:97-112 | construction fails exactly when some pair is invalid, and then with the error of the first invalid pair |
| Variables.ValidationOrder | src/ruffini/variables.py:98-112 | on the documented examples, each check raises its own message, and a pair failing two checks gets the message of the earlier one |
| Variables.CollectValid | src/ruffini/variables.py:114-117 | a built dict has only lower-case letters with positive exponents |
| Variables.CollectContents | src/ruffini/variables.py:114-115 | a letter is stored exactly when some pair names it (in either case) with a non-zero exponent; its exponent is the last non-zero one given |
| Variables.Get | src/ruffini/variables.py:178-181 | reading a letter gives its exponent, and 0 when it is absent |
| Variables.Mutate | src/ruffini/variables.py:124-158 | item assignment, deletion, pop and clear all raise TypeError("VariablesDict is immutable") |
| Variables.FromCounts | src/ruffini/variables.py:114-117 | passing computed exponents back through the constructor yields a valid dict |
| Variables.FromCountsOfPositive | src/ruffini/variables.py:114-117 | positive exponents pass through the constructor unchanged |
| Variables.FromCountsIsFromPairs | src/ruffini/variables.py:92-117 | rebuilding from a computed map is the constructor applied to that map's pairs |
| Variables.NegativePairRejected | src/ruffini/variables.py:111-112 | a computed negative exponent makes the constructor raise "variable's exponent must be positive" |
| Variables.AllPairsAccepted | src/ruffini/variables.py:97-117 | a computed map without negative exponents is accepted, and zero entries are dropped |
| Variables.SumLetters | src/ruffini/variables.py:251-253 | the loop of `+` fills one entry per letter of either operand with the sum of the exponents |
| Variables.SubtractLetters | src/ruffini/variables.py:290-292 | the loop of `-` fills one entry per letter of either operand with the difference |
| Variables.Add | src/ruffini/variables.py:248-254 | `+` is TypeError for a non-VariablesDict, otherwise the sums passed through the constructor |
| Variables.Sub | src/ruffini/variables.py:287-293 | `-` is TypeError for a non-VariablesDict, otherwise the differences passed through the constructor |
| Variables.Mul | src/ruffini/variables.py:324-332 | `*` is TypeError for a non-int, ValueError for a negative int, otherwise the scaled exponents |
| Variables.PlusAt | src/ruffini/variables.py:251-254 | the sum always succeeds and has, at every letter, the sum of the two exponents |
| Variables.PlusCommutative | src/ruffini/variables.py:251-254 | `a + b == b + a` |
| Variables.PlusIdentity | src/ruffini/variables.py:251-254 | adding the empty dict gives the dict back |
| Variables.PlusTypeError | src/ruffini/variables.py:248-249 | adding anything but a VariablesDict raises TypeError |
| Variables.MinusAt | src/ruffini/variables.py:287-293 | the difference succeeds exactly when no exponent of the right operand is larger; it is then the per-letter difference; otherwise ValueError("variable's exponent must be positive") |
| Variables.MinusSelf | src/ruffini/variables.py:290-293 | `a - a` is the empty dict |
| Variables.TimesAt | src/ruffini/variables.py:324-332 | `a * k` succeeds exactly for k >= 0 and scales every exponent; `a * 0` is empty; a negative k raises the source's ValueError |
| Variables.ModIff | src/ruffini/variables.py:406-411 | for k > 0, `a % k` holds exactly when every exponent is divisible by k |
| Variables.DivTimesRoundTrip | src/ruffini/variables.py:368-374 | for k > 0, `a / k` succeeds exactly when `a % k`, otherwise it raises "can't divide a VariablesDict by k"; then `(a / k) * k == a` |
| Variables.TimesDivRoundTrip | src/ruffini/variables.py:368-374 | for k > 0, `(a * k) / k == a` |
| Variables.ItemsKey | src/ruffini/variables.py:415-426 | the sorted item tuple that is hashed is strictly increasing in the letter and determines the dict: equal items exactly when equal dicts |
| Variables.Str | src/ruffini/variables.py:202-204 | the string is enclosed in braces |
| Variables.Lower | src/ruffini/variables.py:115 | lower-casing a letter gives a lower-case letter and leaves a lower-case one alone |
| Decimal.NatToString | src/ruffini/monomials.py:55 | str(n) is a non-empty digit string without a leading zero |
| Decimal.ParseIntOfIntToString | src/ruffini/monomials.py:37 | int(str(e)) == e for every int e |
| StringOrder.Sort | src/ruffini/monomials.py:59 | list.sort() returns a permutation of the list |
| StringOrder.SortSorted | src/ruffini/monomials.py:59 | list.sort() leaves the list in non-decreasing string order |
| StringOrder.SortedUnique | src/ruffini/monomials.py:59 | two sorted lists with the same elements are equal, so the sorted result does not depend on the input order |
| StringOrder.SortOfSorted | src/ruffini/monomials.py:59 | sorting a sorted list leaves it as it is |
| StringOrder.LessTotal | src/ruffini/monomials.py:59 | Python's string order is total |
| StringOrder.LessTransitive | src/ruffini/monomials.py:59 | Python's string order is transitive |
| Numbers.Plus | src/ruffini/monomials.py:89 | coefficient addition: the value is the sum, and the result is an int exactly when both operands are |
| Numbers.Minus | src/ruffini/monomials.py:103 | coefficient subtraction, with the same result type rule |
| Numbers.Times | src/ruffini/monomials.py:119 | coefficient multiplication, with the same result type rule |
| Numbers.Quotient | src/ruffini/monomials.py:136 | true division is a float whose product with the divisor is the dividend; division by zero raises ZeroDivisionError |
| Numbers.Pow | src/ruffini/monomials.py:170 | `c ** n`: defined unless c is zero and n is negative; the value is the power; an int exactly for an int base and n >= 0 |
| Tokens.Head | src/ruffini/monomials.py:31 | the letter of a token is the text before the first caret |
| Tokens.SplitJoin | src/ruffini/monomials.py:31-33 | splitting `letter + "^" + rest` on the caret gives back the letter and the rest |
| Tokens.StripParentheses | src/ruffini/monomials.py:34-36 | removing the parentheses from `"(" + d + ")"` gives d |
| Tokens.ParsePower | src/ruffini/monomials.py:32-37 | a token `letter^e` parses to (letter, e) |
| Tokens.ParseParenthesised | src/ruffini/monomials.py:34-37 | a token `letter^(e)` parses to (letter, e) |
| Tokens.ParseRender | src/ruffini/monomials.py:30-39 | parsing the token regroup writes for (letter, e) gives back (letter, e) |
| Tokens.CanonicalRender | src/ruffini/monomials.py:54-56 | the written token is in normal form and its letter is the letter |
| Tokens.ParsedIndex | src/ruffini/monomials.py:30-39 | the token list parses exactly when every token parses, to the per-token results in order |
| Tokens.ParsedStopsAt | src/ruffini/monomials.py:37 | parsing stops with the error of the first token whose exponent int() rejects |
| Tokens.CountTotals | src/ruffini/monomials.py:41-45 | the counter holds, for each letter met, the sum of its exponents; a letter not counted has sum 0 |
| Tokens.FirstNegative | src/ruffini/monomials.py:49-53 | the rewriting loop stops at the first letter, in counter order, whose total is negative |
| Tokens.EmitTokens | src/ruffini/monomials.py:49-56 | every rewritten token is in normal form, names a counted letter and carries its total |
| Tokens.EmitDistinct | src/ruffini/monomials.py:49-56 | no letter is written twice |
| Tokens.EmitCovers | src/ruffini/monomials.py:49-56 | every letter with a positive total is written |
| Tokens.EmitSum | src/ruffini/monomials.py:49-62 | the exponents written add up to the sum of the totals |
| Tokens.SortFacts | src/ruffini/monomials.py:59 | sorting keeps the tokens, their normal form and their exponent sum |
| Tokens.RegroupFails | src/ruffini/monomials.py:30-53 | regrouping succeeds exactly when every token parses and no letter's total is negative; a negative total raises ValueError("Not a monomial") |
| Tokens.RegroupExponent | src/ruffini/monomials.py:26-62 | the regrouped list is in normal form and has the same exponent per letter as the input |
| Tokens.RegroupCanonical | src/ruffini/monomials.py:26-62 | as RegroupExponent, and the degree is the sum of all exponents |
| Tokens.CanonicalUnique | src/ruffini/monomials.py:58-59 | a normal form is determined by its exponents per letter |
| Tokens.RegroupIdempotent | src/ruffini/monomials.py:17-62 | regrouping a list in normal form leaves it unchanged |
| Tokens.ReciprocalShape | src/ruffini/monomials.py:141-147 | the divisor's tokens are rewritten as `letter^-e` |
| Tokens.PoweredShape | src/ruffini/monomials.py:162-168 | the tokens are rewritten as `letter^(e*n)` |
| Tokens.ProductLaw | src/ruffini/monomials.py:122-123 | regrouping the concatenation of two normal forms adds the exponents per letter and the degrees |
| Tokens.QuotientLaw | src/ruffini/monomials.py:139-149 | dividing succeeds exactly when no exponent of the divisor is larger; the result then has the differences; otherwise "Not a monomial" |
| Tokens.PowerLaw | src/ruffini/monomials.py:160-170 | raising to n succeeds exactly when n >= 0 or there are no variables; exponents and degree are multiplied by n; the power 0 has no variables |
| Tokens.JoinConcat | src/ruffini/monomials.py:14 | `variables_str` of a concatenation of variable lists is the concatenation of their strings, so the grouping key of a term is its tokens written side by side |
| Monomials.Monomial.New | src/ruffini/monomials.py:2-15 | the constructor yields a valid Monomial with the coefficient and the regrouped tokens and degree, or the regrouping error |
| Monomials.Monomial.RegroupVariables | src/ruffini/monomials.py:17-62 | the method leaves the variables in normal form and the degree as the exponent sum, or raises its error after clearing the list |
| Monomials.Monomial.RewriteTotals | src/ruffini/monomials.py:47-56 | the rewriting loop writes exactly the tokens of the totals before the first negative one, and reports whether there is one |
| Monomials.Monomial.CountTokens | src/ruffini/monomials.py:26-45 | the counting loop builds the counter of the parsed tokens, or stops at the first error with the list unchanged |
| Monomials.Monomial.Str | src/ruffini/monomials.py:64-78 | "1" for coefficient 1 and no variables, the variables for coefficient 1, "0" for coefficient 0, otherwise the coefficient followed by the variables |
| Monomials.Monomial.Add | src/ruffini/monomials.py:80-92 | equal variables give a Monomial with the summed coefficient and the same variables and degree; otherwise ValueError("The variables are not equals") |
| Monomials.Monomial.Sub | src/ruffini/monomials.py:94-106 | as Add, with the difference of the coefficients |
| Monomials.Monomial.Mul | src/ruffini/monomials.py:108-123 | by a number: the coefficient is scaled; by a Monomial: coefficients multiply, exponents add per letter and degrees add |
| Monomials.Monomial.Div | src/ruffini/monomials.py:125-149 | by a number: the coefficient is divided; by a Monomial: it succeeds exactly when no exponent of the divisor is larger, exponents and degrees subtract, otherwise "Not a monomial"; division by zero raises |
| Monomials.Monomial.Pow | src/ruffini/monomials.py:151-170 | the exponents and the degree are multiplied by n; a negative n with variables raises "Not a monomial"; the power 0 has no variables |
| Monomials.Monomial.ReciprocalTokens | src/ruffini/monomials.py:140-147 | the loop of `/` builds exactly the reciprocal token list |
| Monomials.Monomial.PoweredTokens | src/ruffini/monomials.py:161-168 | the loop of `**` builds exactly the powered token list |
| Monomials.MakesFields | src/ruffini/monomials.py:2-15 | a constructed Monomial has the regrouped variables and degree, or the construction fails with the regrouping error |
| Monomials.QuotientMade | src/ruffini/monomials.py:139-149 | the Monomial the division constructs has the per-letter differences, or "Not a monomial" |
| Monomials.PowerMade | src/ruffini/monomials.py:160-170 | the Monomial the power constructs has the scaled exponents, or "Not a monomial" |
| Polynomials.FoldPlus | src/ruffini/polynomials.py:22-25 | summing a group's coefficients in order gives their sum, an int exactly when all are ints |
| Polynomials.FirstIndex | src/ruffini/polynomials.py:22-26 | the first term with a given variables string |
| Polynomials.Group | src/ruffini/polynomials.py:19-26 | `counter` and `var_to_list` have exactly the keys met, in `order` |
| Polynomials.GroupShape | src/ruffini/polynomials.py:19-26 | keys are distinct, at most one per term, and each kept variable list joins to its key |
| Polynomials.GroupOrder | src/ruffini/polynomials.py:19-29 | the keys come in the order of their first occurrence |
| Polynomials.ReducedDistinct | src/ruffini/polynomials.py:28-30 | no two reduced terms have the same variables string |
| Polynomials.ReducedCovers | src/ruffini/polynomials.py:21-30 | a variables string occurs in the reduced terms exactly when it occurs in the input |
| Polynomials.ReducedSums | src/ruffini/polynomials.py:21-25 | each reduced coefficient is the in-order sum of the coefficients of the terms with that variables string |
| Polynomials.ReducedFirst | src/ruffini/polynomials.py:26-30 | each reduced term keeps the variable list of the first term of its group, and the groups come in first-occurrence order |
| Polynomials.ReducedOfDistinct | src/ruffini/polynomials.py:11-30 | terms with distinct variables strings are left as they are |
| Polynomials.ReducedIdempotent | src/ruffini/polynomials.py:11-30 | reducing twice is reducing once |
| Polynomials.ReducedEmpty | src/ruffini/polynomials.py:29-33 | the reduction is empty exactly when the input is |
| Polynomials.Max | src/ruffini/polynomials.py:33 | max() of a non-empty list is a member that bounds every element |
| Polynomials.CountTerms | src/ruffini/polynomials.py:19-26 | the loop builds exactly `order`, `counter` and `var_to_list` of the grouping |
| Polynomials.NewTerms | src/ruffini/polynomials.py:29-30 | one fresh valid Monomial per key, with the group's sum and variable list |
| Polynomials.Polynomial.Reduce | src/ruffini/polynomials.py:11-33 | the terms become the reduction of the old terms, as fresh valid Monomials, and the degree becomes the largest term degree; no terms raise max()'s ValueError |
| Polynomials.Polynomial.Rebuild | src/ruffini/polynomials.py:28-33 | the new terms are one Monomial per group, and the degree is their largest degree |
| Polynomials.Polynomial.New | src/ruffini/polynomials.py:4-9 | construction from no Monomial raises max()'s ValueError; otherwise the polynomial is valid and its terms are the reduction of the arguments |
| FPolynomials.Mapped | src/ruffini/fpolynomials.py:62-73 | the kept factors, at most as many as the arguments; MappedSingle and MappedAppend state their exact contents and order |
| FPolynomials.FrequencySort | src/ruffini/fpolynomials.py:76 | the sorted factors are a permutation of the kept factors |
| FPolynomials.Build | src/ruffini/fpolynomials.py:56-78 | an FPolynomial has at most as many factors as arguments; BuildLength gives the exact number |
| FPolynomials.New | src/ruffini/fpolynomials.py:56-78 | the constructor's checks and loop give exactly Build |
| FPolynomials.BuildErrors | src/ruffini/fpolynomials.py:59-65 | "There must be at least a polynomial" exactly when no argument is a Polynomial; the element TypeError exactly when there is one and some argument has another type; success exactly otherwise |
| FPolynomials.MappedSingle | src/ruffini/fpolynomials.py:68-73 | one argument is dropped when it equals 1, stored as it is when it is a Polynomial, and stored converted otherwise |
| FPolynomials.MappedAppend | src/ruffini/fpolynomials.py:62-73 | the kept factors of a concatenation are those of each part in turn: every occurrence of an argument is kept or dropped on its own, in input order |
| FPolynomials.MappedLength | src/ruffini/fpolynomials.py:62-73 | exactly one polynomial is kept per argument not equal to 1 |
| FPolynomials.BuildLength | src/ruffini/fpolynomials.py:56-78 | the length of a built FPolynomial is the number of arguments not equal to 1 |
| FPolynomials.BuildDropsOne | src/ruffini/fpolynomials.py:39-40 | `len(FPolynomial(5, p, 1)) == 2` for a polynomial p not equal to 1 |
| FPolynomials.MappedMembers | src/ruffini/fpolynomials.py:67-73 | a polynomial is stored exactly when some argument not equal to 1 converts to it |
| FPolynomials.NoStoredOne | src/ruffini/fpolynomials.py:68-69 | no stored factor equals 1 |
| FPolynomials.FrequencySortOrder | src/ruffini/fpolynomials.py:76 | the stored order is a permutation with non-increasing frequency, and factors of equal frequency keep their input order |
| FPolynomials.Str | src/ruffini/fpolynomials.py:104-131 | the loop of `__str__` writes exactly Render |
| FPolynomials.StrStep | src/ruffini/fpolynomials.py:112-129 | one loop turn skips a factor already done, and otherwise appends its piece and records it as done |
| FPolynomials.StrTurn | src/ruffini/fpolynomials.py:111-129 | one turn of the loop leaves the written text and the done list equal to those of the pieces for the first i + 1 factors |
| FPolynomials.WritePiece | src/ruffini/fpolynomials.py:116-127 | the text appended for a factor is the text of its piece, as PiecesShape classifies it |
| FPolynomials.RenderOne | src/ruffini/fpolynomials.py:109-110 | one factor is written as its own string, without parentheses |
| FPolynomials.PiecesCover | src/ruffini/fpolynomials.py:112-115 | the written factors are exactly the stored ones |
| FPolynomials.PiecesDistinct | src/ruffini/fpolynomials.py:112-129 | no factor is written twice |
| FPolynomials.PiecesOrder | src/ruffini/fpolynomials.py:112-129 | factors are written in the order of their first occurrence |
| FPolynomials.PiecesShape | src/ruffini/fpolynomials.py:117-127 | `(f)**n` exactly for a factor counted n > 1 times; bare exactly for the first factor when counted once with one term; parenthesised otherwise |
| FPolynomials.Eval | src/ruffini/fpolynomials.py:153 | eval succeeds exactly on a non-empty FPolynomial; the empty one raises reduce()'s TypeError |
| FPolynomials.ProductAppend | src/ruffini/fpolynomials.py:153 | with an associative product, the product of a concatenation is the product of the two products |
| FPolynomials.EvalPair | src/ruffini/fpolynomials.py:153 | eval of two factors is their product |
| FPolynomials.Gcf | src/ruffini/fpolynomials.py:183-223 | no terms raise reduce()'s TypeError; a gcd equal to 1 returns the arguments unchanged; otherwise the polynomial of the quotients, with the gcd appended to the factors |
| FPolynomials.GcfFactors | src/ruffini/fpolynomials.py:230-237 | the arguments factorize passes to FPolynomial end with the remaining polynomial |
| FPolynomials.GcfCases | src/ruffini/fpolynomials.py:215-223 | those arguments are the polynomial alone when the gcd is 1, and otherwise the gcd followed by the quotient polynomial |
| FPolynomials.Factorize | src/ruffini/fpolynomials.py:226-227 | a non-Polynomial raises "Can't factorize object of type '…'" with its type name |
| FPolynomials.BuildSingle | src/ruffini/fpolynomials.py:62-78 | an FPolynomial of one polynomial not equal to 1 stores just it |
| FPolynomials.BuildPair | src/ruffini/fpolynomials.py:62-78 | an FPolynomial of a gcd not equal to 1 and a quotient stores both factors in order, or just the gcd when the quotient equals 1 |
| FPolynomials.FactorizeEval | src/ruffini/fpolynomials.py:215-237 | under the factor laws, eval of factorize(p) is p, for a polynomial with terms that is not 1 |

## Left out

- The standard-library behaviour the model relies on is restated:
  - `str.isalpha` and `str.lower` cover ASCII letters only;
  - `int()` of a string accepts ASCII whitespace, an optional sign and digits with single underscores, not other Unicode digits;
  - `list.sort`, `sum`, `max`, `any`, `list.count` and `functools.reduce` are functions over sequences.
- Decimal.ParseInt: its error message puts the argument between single quotes as it is. Python formats it with `repr`, which uses double quotes for a string containing `'` and escapes backslashes, tabs and other control characters; that escaping is not modelled.
- Floats are exact reals. `str()` of a float is a parameter of `Monomials.Monomial.Str`. Rounding is not modelled.
- The `bool` subclass of `int` is not modelled. True and False count as other objects.
- A string coefficient, which `Monomial.__init__` passes to `eval`, is not modelled. Coefficients are numbers only.
- Operands of a type the Monomial operators do not expect are typed away. The TypeErrors Python would raise for them are not modelled.
- `VariablesDict(**kwargs)` is modelled as a second list of pairs.
- Hash values are not modelled. `Variables.ItemsKey` states the property of the hashed tuple instead.
- `__repr__` of VariablesDict is the same as `__str__`, so it has no member of its own.
- List aliasing is modelled by value; the affected list is a `seq` field.
  - `Polynomial.reduce` builds each new Monomial from the same list object as the first term of its group. The constructor then clears and refills that list, so the old term sees the change.
  - Regrouping a normal form leaves it unchanged (`Tokens.RegroupIdempotent`), so the contents agree. Object identity is not modelled.
- Polynomials.Polynomial.New: it requires its arguments to be valid Monomials, for the same reason as Reduce.
- Polynomials.Polynomial.Reduce: it requires its terms to be valid Monomials, which the constructor guarantees for every Monomial the source can build. Hand-mutated terms are not modelled.
- Polynomials.Group: terms are grouped by their joined variables string, as the source does. The model therefore inherits the merging of lists such as `["a", "b"]` and `["ab"]`.
- Monomial `degree` reads 0 between construction and the end of regrouping; the source leaves it unset there.
- FPolynomials: the factor type, its equality, `len`, `*`, `str`, term iteration, `Monomial.gcd`, Monomial division and the conversions to Polynomial are parameters. Most of these are not in the repository's `Polynomial` and `Monomial` classes. Monomial division and `Polynomial(m)` are, and are modelled on their own by `Monomials.Monomial.Div` and `Polynomials.Polynomial.New`, but `FPolynomial` and `factorize` are not wired to those models. Their laws are stated as requirements where a property needs them.
- An exception raised inside one of those operations is not modelled. One example is the AttributeError that `Polynomial(number)` raises at src/ruffini/polynomials.py:22, where `reduce` calls `variables_str()` on an int.
- Variables.Str: its contract states only the braces around the items. The letter order of the items is stated by `Variables.ItemsKey` over the same `Items` sequence.
- Not part of this model, because they are outside the core:
  - src/ruffini/equations.py;
  - the top-level monomials.py;
  - run.py;
  - the documentation build;
  - the tests.
