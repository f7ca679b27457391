/** The operation registry of src/operations.ts: order-sensitive scalar
    functions over the ordered values of a compute vertex's inputs.

    Numbers are exact reals. A result that JavaScript would not produce as a
    finite number -- a `reduce` on an empty array (which throws), `Infinity`,
    `NaN` or `undefined` -- is `None`. */
module Operations {
  import opened Wrappers

  /** The functions the registry can hold. */
  datatype Op =
    | Sum | Difference | Product | Quotient
    | Min | Max | ClampMin | ClampMax | Clamp
    | Floor | Ceil | Round
    | Average

  /** The exported `operations` object: key to function. */
  const Registry: map<string, Op> :=
    map[
      "SUM" := Sum, "DIF" := Difference, "PRD" := Product, "QUO" := Quotient,
      "MIN" := Min, "MAX" := Max,
      "CLAMP_MIN" := ClampMin, "CLAMP_MAX" := ClampMax, "CLAMP" := Clamp,
      "FLOOR" := Floor, "CEIL" := Ceil, "ROUND" := Round,
      "AVG" := Average
    ]

  /** `operations[key]`; an absent key (or no key at all) finds nothing. */
  function Lookup(key: Option<string>): (r: Option<Op>)
    ensures r.Some? <==> key.Some? && key.value in Registry
    ensures r.Some? ==> r.value == Registry[key.value]
  {
    if key.Some? && key.value in Registry then Some(Registry[key.value]) else None
  }

  /** "SUM" finds the summing fold. */
  lemma LookupSum()
    ensures Lookup(Some("SUM")) == Some(Sum)
  {
    assert "SUM" in Registry;
  }

  // ---------------------------------------------------------------------------
  // Reference definitions (right-recursive), independent of the folds below.

  function Total(s: seq<real>): real {
    if s == [] then 0.0 else s[0] + Total(s[1..])
  }

  function Prod(s: seq<real>): real {
    if s == [] then 1.0 else s[0] * Prod(s[1..])
  }

  // ---------------------------------------------------------------------------
  // `a.reduce(f)` with no seed: the accumulator starts at a[0] and folds
  // a[1..] from the left; an empty array throws.

  function FoldLeft(f: (real, real) -> real, acc: real, s: seq<real>): real
    decreases |s|
  {
    if s == [] then acc else FoldLeft(f, f(acc, s[0]), s[1..])
  }

  function Reduce(f: (real, real) -> real, a: seq<real>): (r: Option<real>)
    ensures r.None? <==> a == []
    ensures |a| == 1 ==> r == Some(a[0])
  {
    if a == [] then None else Some(FoldLeft(f, a[0], a[1..]))
  }

  function Plus(l: real, n: real): real { l + n }
  function Minus(l: real, n: real): real { l - n }
  function Times(l: real, n: real): real { l * n }

  function SumOf(a: seq<real>): (r: Option<real>)
    ensures r.None? <==> a == []
    ensures |a| == 1 ==> r == Some(a[0])
  {
    Reduce(Plus, a)
  }

  function DifferenceOf(a: seq<real>): (r: Option<real>)
    ensures r.None? <==> a == []
    ensures |a| == 1 ==> r == Some(a[0])
  {
    Reduce(Minus, a)
  }

  function ProductOf(a: seq<real>): (r: Option<real>)
    ensures r.None? <==> a == []
    ensures |a| == 1 ==> r == Some(a[0])
  {
    Reduce(Times, a)
  }

  /** Left fold of `/`. A zero divisor makes JavaScript produce `Infinity`
      or `NaN`, and every later division keeps it non-finite. */
  function QuoFold(acc: real, s: seq<real>): real
    requires forall i :: 0 <= i < |s| ==> s[i] != 0.0
    decreases |s|
  {
    if s == [] then acc else QuoFold(acc / s[0], s[1..])
  }

  function QuotientOf(a: seq<real>): (r: Option<real>)
    ensures r.Some? <==> a != [] && forall i :: 1 <= i < |a| ==> a[i] != 0.0
  {
    if a == [] then None
    else if exists i :: 1 <= i < |a| && a[i] == 0.0 then None
    else Some(QuoFold(a[0], a[1..]))
  }

  // ---------------------------------------------------------------------------
  // `Math.min(...a)` / `Math.max(...a)`; on [] they give +-Infinity.

  function MinOf(a: seq<real>): (r: real)
    requires a != []
    ensures r in a
    ensures forall i :: 0 <= i < |a| ==> r <= a[i]
  {
    if |a| == 1 then a[0]
    else
      var m := MinOf(a[1..]);
      if a[0] <= m then a[0] else m
  }

  function MaxOf(a: seq<real>): (r: real)
    requires a != []
    ensures r in a
    ensures forall i :: 0 <= i < |a| ==> a[i] <= r
  {
    if |a| == 1 then a[0]
    else
      var m := MaxOf(a[1..]);
      if a[0] >= m then a[0] else m
  }

  function Least(a: seq<real>): (r: Option<real>)
    ensures r.None? <==> a == []
    ensures r.Some? ==> r.value in a && forall i :: 0 <= i < |a| ==> r.value <= a[i]
  {
    if a == [] then None else Some(MinOf(a))
  }

  function Greatest(a: seq<real>): (r: Option<real>)
    ensures r.None? <==> a == []
    ensures r.Some? ==> r.value in a && forall i :: 0 <= i < |a| ==> a[i] <= r.value
  {
    if a == [] then None else Some(MaxOf(a))
  }

  // ---------------------------------------------------------------------------
  // The clamps index a[0], a[1], a[2] directly. A missing element is
  // `undefined`, and every comparison with `undefined` is false.

  function At(a: seq<Option<real>>, i: nat): (r: Option<real>)
    ensures i < |a| ==> r == a[i]
    ensures i >= |a| ==> r.None?
  {
    if i < |a| then a[i] else None
  }

  predicate Less(x: Option<real>, y: Option<real>) {
    x.Some? && y.Some? && x.value < y.value
  }

  /** `a[0] < a[1] ? a[1] : a[0]` */
  function ClampMinOf(a: seq<Option<real>>): (r: Option<real>)
    ensures r.None? <==> At(a, 0).None?
    ensures At(a, 1).None? ==> r == At(a, 0)
    ensures At(a, 0).Some? && At(a, 1).Some? ==>
      && (r == At(a, 0) || r == At(a, 1))
      && At(a, 0).value <= r.value && At(a, 1).value <= r.value
  {
    if Less(At(a, 0), At(a, 1)) then At(a, 1) else At(a, 0)
  }

  /** `a[0] > a[1] ? a[1] : a[0]` */
  function ClampMaxOf(a: seq<Option<real>>): (r: Option<real>)
    ensures r.None? <==> At(a, 0).None?
    ensures At(a, 1).None? ==> r == At(a, 0)
    ensures At(a, 0).Some? && At(a, 1).Some? ==>
      && (r == At(a, 0) || r == At(a, 1))
      && r.value <= At(a, 0).value && r.value <= At(a, 1).value
  {
    if Less(At(a, 1), At(a, 0)) then At(a, 1) else At(a, 0)
  }

  /** `a[0] < a[1] ? a[1] : a[0] > a[2] ? a[2] : a[0]` */
  function ClampOf(a: seq<Option<real>>): (r: Option<real>)
    ensures r.None? <==> At(a, 0).None?
    ensures At(a, 2).None? ==> r == ClampMinOf(a)
  {
    if Less(At(a, 0), At(a, 1)) then At(a, 1)
    else if Less(At(a, 2), At(a, 0)) then At(a, 2)
    else At(a, 0)
  }

  // ---------------------------------------------------------------------------
  // Rounding looks at a[0] only; `Math.floor(undefined)` is NaN.

  function FloorOf(a: seq<Option<real>>): (r: Option<real>)
    ensures r.Some? <==> At(a, 0).Some?
    ensures r.Some? ==> r.value <= At(a, 0).value < r.value + 1.0 && r.value == r.value.Floor as real
  {
    match At(a, 0)
    case None => None
    case Some(x) => Some(x.Floor as real)
  }

  function CeilOf(a: seq<Option<real>>): (r: Option<real>)
    ensures r.Some? <==> At(a, 0).Some?
    ensures r.Some? ==> r.value - 1.0 < At(a, 0).value <= r.value && r.value == r.value.Floor as real
  {
    match At(a, 0)
    case None => None
    case Some(x) =>
      var k := x.Floor;
      Some(if k as real == x then k as real else (k + 1) as real)
  }

  /** `Math.round`: the nearest integer, halves rounded up. */
  function RoundOf(a: seq<Option<real>>): (r: Option<real>)
    ensures r.Some? <==> At(a, 0).Some?
    ensures r.Some? ==> r.value - 0.5 <= At(a, 0).value < r.value + 0.5 && r.value == r.value.Floor as real
  {
    match At(a, 0)
    case None => None
    case Some(x) => Some((x + 0.5).Floor as real)
  }

  /** `sum(a) / a.length`; `sum([])` throws. */
  function AverageOf(a: seq<real>): (r: Option<real>)
    ensures r.Some? <==> a != []
  {
    match SumOf(a)
    case None => None
    case Some(s) => Some(s / |a| as real)
  }

  // ---------------------------------------------------------------------------
  // Calling a registered function on the input values, some of which may be
  // `undefined`.

  /** A call either throws or returns a value (None when that value is not a
      finite number). */
  datatype Outcome = Throws | Returns(value: Option<real>)

  /** The numbers of a, when every element is one. */
  function Defined(a: seq<Option<real>>): (r: Option<seq<real>>)
    ensures r.Some? <==> forall i :: 0 <= i < |a| ==> a[i].Some?
    ensures r.Some? ==> |r.value| == |a| && forall i :: 0 <= i < |a| ==> a[i] == Some(r.value[i])
    decreases |a|
  {
    if a == [] then Some([])
    else
      match a[0]
      case None => None
      case Some(x) =>
        match Defined(a[1..])
        case None => None
        case Some(rest) => Some([x] + rest)
  }

  /** A fold over numbers: `undefined` anywhere makes the result NaN. */
  function Numeric(a: seq<Option<real>>, f: seq<real> -> Option<real>): Option<real> {
    match Defined(a)
    case None => None
    case Some(xs) => f(xs)
  }

  /** `operations[key](a)` once the key is found. `reduce` on an empty array
      throws (SUM, DIF, PRD, QUO and AVG through `sum`); everything else
      returns. */
  function Apply(op: Op, a: seq<Option<real>>): (r: Outcome)
    ensures r.Throws? <==> a == [] && op in {Sum, Difference, Product, Quotient, Average}
  {
    match op
    case Sum => if a == [] then Throws else Returns(Numeric(a, SumOf))
    case Difference => if a == [] then Throws else Returns(Numeric(a, DifferenceOf))
    case Product => if a == [] then Throws else Returns(Numeric(a, ProductOf))
    case Quotient => if a == [] then Throws else Returns(Numeric(a, QuotientOf))
    case Average => if a == [] then Throws else Returns(Numeric(a, AverageOf))
    case Min => Returns(Numeric(a, Least))
    case Max => Returns(Numeric(a, Greatest))
    case ClampMin => Returns(ClampMinOf(a))
    case ClampMax => Returns(ClampMaxOf(a))
    case Clamp => Returns(ClampOf(a))
    case Floor => Returns(FloorOf(a))
    case Ceil => Returns(CeilOf(a))
    case Round => Returns(RoundOf(a))
  }

  // ---------------------------------------------------------------------------
  // Properties of the registry.

  lemma {:induction false} FoldSum(acc: real, s: seq<real>)
    ensures FoldLeft(Plus, acc, s) == acc + Total(s)
    decreases |s|
  {
    if s != [] {
      FoldSum(acc + s[0], s[1..]);
    }
  }

  /** SUM is the total of its inputs; it throws on no inputs. */
  lemma SumIsTotal(a: seq<real>)
    ensures SumOf(a) == if a == [] then None else Some(Total(a))
  {
    if a != [] {
      FoldSum(a[0], a[1..]);
    }
  }

  lemma {:induction false} FoldDifference(acc: real, s: seq<real>)
    ensures FoldLeft(Minus, acc, s) == acc - Total(s)
    decreases |s|
  {
    if s != [] {
      FoldDifference(acc - s[0], s[1..]);
    }
  }

  /** DIF([a0, ..., an]) is a0 - a1 - ... - an: the head minus the rest. */
  lemma DifferenceIsHeadMinusRest(a: seq<real>)
    requires a != []
    ensures DifferenceOf(a) == Some(a[0] - Total(a[1..]))
  {
    FoldDifference(a[0], a[1..]);
  }

  lemma {:induction false} FoldProduct(acc: real, s: seq<real>)
    ensures FoldLeft(Times, acc, s) == acc * Prod(s)
    decreases |s|
  {
    if s != [] {
      var x, p := s[0], Prod(s[1..]);
      FoldProduct(acc * x, s[1..]);
      assert FoldLeft(Times, acc, s) == FoldLeft(Times, Times(acc, x), s[1..]);
      assert FoldLeft(Times, acc * x, s[1..]) == (acc * x) * p;
      assert Prod(s) == x * p;
      assert Times(acc, x) == acc * x;
      assert (acc * x) * p == acc * (x * p);
      assert FoldLeft(Times, acc, s) == acc * Prod(s);
    }
  }

  /** PRD is the product of its inputs; it throws on no inputs. */
  lemma ProductIsProd(a: seq<real>)
    ensures ProductOf(a) == if a == [] then None else Some(Prod(a))
  {
    if a != [] {
      FoldProduct(a[0], a[1..]);
      assert ProductOf(a) == Some(FoldLeft(Times, a[0], a[1..]));
      assert FoldLeft(Times, a[0], a[1..]) == a[0] * Prod(a[1..]);
      assert Prod(a) == a[0] * Prod(a[1..]);
    }
  }

  lemma {:induction false} ProdNonZero(s: seq<real>)
    requires forall i :: 0 <= i < |s| ==> s[i] != 0.0
    ensures Prod(s) != 0.0
    decreases |s|
  {
    if s != [] {
      ProdNonZero(s[1..]);
    }
  }

  lemma {:induction false} FoldQuotient(acc: real, s: seq<real>)
    requires forall i :: 0 <= i < |s| ==> s[i] != 0.0
    ensures Prod(s) != 0.0 && QuoFold(acc, s) == acc / Prod(s)
    decreases |s|
  {
    ProdNonZero(s);
    if s != [] {
      ProdNonZero(s[1..]);
      FoldQuotient(acc / s[0], s[1..]);
      DivideTwice(acc, s[0], Prod(s[1..]));
    }
  }

  lemma DivideTwice(a: real, x: real, p: real)
    requires x != 0.0 && p != 0.0
    ensures (a / x) / p == a / (x * p)
  {
    var q := a / x;
    assert q * x == a;
    var r := q / p;
    assert r * p == q;
    assert r * (x * p) == a by {
      assert r * (x * p) == (r * p) * x;
    }
  }

  /** QUO with non-zero divisors is the head divided by the product of the rest. */
  lemma QuotientIsHeadOverRest(a: seq<real>)
    requires a != [] && forall i :: 1 <= i < |a| ==> a[i] != 0.0
    ensures Prod(a[1..]) != 0.0 && QuotientOf(a) == Some(a[0] / Prod(a[1..]))
  {
    FoldQuotient(a[0], a[1..]);
  }

  lemma {:induction false} TotalAtLeast(a: seq<real>, m: real)
    requires forall i :: 0 <= i < |a| ==> m <= a[i]
    ensures |a| as real * m <= Total(a)
    decreases |a|
  {
    if a != [] {
      TotalAtLeast(a[1..], m);
      assert |a| as real * m == m + (|a| - 1) as real * m;
    }
  }

  lemma {:induction false} TotalAtMost(a: seq<real>, m: real)
    requires forall i :: 0 <= i < |a| ==> a[i] <= m
    ensures Total(a) <= |a| as real * m
    decreases |a|
  {
    if a != [] {
      TotalAtMost(a[1..], m);
      assert |a| as real * m == m + (|a| - 1) as real * m;
    }
  }

  /** Dividing a total of at least n * lo by n > 0 gives at least lo. */
  lemma QuotientAtLeast(t: real, n: real, lo: real)
    requires 0.0 < n && n * lo <= t
    ensures lo <= t / n
  {
    var q := t / n;
    assert q * n == t;
    assert (q - lo) * n == t - n * lo;
  }

  /** Dividing a total of at most n * hi by n > 0 gives at most hi. */
  lemma QuotientAtMost(t: real, n: real, hi: real)
    requires 0.0 < n && t <= n * hi
    ensures t / n <= hi
  {
    var q := t / n;
    assert q * n == t;
    assert (hi - q) * n == n * hi - t;
  }

  /** AVG lies between the smallest and the largest input. */
  lemma AverageBetweenMinAndMax(a: seq<real>)
    requires a != []
    ensures AverageOf(a).Some?
    ensures MinOf(a) <= AverageOf(a).value <= MaxOf(a)
  {
    AverageAtLeastMin(a);
    AverageAtMostMax(a);
  }

  lemma AverageAtLeastMin(a: seq<real>)
    requires a != []
    ensures AverageOf(a).Some? && MinOf(a) <= AverageOf(a).value
  {
    AverageIsQuotient(a);
    TotalAtLeast(a, MinOf(a));
    QuotientAtLeast(Total(a), |a| as real, MinOf(a));
  }

  lemma AverageAtMostMax(a: seq<real>)
    requires a != []
    ensures AverageOf(a).Some? && AverageOf(a).value <= MaxOf(a)
  {
    AverageIsQuotient(a);
    TotalAtMost(a, MaxOf(a));
    QuotientAtMost(Total(a), |a| as real, MaxOf(a));
  }

  lemma AverageIsQuotient(a: seq<real>)
    requires a != []
    ensures AverageOf(a) == Some(Total(a) / |a| as real)
  {
    SumIsTotal(a);
  }

  /** With lo <= hi, CLAMP([v, lo, hi]) lands in [lo, hi], and is v when v is already there. */
  lemma ClampInRange(v: real, lo: real, hi: real)
    requires lo <= hi
    ensures ClampOf([Some(v), Some(lo), Some(hi)]).Some?
    ensures lo <= ClampOf([Some(v), Some(lo), Some(hi)]).value <= hi
    ensures lo <= v <= hi ==> ClampOf([Some(v), Some(lo), Some(hi)]) == Some(v)
  {
  }

  /** The lower bound is tested first: below lo the result is lo, even when lo > hi. */
  lemma ClampLowerBoundWins(v: real, lo: real, hi: real)
    requires v < lo
    ensures ClampOf([Some(v), Some(lo), Some(hi)]) == Some(lo)
  {
  }

  /** With lo <= hi, clamping a clamped value again changes nothing. */
  lemma ClampIdempotent(v: real, lo: real, hi: real)
    requires lo <= hi
    ensures ClampOf([Some(v), Some(lo), Some(hi)]).Some?
    ensures ClampOf([ClampOf([Some(v), Some(lo), Some(hi)]), Some(lo), Some(hi)])
         == ClampOf([Some(v), Some(lo), Some(hi)])
  {
  }

  /** On numbers, the registered folds are the reference definitions, MIN and
      MAX the least and greatest element, and a single input is passed
      through by every fold. */
  lemma ApplyOnNumbers(a: seq<Option<real>>, xs: seq<real>)
    requires Defined(a) == Some(xs) && a != []
    ensures Apply(Sum, a) == Returns(Some(Total(xs)))
    ensures Apply(Difference, a) == Returns(Some(xs[0] - Total(xs[1..])))
    ensures Apply(Product, a) == Returns(Some(Prod(xs)))
    ensures Apply(Min, a) == Returns(Some(MinOf(xs)))
    ensures Apply(Max, a) == Returns(Some(MaxOf(xs)))
  {
    SumIsTotal(xs);
    DifferenceIsHeadMinusRest(xs);
    ProductIsProd(xs);
  }

  /** A single input is passed through unchanged by the seedless folds. */
  lemma SingleInputPassesThrough(a: seq<Option<real>>)
    requires |a| == 1
    ensures Apply(Sum, a) == Apply(Difference, a) == Apply(Product, a) == Returns(a[0])
  {
  }

  /** An `undefined` input makes every fold, MIN and MAX return NaN. */
  lemma UndefinedInputIsNaN(a: seq<Option<real>>, i: nat)
    requires i < |a| && a[i].None?
    ensures forall op :: op in {Sum, Difference, Product, Quotient, Average, Min, Max} ==> Apply(op, a) == Returns(None)
  {
  }

  /** Exactly thirteen keys are registered; any other key finds nothing. */
  lemma RegistryKeys(key: string)
    ensures Lookup(Some(key)).Some? <==>
      key in {"SUM", "DIF", "PRD", "QUO", "MIN", "MAX", "CLAMP_MIN", "CLAMP_MAX",
              "CLAMP", "FLOOR", "CEIL", "ROUND", "AVG"}
  {
  }
}
