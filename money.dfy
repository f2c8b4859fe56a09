/** Shared numeric vocabulary of the settlement variants: the 0.01 tolerance,
    JavaScript's `Math.round(x * 100) / 100`, `Math.min`, `Math.abs`, and the
    `rate || 1` defaulting applied to exchange rates. Amounts are exact reals. */
module Money {

  datatype Option<T> = None | Some(value: T)

  /** The tolerance every variant compares balances and remainders against,
      written as the literal `0.01` in each source loop. */
  const Epsilon: real := 0.01

  /** `x` is a whole number of cents. */
  predicate IsCents(x: real) {
    (x * 100.0).Floor as real == x * 100.0
  }

  /** `Math.round(x * 100) / 100`: the nearest cent, a tie going up
      (toward positive infinity, as `Math.round` does). */
  function Round2(x: real): (r: real)
    ensures IsCents(r)
    ensures x - 0.005 < r <= x + 0.005
  {
    var k := (x * 100.0 + 0.5).Floor;
    assert (k as real).Floor == k;
    (k as real) / 100.0
  }

  lemma RoundCentsIsIdentity(x: real)
    requires IsCents(x)
    ensures Round2(x) == x
  {
    var n := (x * 100.0).Floor;
    assert x * 100.0 + 0.5 == n as real + 0.5;
    assert (x * 100.0 + 0.5).Floor == n;
  }

  lemma RoundMonotone(x: real, y: real)
    requires x <= y
    ensures Round2(x) <= Round2(y)
  {
    assert (x * 100.0 + 0.5).Floor <= (y * 100.0 + 0.5).Floor;
  }

  /** Rounding a value above the tolerance gives at least one cent. */
  lemma RoundAboveEpsilon(x: real)
    requires x > Epsilon
    ensures Round2(x) >= Epsilon
  {
    RoundMonotone(Epsilon, x);
    RoundCentsIsIdentity(Epsilon);
  }

  lemma CentsDifference(x: real, y: real)
    requires IsCents(x) && IsCents(y)
    ensures IsCents(x - y)
  {
    var p, q := (x * 100.0).Floor, (y * 100.0).Floor;
    assert (x - y) * 100.0 == (p - q) as real;
    assert ((p - q) as real).Floor == p - q;
  }

  lemma CentsNegated(x: real)
    requires IsCents(x)
    ensures IsCents(-x)
  {
    var p := (x * 100.0).Floor;
    assert -x * 100.0 == (-p) as real;
    assert ((-p) as real).Floor == -p;
  }

  lemma ShareTimesCount(amount: real, n: real)
    requires n != 0.0
    ensures n * (amount / n) == amount
  {
  }

  /** `Math.min(a, b)`. */
  function Min(a: real, b: real): (r: real)
    ensures r <= a && r <= b
    ensures r == a || r == b
  {
    if a <= b then a else b
  }

  /** `Math.abs(x)`. */
  function Abs(x: real): (r: real)
    ensures r >= 0.0
    ensures r == x || r == -x
  {
    if x < 0.0 then -x else x
  }

  /** JavaScript's `v || 1` on a number that may be `undefined`: both
      `undefined` and `0` are falsy and give `1`; every other number passes. */
  function OrOne(v: Option<real>): (r: real)
    ensures r != 0.0
    ensures v.Some? && v.value != 0.0 ==> r == v.value
    ensures v.None? || v.value == 0.0 ==> r == 1.0
  {
    match v
    case Some(x) => if x == 0.0 then 1.0 else x
    case None => 1.0
  }

  /** `rates[code]` on a rate dictionary: `undefined` when the key is absent. */
  function Lookup(rates: map<string, real>, code: string): Option<real> {
    if code in rates then Some(rates[code]) else None
  }

  /** A currency record of the two variants that keep rates in a list. */
  datatype Currency = Currency(code: string, rate: real, symbol: string)

  /** `currencies.find(c => c.code === code)?.rate`: the rate of the FIRST
      record with that code, `undefined` when there is none. */
  function FindRate(currencies: seq<Currency>, code: string): (r: Option<real>)
    ensures r.None? <==> forall k :: 0 <= k < |currencies| ==> currencies[k].code != code
    ensures r.Some? ==> exists k :: 0 <= k < |currencies| && currencies[k].code == code
                                    && currencies[k].rate == r.value
                                    && forall k' :: 0 <= k' < k ==> currencies[k'].code != code
  {
    if currencies == [] then None
    else if currencies[0].code == code then Some(currencies[0].rate)
    else
      var r := FindRate(currencies[1..], code);
      assert forall k :: 1 <= k < |currencies| ==> currencies[k] == currencies[1..][k - 1];
      if r.Some? then
        var k :| 0 <= k < |currencies[1..]| && currencies[1..][k].code == code
                 && currencies[1..][k].rate == r.value
                 && forall k' :: 0 <= k' < k ==> currencies[1..][k'].code != code;
        assert currencies[k + 1] == currencies[1..][k];
        assert forall k' :: 0 <= k' < k + 1 ==> currencies[k'].code != code by {
          forall k' | 0 <= k' < k + 1 ensures currencies[k'].code != code {
            if k' > 0 { assert currencies[k'] == currencies[1..][k' - 1]; }
          }
        }
        r
      else r
  }

  /** `currencies.find(c => c.code === code)?.rate || 1`. */
  function RateOf(currencies: seq<Currency>, code: string): (r: real)
    ensures r != 0.0
  {
    OrOne(FindRate(currencies, code))
  }
}
