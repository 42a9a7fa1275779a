/** The parts of the Python runtime that the toolkit's arithmetic depends on:
    the exceptions it ends in, `random.randrange` with the drawn index passed
    in by the caller, `str()` of an integer, and `",".join` / `split(",")`. */
module Python {

  /** The exceptions the modelled code can raise. */
  datatype PyError =
    | ValueError         // randrange on an empty range or a zero step; a failed tuple unpacking
    | ZeroDivisionError  // `//` by zero
    | IndexError         // indexing an empty list
    | AttributeError     // a method looked up on an object that lacks it
    | TypeError          // `len(None)`
    | AssertionError     // a failed `assert`
    | KeyError           // a missing dictionary key
    | Cv2Error           // an OpenCV assertion: empty input image, empty target size, negative border

  /** The outcome of a call: a value, or the exception it raised. */
  datatype Result<T> = Ok(value: T) | Err(error: PyError)

  /** numpy's uint8. */
  type Byte = x: int | 0 <= x < 256

  /** A value that may be Python's `None`. */
  datatype Option<T> = None | Some(value: T)

  // ---------------------------------------------------------------------
  // random.randrange(start, stop, step)

  /** How many values `range(start, stop, step)` holds, by the formula
      `randrange` uses; Python's `//` floors, which for a positive divisor is
      Dafny's `/`, and for a negative one is `(-a) / (-b)`. */
  function RangeLength(start: int, stop: int, step: int): int {
    var width := stop - start;
    if step > 0 then (width + step - 1) / step
    else if step < 0 then (-(width + step + 1)) / (-step)
    else 0
  }

  /** `random.randrange(start, stop, step)`. The random number generator is
      not modelled: the caller supplies the index `k` that `_randbelow(n)`
      would have produced, so the value is `start + step * k`. A zero step
      or an empty range raises ValueError. */
  function RandRange(start: int, stop: int, step: int, k: nat): (r: Result<int>)
    requires RangeLength(start, stop, step) > 0 ==> k < RangeLength(start, stop, step)
    ensures r.Ok? <==> step != 0 && RangeLength(start, stop, step) > 0
    ensures r.Err? ==> r.error == ValueError
  {
    if step == 0 then Err(ValueError)
    else if RangeLength(start, stop, step) <= 0 then Err(ValueError)
    else Ok(start + step * k)
  }

  /** With step 1 the range is nonempty exactly when start < stop, and the
      value drawn lies in [start, stop). */
  lemma UnitStepRange(start: int, stop: int, k: nat)
    requires start < stop ==> k < stop - start
    ensures RangeLength(start, stop, 1) > 0 <==> start < stop
    ensures RandRange(start, stop, 1, k).Ok? <==> start < stop
    ensures RandRange(start, stop, 1, k).Ok? ==>
              start <= RandRange(start, stop, 1, k).value < stop
  {
  }

  /** A multiple of a positive step leaves no remainder. */
  lemma MultipleHasNoRemainder(step: int, k: nat)
    requires step > 0
    ensures (step * k) % step == 0
  {
    var q, r := (step * k) / step, (step * k) % step;
    assert step * (k - q) == r && 0 <= r < step;
    if k - q >= 1 { assert false; }
    else if k - q <= -1 { assert false; }
  }

  /** With a positive step, every value randrange can return lies in
      [start, stop) on the lattice start, start + step, start + 2*step, ... */
  lemma {:induction false} PositiveStepRange(start: int, stop: int, step: int, k: nat)
    requires step > 0
    requires RangeLength(start, stop, step) > 0 ==> k < RangeLength(start, stop, step)
    ensures RangeLength(start, stop, step) > 0 <==> start < stop
    ensures RandRange(start, stop, step, k).Ok? ==>
              var v := RandRange(start, stop, step, k).value;
              start <= v < stop && (v - start) % step == 0
  {
    var width := stop - start;
    var n := RangeLength(start, stop, step);
    assert n == (width + step - 1) / step;
    if start < stop {
      assert width + step - 1 >= step;
      assert n >= 1;
    } else {
      assert width + step - 1 < step;
      assert n <= 0;
    }
    if n > 0 {
      // step * n <= width + step - 1, and k <= n - 1
      assert step * n <= width + step - 1;
      assert step * k <= step * (n - 1);
      MultipleHasNoRemainder(step, k);
    }
  }

  // ---------------------------------------------------------------------
  // a // b for a positive divisor

  /** Python's `a // b` with `b > 0` is the floor of a / b: the largest q
      with q * b <= a. */
  lemma FloorDivision(a: int, b: int)
    requires b > 0
    ensures (a / b) * b <= a < (a / b + 1) * b
  {
    assert a == (a / b) * b + a % b;
  }

  /** Multiplying by a positive number keeps strict order. */
  lemma MulCancelLess(x: int, y: int, b: int)
    requires b > 0
    requires x * b < y * b
    ensures x < y
  {
    assert (y - x) * b == y * b - x * b;
  }

  /** Only one integer lies in that position, so it is `a // b`. */
  lemma FloorDivisionUnique(a: int, b: int, q: int)
    requires b > 0
    requires q * b <= a < (q + 1) * b
    ensures q == a / b
  {
    FloorDivision(a, b);
    var p := a / b;
    MulCancelLess(q, p + 1, b);
    MulCancelLess(p, q + 1, b);
  }

  // ---------------------------------------------------------------------
  // str() of an integer and its inverse int()

  function DigitChar(d: int): (c: char)
    requires 0 <= d < 10
    ensures '0' <= c <= '9'
  {
    (48 + d) as char
  }

  /** The numeric value of a decimal digit (0 for any other character). */
  function DigitValue(c: char): (d: nat)
    ensures d < 10
  {
    if '0' <= c <= '9' then c as int - 48 else 0
  }

  /** Decimal notation of a natural number. */
  function NatDecimal(n: nat): (s: string)
    ensures |s| > 0
  {
    if n < 10 then [DigitChar(n)] else NatDecimal(n / 10) + [DigitChar(n % 10)]
  }

  /** The notation is made of digits only, without leading zeros. */
  lemma {:induction false} NatDecimalDigits(n: nat)
    ensures forall i :: 0 <= i < |NatDecimal(n)| ==> '0' <= NatDecimal(n)[i] <= '9'
    ensures NatDecimal(n)[0] == '0' ==> n == 0
  {
    if n >= 10 {
      NatDecimalDigits(n / 10);
      assert NatDecimal(n)[0] == NatDecimal(n / 10)[0];
    }
  }

  /** The value of a string of decimal digits. */
  function DecimalValue(s: string): nat
  {
    if s == [] then 0 else DecimalValue(s[..|s| - 1]) * 10 + DigitValue(s[|s| - 1])
  }

  /** Python's `str(i)` for an integer `i`. */
  function Str(i: int): (s: string)
    ensures |s| > 0
    ensures s[0] == '-' <==> i < 0
    ensures ',' !in s
  {
    if i < 0 then NatDecimalDigits(-i); "-" + NatDecimal(-i)
    else NatDecimalDigits(i); NatDecimal(i)
  }

  /** Python's `int(s)` on the strings `Str` produces. */
  function IntOfStr(s: string): int {
    if |s| > 0 && s[0] == '-' then -(DecimalValue(s[1..]) as int) else DecimalValue(s)
  }

  lemma {:induction false} DecimalRoundTrip(n: nat)
    ensures DecimalValue(NatDecimal(n)) == n
  {
    if n >= 10 {
      var s := NatDecimal(n);
      assert s[..|s| - 1] == NatDecimal(n / 10);
      DecimalRoundTrip(n / 10);
    }
  }

  /** `int(str(i)) == i`; so `str` is injective. */
  lemma StrRoundTrip(i: int)
    ensures IntOfStr(Str(i)) == i
  {
    if i < 0 {
      assert Str(i)[1..] == NatDecimal(-i);
      DecimalRoundTrip(-i);
    } else {
      DecimalRoundTrip(i);
    }
  }

  // ---------------------------------------------------------------------
  // ",".join(parts) and s.split(",")

  /** `",".join(parts)`. */
  function Join(parts: seq<string>): (s: string)
    ensures |parts| == 1 ==> s == parts[0]
    ensures |parts| > 0 ==> |s| >= |parts[0]|
  {
    if |parts| == 0 then ""
    else if |parts| == 1 then parts[0]
    else parts[0] + "," + Join(parts[1..])
  }

  /** Index of the first ',' in `s`, or |s| when there is none. */
  function CommaIndex(s: string): (i: nat)
    ensures i <= |s|
    ensures i < |s| ==> s[i] == ','
    ensures forall j :: 0 <= j < i ==> s[j] != ','
  {
    if s == [] then 0 else if s[0] == ',' then 0 else 1 + CommaIndex(s[1..])
  }

  /** `s.split(",")`. */
  function Split(s: string): (parts: seq<string>)
    ensures |parts| > 0
    decreases |s|
  {
    var i := CommaIndex(s);
    if i == |s| then [s] else [s[..i]] + Split(s[i + 1..])
  }

  /** Splitting a join of comma-free parts gives the parts back. */
  lemma {:induction false} SplitJoin(parts: seq<string>)
    requires |parts| > 0
    requires forall i :: 0 <= i < |parts| ==> ',' !in parts[i]
    ensures Split(Join(parts)) == parts
  {
    var p := parts[0];
    if |parts| == 1 {
      assert CommaIndex(p) == |p|;
    } else {
      var rest := Join(parts[1..]);
      var s := p + "," + rest;
      assert Join(parts) == s;
      assert s[|p|] == ',';
      assert CommaIndex(s) == |p|;
      assert s[..|p|] == p;
      assert s[|p| + 1..] == rest;
      SplitJoin(parts[1..]);
    }
  }
}
