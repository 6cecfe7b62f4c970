/**
 What each public operation of the generator returns, as a function of its
 arguments and of the draws it consumes.

 Go returns a pair (value, error); here an operation gives `Ok(value)` or
 `Err(error)`. On an error the Go code also returns the zero value of the
 result type (0, false, "" or an empty slice), which carries no information.
 */
module Rules {
  import opened GoText
  import opened Pools
  import opened Draws
  import opened Shuffle

  datatype Error =
    | MinAboveMax
    | LikelihoodOutOfRange
    | AlphaAndSymbols
    | NonPositiveLength
    | EmptyPool
    | EmptyArray

  /** The text of the error Go returns in each case. */
  function Message(e: Error): (r: string)
    ensures "Chance: " < r
  {
    match e
    case MinAboveMax => "Chance: Min cannot be greater than Max."
    case LikelihoodOutOfRange => "Chance: Likelihood accepts values from 0 to 100."
    case AlphaAndSymbols => "Chance: Cannot specify both alpha and symbols."
    case NonPositiveLength => "Chance: length has to be bigger than 0"
    case EmptyPool => "Chance: pool cannot be empty"
    case EmptyArray => "Chance: Cannot pick() from an empty array"
  }

  /** The texts tell the errors apart. */
  lemma MessagesDistinct(e1: Error, e2: Error)
    ensures Message(e1) == Message(e2) <==> e1 == e2
  {
  }

  datatype Result<T> = Ok(value: T) | Err(error: Error)

  // ---------------------------------------------------------------- Integer

  lemma ScaledUnit(u: Unit, n: int)
    requires n >= 1
    ensures 0.0 <= u * n as real < n as real
  {
  }

  /** `Integer(min, max)` when its `Float64()` draw is u. */
  function IntegerRule(min: int, max: int, u: Unit): (r: Result<int>)
    ensures r.Err? <==> min > max
    ensures r.Err? ==> r.error == MinAboveMax
    ensures r.Ok? ==> min <= r.value <= max
  {
    if min > max then Err(MinAboveMax)
    else
      ScaledUnit(u, max - min + 1);
      Ok((u * (max - min + 1) as real + min as real).Floor)
  }

  /**
   Each value k of [min, max] owns a slice of the draws of width 1/(max-min+1):
   the result is k exactly when the scaled draw falls in [k-min, k-min+1).
   Flooring (rather than truncating) keeps this true for negative ranges.
   */
  lemma IntegerBucket(min: int, max: int, u: Unit, k: int)
    requires min <= max
    ensures IntegerRule(min, max, u) == Ok(k) <==>
      min <= k <= max && (k - min) as real <= u * (max - min + 1) as real < (k - min + 1) as real
  {
    var y := u * (max - min + 1) as real + min as real;
    assert y.Floor as real <= y < y.Floor as real + 1.0;
  }

  /** Every value of a non-empty range is the result for some draw. */
  lemma IntegerReachesEvery(min: int, max: int, k: int)
    requires min <= k <= max
    ensures exists u: Unit :: IntegerRule(min, max, u) == Ok(k)
  {
    var n := max - min + 1;
    var u: Unit := (k - min) as real / n as real;
    assert u * n as real == (k - min) as real;
    IntegerBucket(min, max, u, k);
  }

  // ---------------------------------------------------------------- Bool

  /** Go's conversion of a float to an int: truncation toward zero. */
  function TruncateToInt(x: real): (r: int)
    ensures x >= 0.0 ==> 0 <= r && r as real <= x < r as real + 1.0
    ensures x < 0.0 ==> r <= 0 && r as real - 1.0 < x <= r as real
  {
    if x >= 0.0 then x.Floor else -((-x).Floor)
  }

  /** The likelihood moved into [0, 100]. */
  function Clamp(likelihood: int): (r: int)
    ensures 0 <= r <= 100
    ensures 0 <= likelihood <= 100 ==> r == likelihood
    ensures r != likelihood ==> (likelihood < 0 && r == 0) || (likelihood > 100 && r == 100)
  {
    if likelihood < 0 then 0 else if likelihood > 100 then 100 else likelihood
  }

  /** `Bool(likelihood, clamp)` when its `Float64()` draw is u. */
  function BoolRule(likelihood: int, clamp: bool, u: Unit): (r: Result<bool>)
    ensures r.Err? <==> !clamp && (likelihood < 0 || likelihood > 100)
    ensures r.Err? ==> r.error == LikelihoodOutOfRange
    ensures r.Ok? && likelihood <= 0 ==> !r.value
    ensures r.Ok? && likelihood >= 100 ==> r.value
  {
    if !clamp && (likelihood < 0 || likelihood > 100) then Err(LikelihoodOutOfRange)
    else Ok(TruncateToInt(u * 100.0) < Clamp(likelihood))
  }

  /** The result is true exactly for the draws below likelihood/100 (after clamping). */
  lemma BoolThreshold(likelihood: int, clamp: bool, u: Unit)
    requires clamp || 0 <= likelihood <= 100
    ensures BoolRule(likelihood, clamp, u) == Ok(u * 100.0 < Clamp(likelihood) as real)
  {
    var x := u * 100.0;
    assert x.Floor as real <= x < x.Floor as real + 1.0;
  }

  /** Raising the likelihood never turns a true result false for the same draw. */
  lemma BoolMonotone(low: int, high: int, clamp: bool, u: Unit)
    requires low <= high
    requires BoolRule(low, clamp, u).Ok? && BoolRule(high, clamp, u).Ok?
    ensures BoolRule(low, clamp, u).value ==> BoolRule(high, clamp, u).value
  {
    BoolThreshold(low, clamp, u);
    BoolThreshold(high, clamp, u);
  }

  // ---------------------------------------------------------------- Character

  /** `Character(casing, pool, symbols, alpha)` when the draw of its `Integer` call is u. */
  function CharacterRule(casing: seq<Byte>, pool: seq<Byte>, symbols: bool, alpha: bool, u: Unit): (r: Result<Byte>)
    ensures r.Err? <==> alpha && symbols
    ensures r.Err? ==> r.error == AlphaAndSymbols
    ensures r.Ok? ==> r.value in CharacterPool(casing, pool, symbols, alpha)
  {
    if alpha && symbols then Err(AlphaAndSymbols)
    else
      var temppool := CharacterPool(casing, pool, symbols, alpha);
      match IntegerRule(0, |temppool| - 1, u)
      case Err(e) => Err(e)
      case Ok(charAt) => Ok(temppool[charAt])
  }

  /** Every byte of the chosen pool is the result for some draw. */
  lemma CharacterReachesEvery(casing: seq<Byte>, pool: seq<Byte>, symbols: bool, alpha: bool, k: int)
    requires !(alpha && symbols)
    requires 0 <= k < |CharacterPool(casing, pool, symbols, alpha)|
    ensures exists u: Unit :: CharacterRule(casing, pool, symbols, alpha, u) == Ok(CharacterPool(casing, pool, symbols, alpha)[k])
  {
    var temppool := CharacterPool(casing, pool, symbols, alpha);
    IntegerReachesEvery(0, |temppool| - 1, k);
    var u: Unit :| IntegerRule(0, |temppool| - 1, u) == Ok(k);
    assert CharacterRule(casing, pool, symbols, alpha, u) == Ok(temppool[k]);
  }

  /** With `alpha` and no caller pool, the result is a letter of the requested casing. */
  lemma AlphaCharacterCasing(casing: seq<Byte>, u: Unit)
    ensures CharacterRule(casing, [], false, true, u).Ok?
    ensures var c := CharacterRule(casing, [], false, true, u).value;
      if casing == "lower" then IsLowerAscii(c)
      else if casing == "upper" then IsUpperAscii(c)
      else IsLowerAscii(c) || IsUpperAscii(c)
  {
    LettersMembers(casing, CharacterRule(casing, [], false, true, u).value);
  }

  /** With `symbols` and no caller pool, the result is a symbol: no letter, no digit. */
  lemma SymbolCharacter(casing: seq<Byte>, u: Unit)
    ensures CharacterRule(casing, [], true, false, u).Ok?
    ensures var c := CharacterRule(casing, [], true, false, u).value;
      c in SYMBOLS && !IsLowerAscii(c) && !IsUpperAscii(c) && !IsDigitAscii(c)
  {
  }

  // ---------------------------------------------------------------- String

  lemma AsciiMember(s: seq<Byte>, c: Byte)
    requires IsAscii(s) && c in s
    ensures c as int < 0x80
  {
    var i :| 0 <= i < |s| && s[i] == c;
  }

  /** The bytes the loop of `String` picks from pool, one `Character` call per draw. */
  function Chosen(pool: seq<Byte>, us: seq<Unit>): (cs: seq<Byte>)
    requires |pool| > 0
    ensures |cs| == |us| && forall k :: 0 <= k < |us| ==> cs[k] in pool
  {
    seq(|us|, k requires 0 <= k < |us| => CharacterRule([], pool, false, false, us[k]).value)
  }

  lemma ChosenAscii(pool: seq<Byte>, us: seq<Unit>)
    requires |pool| > 0
    ensures IsAscii(pool) ==> IsAscii(Chosen(pool, us))
  {
    if IsAscii(pool) {
      var cs := Chosen(pool, us);
      forall k | 0 <= k < |cs| ensures cs[k] as int < 0x80 {
        AsciiMember(pool, cs[k]);
      }
    }
  }

  /** How many draws `String(length, pool)` consumes. */
  function StringUses(length: int, pool: seq<Byte>): nat {
    if length > 0 && |pool| > 0 then length else 0
  }

  /** `String(length, pool)` when its draws are ds. */
  function StringRule(length: int, pool: seq<Byte>, ds: seq<Draw>): (r: Result<seq<Byte>>)
    requires FloatsAhead(ds, StringUses(length, pool))
    ensures r.Err? <==> length <= 0 || |pool| == 0
    ensures length <= 0 ==> r == Err(NonPositiveLength)
    ensures length > 0 && |pool| == 0 ==> r == Err(EmptyPool)
    ensures r.Ok? ==> length <= |r.value| <= 2 * length
    ensures r.Ok? && IsAscii(pool) ==>
      |r.value| == length && forall k :: 0 <= k < length ==> r.value[k] in pool
  {
    if length <= 0 then Err(NonPositiveLength)
    else if |pool| == 0 then Err(EmptyPool)
    else
      var cs := Chosen(pool, Floats(ds, length));
      ChosenAscii(pool, Floats(ds, length));
      Ok(Utf8(cs))
  }

  /**
   Whatever the pool, reading the result back as UTF-8 gives exactly `length`
   bytes, each taken from the pool.
   */
  lemma StringDecodes(length: int, pool: seq<Byte>, ds: seq<Draw>)
    requires FloatsAhead(ds, StringUses(length, pool))
    requires StringRule(length, pool, ds).Ok?
    ensures var cs := Latin1(StringRule(length, pool, ds).value);
      |cs| == length && forall k :: 0 <= k < length ==> cs[k] in pool
  {
    Utf8RoundTrip(Chosen(pool, Floats(ds, length)));
  }

  // ---------------------------------------------------------------- Capitalize

  /** `Capitalize(word)`: upper-cases the first byte and keeps the rest. */
  function Capitalize(word: seq<Byte>): (r: seq<Byte>)
    requires |word| > 0 && word[0] as int < 0x80
    ensures |r| == |word| && r[1..] == word[1..]
    ensures !IsLowerAscii(r[0]) && r[0] as int < 0x80
    ensures IsLowerAscii(word[0]) ==> IsUpperAscii(r[0]) && r[0] as int + 0x20 == word[0] as int
    ensures !IsLowerAscii(word[0]) ==> r == word
  {
    Utf8([UpperAscii(word[0])]) + word[1..]
  }

  lemma CapitalizeIdempotent(word: seq<Byte>)
    requires |word| > 0 && word[0] as int < 0x80
    ensures Capitalize(Capitalize(word)) == Capitalize(word)
  {
  }

  // ---------------------------------------------------------------- PickInt

  /** The next draws are what `PickInt` on a slice of length n consumes. */
  predicate PickReady(n: int, count: int, ds: seq<Draw>) {
    n == 0 || (count <= 1 && FloatsAhead(ds, 1)) || (count > 1 && SwapsAhead(ds, n))
  }

  /** How many draws `PickInt` consumes. */
  function PickUses(n: int, count: int): nat {
    if n == 0 then 0 else if count <= 1 then 1 else SwapCount(n)
  }

  lemma PrefixMultiset(s: seq<int>, c: int)
    requires 0 <= c <= |s|
    ensures multiset(s[..c]) <= multiset(s)
  {
    assert s == s[..c] + s[c..];
  }

  /** `PickInt(arr, count)` when its draws are ds. */
  function PickRule(arr: seq<int>, count: int, ds: seq<Draw>): (r: Result<seq<int>>)
    requires PickReady(|arr|, count, ds)
    ensures r.Err? <==> |arr| == 0
    ensures r.Err? ==> r.error == EmptyArray
    ensures r.Ok? && count <= 1 ==> |r.value| == 1 && r.value[0] in arr
    ensures r.Ok? && count > 1 ==>
      |r.value| <= count && |r.value| < |arr| && (|r.value| == count || |r.value| == |arr| - 1)
    ensures r.Ok? ==> multiset(r.value) <= multiset(arr)
    ensures |arr| == 1 && count > 1 ==> r == Ok([])
  {
    if |arr| == 0 then Err(EmptyArray)
    else if count <= 1 then
      match IntegerRule(0, |arr| - 1, ds[0].f)
      case Err(e) => Err(e)
      case Ok(i) => Ok([arr[i]])
    else
      var c := if count >= |arr| then |arr| - 1 else count;
      var shuffled := Shuffled(arr, Ints(ds, SwapCount(|arr|)));
      PrefixMultiset(shuffled, c);
      Ok(shuffled[..c])
  }

  lemma {:induction false} DistinctOccursOnce(s: seq<int>, x: int)
    requires Distinct(s)
    ensures multiset(s)[x] <= 1
  {
    if s != [] {
      var last := |s| - 1;
      assert s == s[..last] + [s[last]];
      assert Distinct(s[..last]);
      DistinctOccursOnce(s[..last], x);
      if x == s[last] {
        assert x !in s[..last];
      }
    }
  }

  lemma RepeatOccursTwice(s: seq<int>, p: int, q: int)
    requires 0 <= p < q < |s| && s[p] == s[q]
    ensures multiset(s)[s[p]] >= 2
  {
    assert s == s[..q] + [s[q]] + s[q + 1..];
    assert s[p] in s[..q];
  }

  /** From a slice of distinct elements, `PickInt` picks distinct elements. */
  lemma PickDistinct(arr: seq<int>, count: int, ds: seq<Draw>)
    requires PickReady(|arr|, count, ds) && Distinct(arr)
    requires PickRule(arr, count, ds).Ok?
    ensures Distinct(PickRule(arr, count, ds).value)
  {
    var v := PickRule(arr, count, ds).value;
    forall p, q | 0 <= p < q < |v|
      ensures v[p] != v[q]
    {
      if v[p] == v[q] {
        RepeatOccursTwice(v, p, q);
        DistinctOccursOnce(arr, v[p]);
        assert false;
      }
    }
  }
}
