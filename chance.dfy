/**
 The `Chance` generator. Its one field is the random source; every draw
 advances it. Here the source is the sequence of results it has yet to give
 (see module Draws), so each method's result is fixed by its arguments and
 the front of that sequence, and each method says how much of it it consumes.
 */
module ChanceGen {
  import opened GoText
  import opened Pools
  import opened Draws
  import opened Shuffle
  import opened Rules

  class Chance {
    /** The draws the random source will still produce, in order. */
    var rng: seq<Draw>

    /** A generator whose source will produce `draws`. */
    constructor (draws: seq<Draw>)
      ensures rng == draws
    {
      rng := draws;
    }

    /** `random()`: one `Float64()` draw. */
    method Random() returns (f: Unit)
      requires FloatsAhead(rng, 1)
      modifies this
      ensures f == old(rng)[0].f && rng == old(rng)[1..]
    {
      f := rng[0].f;
      rng := rng[1..];
    }

    /** `rng.Intn(n)`: one draw in [0, n). */
    method Intn(n: int) returns (j: int)
      requires n > 0 && |rng| > 0 && rng[0].IntDraw? && 0 <= rng[0].j < n
      modifies this
      ensures 0 <= j < n
      ensures j == old(rng)[0].j && rng == old(rng)[1..]
    {
      j := rng[0].j;
      rng := rng[1..];
    }

    method Bool(likelihood: int, clamp: bool) returns (r: Result<bool>)
      requires clamp || 0 <= likelihood <= 100 ==> FloatsAhead(rng, 1)
      modifies this
      ensures !clamp && (likelihood < 0 || likelihood > 100) ==>
        r == Err(LikelihoodOutOfRange) && rng == old(rng)
      ensures clamp || 0 <= likelihood <= 100 ==>
        r == BoolRule(likelihood, clamp, old(rng)[0].f) && rng == old(rng)[1..]
    {
      var l := likelihood;
      if !clamp && (l < 0 || l > 100) {
        return Err(LikelihoodOutOfRange);
      } else {
        if l < 0 {
          l := 0;
        }
        if l > 100 {
          l := 100;
        }
      }
      var f := Random();
      r := Ok(TruncateToInt(f as real * 100.0) < l);
    }

    method Integer(min: int, max: int) returns (r: Result<int>)
      requires min <= max ==> FloatsAhead(rng, 1)
      modifies this
      ensures min > max ==> r == Err(MinAboveMax) && rng == old(rng)
      ensures min <= max ==> r == IntegerRule(min, max, old(rng)[0].f) && rng == old(rng)[1..]
    {
      if min > max {
        return Err(MinAboveMax);
      }
      var f := Random();
      r := Ok((f as real * (max - min + 1) as real + min as real).Floor);
    }

    method String(length: int, pool: seq<Byte>) returns (r: Result<seq<Byte>>)
      requires FloatsAhead(rng, StringUses(length, pool))
      modifies this
      ensures r == StringRule(length, pool, old(rng))
      ensures rng == old(rng)[StringUses(length, pool)..]
    {
      if length <= 0 {
        return Err(NonPositiveLength);
      }
      if |pool| == 0 {
        return Err(EmptyPool);
      }
      var ret: seq<Byte> := [];
      for i := 0 to length
        invariant rng == old(rng)[i..]
        invariant ret == Utf8(Chosen(pool, Floats(old(rng), i)))
      {
        // Neither alpha nor symbols is set, so this call cannot fail and the
        // error check that follows it in Go never fires.
        var c := Character([], pool, false, false);
        ghost var before := Chosen(pool, Floats(old(rng), i));
        assert Chosen(pool, Floats(old(rng), i + 1)) == before + [c.value];
        Utf8Append(before, c.value);
        ret := ret + RuneBytes(c.value);
      }
      r := Ok(ret);
    }

    method Character(casing: seq<Byte>, pool: seq<Byte>, symbols: bool, alpha: bool) returns (r: Result<Byte>)
      requires !(alpha && symbols) ==> FloatsAhead(rng, 1)
      modifies this
      ensures alpha && symbols ==> r == Err(AlphaAndSymbols) && rng == old(rng)
      ensures !(alpha && symbols) ==>
        r == CharacterRule(casing, pool, symbols, alpha, old(rng)[0].f) && rng == old(rng)[1..]
    {
      if alpha && symbols {
        return Err(AlphaAndSymbols);
      }
      var temppool := CharacterPool(casing, pool, symbols, alpha);
      var charAt := Integer(0, |temppool| - 1);
      r := match charAt
        case Err(e) => Err(e)
        case Ok(k) => Ok(temppool[k]);
    }

    method ShuffleInt(arr: array<int>) returns (newArr: array<int>)
      requires SwapsAhead(rng, arr.Length)
      modifies this
      ensures fresh(newArr)
      ensures newArr[..] == Shuffled(arr[..], Ints(old(rng), SwapCount(arr.Length)))
      ensures rng == old(rng)[SwapCount(arr.Length)..]
    {
      newArr := new int[arr.Length](k requires 0 <= k < arr.Length reads arr => arr[k]);
      assert newArr[..] == arr[..];
      SwapDown(newArr);
    }

    /** The loop of `ShuffleInt`: for i from len-1 down to 1, swap a[i] with a[Intn(i)]. */
    method SwapDown(a: array<int>)
      requires SwapsAhead(rng, a.Length)
      modifies this, a
      ensures a[..] == Shuffled(old(a[..]), Ints(old(rng), SwapCount(a.Length)))
      ensures rng == old(rng)[SwapCount(a.Length)..]
    {
      var n := a.Length;
      ghost var js := Ints(rng, SwapCount(n));
      ghost var k := 0;
      assert js[k..] == js;
      var i := n - 1;
      while i > 0
        invariant -1 <= i < n && k == n - 1 - i && k <= SwapCount(n)
        invariant rng == old(rng)[k..]
        invariant StepDraws(i, js[k..])
        invariant Steps(a[..], i, js[k..]) == Shuffled(old(a[..]), js)
      {
        ghost var before := a[..];
        SwapDrawAt(old(rng), n, k);
        var j := Intn(i);
        a[i], a[j] := a[j], a[i];
        assert a[..] == Swap(before, i, j);
        StepsUnfold(before, i, js[k..]);
        assert js[k..][1..] == js[k + 1..];
        i, k := i - 1, k + 1;
      }
    }

    method PickInt(arr: array<int>, count: int) returns (r: Result<seq<int>>)
      requires PickReady(arr.Length, count, rng)
      modifies this
      ensures r == PickRule(arr[..], count, old(rng))
      ensures rng == old(rng)[PickUses(arr.Length, count)..]
    {
      if arr.Length == 0 {
        return Err(EmptyArray);
      }
      if count <= 1 {
        var i := Integer(0, arr.Length - 1);
        r := match i
          case Err(e) => Err(e)
          case Ok(k) => Ok([arr[k]]);
        return;
      }
      var c := count;
      if c >= arr.Length {
        c := arr.Length - 1;
      }
      var shuffled := ShuffleInt(arr);
      r := Ok(shuffled[..c]);
      assert r == PickRule(arr[..], count, old(rng));
    }
  }
}
