/**
 The character pools of the generator: the package-level constants and the
 choice of pool that `Character` makes from its arguments before it draws.
 */
module Pools {
  import opened GoText

  const NUMBERS: seq<Byte> := "0123456789"
  const CHARS_LOWER: seq<Byte> := "abcdefghijklmnopqrstuvwxyz"
  const CHARS_UPPER: seq<Byte> := "ABCDEFGHIJKLMNOPQRSTUVWXYZ"

  /** The symbol pool local to `Character`. */
  const SYMBOLS: seq<Byte> := "!@#$%^&*()[]"

  lemma ConstantsAscii()
    ensures IsAscii(NUMBERS) && IsAscii(CHARS_LOWER) && IsAscii(CHARS_UPPER) && IsAscii(SYMBOLS)
  {
  }

  lemma AsciiAppend(a: seq<Byte>, b: seq<Byte>)
    requires IsAscii(a) && IsAscii(b)
    ensures IsAscii(a + b)
  {
  }

  /** The letters for a casing argument: "lower", "upper", or both cases for anything else. */
  function Letters(casing: seq<Byte>): (r: seq<Byte>)
    ensures |r| > 0 && IsAscii(r)
  {
    ConstantsAscii();
    AsciiAppend(CHARS_LOWER, CHARS_UPPER);
    if casing == "lower" then CHARS_LOWER
    else if casing == "upper" then CHARS_UPPER
    else CHARS_LOWER + CHARS_UPPER
  }

  /**
   The pool `Character` indexes into. A non-empty caller pool wins over every
   flag; otherwise `alpha` selects letters, `symbols` the symbol pool, and
   neither selects letters, digits and symbols together.
   */
  function CharacterPool(casing: seq<Byte>, pool: seq<Byte>, symbols: bool, alpha: bool): (r: seq<Byte>)
    ensures |r| > 0
    ensures |pool| > 0 ==> r == pool
    ensures |pool| == 0 ==> IsAscii(r)
  {
    ConstantsAscii();
    AsciiAppend(Letters(casing), NUMBERS);
    AsciiAppend(Letters(casing) + NUMBERS, SYMBOLS);
    if |pool| != 0 then pool
    else if alpha then Letters(casing)
    else if symbols then SYMBOLS
    else Letters(casing) + NUMBERS + SYMBOLS
  }

  /** s holds consecutive codes starting at `first`. */
  predicate IsRun(s: seq<Byte>, first: int) {
    forall k :: 0 <= k < |s| ==> s[k] as int == first + k
  }

  lemma RunMembers(s: seq<Byte>, first: int, c: Byte)
    requires IsRun(s, first)
    ensures c in s <==> first <= c as int < first + |s|
  {
    if first <= c as int < first + |s| {
      assert s[c as int - first] == c;
    }
  }

  lemma ConstantsAreRuns()
    ensures IsRun(CHARS_LOWER, 'a' as int) && |CHARS_LOWER| == 26
    ensures IsRun(CHARS_UPPER, 'A' as int) && |CHARS_UPPER| == 26
    ensures IsRun(NUMBERS, '0' as int) && |NUMBERS| == 10
  {
  }

  lemma LowerMembers(c: Byte)
    ensures c in CHARS_LOWER <==> IsLowerAscii(c)
  {
    ConstantsAreRuns();
    RunMembers(CHARS_LOWER, 'a' as int, c);
  }

  lemma UpperMembers(c: Byte)
    ensures c in CHARS_UPPER <==> IsUpperAscii(c)
  {
    ConstantsAreRuns();
    RunMembers(CHARS_UPPER, 'A' as int, c);
  }

  lemma NumberMembers(c: Byte)
    ensures c in NUMBERS <==> IsDigitAscii(c)
  {
    ConstantsAreRuns();
    RunMembers(NUMBERS, '0' as int, c);
  }

  /** "lower" and "upper" restrict the letters to one case; any other casing gives both. */
  lemma LettersMembers(casing: seq<Byte>, c: Byte)
    ensures c in Letters(casing) <==>
      if casing == "lower" then IsLowerAscii(c)
      else if casing == "upper" then IsUpperAscii(c)
      else IsLowerAscii(c) || IsUpperAscii(c)
  {
    LowerMembers(c);
    UpperMembers(c);
  }

  /** Without a caller pool and without flags, the pool is letters, digits and symbols. */
  lemma DefaultPoolMembers(casing: seq<Byte>, c: Byte)
    ensures c in CharacterPool(casing, [], false, false) <==>
      c in Letters(casing) || IsDigitAscii(c) || c in SYMBOLS
  {
    NumberMembers(c);
  }
}
