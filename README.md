# chancego in Dafny

A model of the `Chance` generator of the Go package `chancego`. The package
produces random test data: booleans with a likelihood in percent, integers in
an inclusive range, characters from pools selected by flags, strings of such
characters, a capitalised word, a shuffle of an integer slice, and a pick of
elements from a slice.

The generator's one field is a Mersenne-Twister source, and every draw
advances it. The model replaces that source with an oracle: the field `rng`
of class `ChanceGen.Chance` holds the results the source will still produce.
A `FloatDraw(f)` with f a real in [0, 1) stands for a `Float64()` result, and
an `IntDraw(j)` stands for an `Intn(n)` result. Each method requires that the
draws it will consume are next and in range. It ends with `rng` advanced by
exactly those draws. The error paths consume no draw.

Modules:

- `GoText`: Go strings as byte sequences (`seq<Byte>`, where a `Byte` is a
  char below 256). It also holds `string(b)` for one byte, which is UTF-8
  encoding and so gives two bytes for b >= 0x80, and a decoder proved to
  undo that encoding.
- `Pools`: the constants `NUMBERS`, `CHARS_LOWER` and `CHARS_UPPER`, the
  symbol pool, and the choice of pool that `Character` makes.
- `Draws`: the oracle's draws, the predicates saying which draws come next,
  and which `Intn` results a shuffle may draw.
- `Shuffle`: the swap loop of `ShuffleInt` as a function of its `Intn`
  results, with its permutation and derangement lemmas.
- `Rules`: each operation's result as a function of its arguments and
  draws (`IntegerRule`, `BoolRule`, `CharacterRule`, `StringRule`,
  `Capitalize`, `PickRule`), with the lemmas about them.
- `ChanceGen`: class `Chance`, whose methods follow the Go control flow and
  are proved equal to the rules. `Character` picks its pool with
  `Pools.CharacterPool`, and `String` omits the error return after its
  `Character` call, which cannot be reached.

`ShuffleInt` draws `Intn(i)` (chancego/chance.go:133), which is in [0, i),
so it is Sattolo's variant of the Fisher-Yates shuffle, not a uniform
shuffle. `Shuffle.ShuffleMovesEveryElement` proves that with at least two
elements, all distinct, every element moves.

## Model

| member | source | states |
|---|---|---|
| `GoText.RuneBytes` | chancego/chance.go:82 | `string(b)` for one byte: the byte itself below 0x80, otherwise a two-byte UTF-8 sequence (lead byte 110xxxxx, continuation byte 10xxxxxx) |
| `GoText.Utf8` | chancego/chance.go:82 | appending `string(b)` for each byte gives between n and 2n bytes, and an ASCII sequence comes out unchanged |
| `GoText.Utf8RoundTrip` | chancego/chance.go:82 | decoding the bytes built by `string(b)` conversions gives back exactly the bytes converted |
| `GoText.Utf8Append` | chancego/chance.go:82 | `ret += string(char)` extends the encoding of the earlier bytes by the runes of the new one |
| `GoText.UpperAscii` | chancego/chance.go:122 | upper-casing one ASCII byte: a lower-case letter becomes its capital (code minus 0x20), every other byte stays, and the result is never lower-case |
| `Pools.Letters` | chancego/chance.go:96-102 | the letter pool for any casing is non-empty and ASCII |
| `Pools.LettersMembers` | chancego/chance.go:96-102 | "lower" admits exactly the lower-case letters, "upper" exactly the capitals, and any other casing both |
| `Pools.LowerMembers` | chancego/chance.go:17 | `CHARS_LOWER` holds exactly 'a'..'z' |
| `Pools.UpperMembers` | chancego/chance.go:18 | `CHARS_UPPER` holds exactly 'A'..'Z' |
| `Pools.NumberMembers` | chancego/chance.go:16 | `NUMBERS` holds exactly '0'..'9' |
| `Pools.CharacterPool` | chancego/chance.go:104-112 | the pool `Character` indexes into is never empty; a non-empty caller pool overrides every flag; without one the pool is ASCII |
| `Pools.DefaultPoolMembers` | chancego/chance.go:110-111 | with no pool and no flags, a byte is in the pool iff it is a letter of the casing, a digit or a symbol |
| `Shuffle.Swap` | chancego/chance.go:134 | exchanging positions i and j keeps the length and the multiset, puts each element in the other's place and leaves every other position alone |
| `Shuffle.Steps` | chancego/chance.go:132-135 | the remaining swap iterations keep the length and the multiset of elements and leave the finished positions alone |
| `Shuffle.Shuffled` | chancego/chance.go:129-137 | the shuffled slice has the input's length and the same multiset of elements |
| `Shuffle.StepsMoveEveryPosition` | chancego/chance.go:132-134 | because j < i on every swap, no position ends up holding the element it started with |
| `Shuffle.ShuffleMovesEveryElement` | chancego/chance.go:129-137 | with at least two elements, all distinct, every element changes position, so the result is never the input order |
| `Rules.Message` | chancego/chance.go:40-141 | the six error texts of lines 40, 60, 68, 72, 93 and 141, each starting with "Chance: " |
| `Rules.MessagesDistinct` | chancego/chance.go:40-141 | two errors have the same text exactly when they are the same error |
| `Rules.IntegerRule` | chancego/chance.go:58-64 | fails with the min/max error exactly when min > max; otherwise the result lies in [min, max] |
| `Rules.IntegerBucket` | chancego/chance.go:62-63 | the result is k exactly when the draw scaled by max-min+1 lies in [k-min, k-min+1), so every value gets an equal share of the draws, negative ranges included |
| `Rules.IntegerReachesEvery` | chancego/chance.go:58-64 | every value in [min, max] is the result for some draw |
| `Rules.Clamp` | chancego/chance.go:42-47 | the likelihood moved into [0, 100]: kept when inside, 0 when below, 100 when above |
| `Rules.TruncateToInt` | chancego/chance.go:49 | Go's `int(x)` rounds toward zero: the result has the sign of x and lies within 1 of x, never farther from zero than x |
| `Rules.BoolRule` | chancego/chance.go:38-50 | fails exactly when clamping is off and the likelihood is outside [0, 100]; a likelihood <= 0 always gives false, and >= 100 always gives true |
| `Rules.BoolThreshold` | chancego/chance.go:42-49 | the result is true exactly when draw * 100 is below the clamped likelihood |
| `Rules.BoolMonotone` | chancego/chance.go:38-50 | for the same draw, raising the likelihood never turns true into false |
| `Rules.CharacterRule` | chancego/chance.go:88-119 | fails exactly when both alpha and symbols are set, whatever else is passed; otherwise it returns a byte of the chosen pool |
| `Rules.CharacterReachesEvery` | chancego/chance.go:114-118 | every byte of the chosen pool is returned for some draw |
| `Rules.AlphaCharacterCasing` | chancego/chance.go:96-107 | with alpha set and no pool, the result is a letter, and "lower" or "upper" fixes its case |
| `Rules.SymbolCharacter` | chancego/chance.go:90-109 | with symbols set and no pool, the result is one of the symbols, never a letter or a digit |
| `Rules.Chosen` | chancego/chance.go:77-81 | one `Character` call per draw, each returning a byte of the pool |
| `Rules.StringRule` | chancego/chance.go:66-86 | fails for length <= 0, and then for an empty pool; otherwise the result has between length and 2*length bytes, and for an ASCII pool exactly length bytes, each from the pool |
| `Rules.StringDecodes` | chancego/chance.go:75-85 | for any pool, decoding the result as UTF-8 gives exactly length bytes, each from the pool |
| `Rules.Capitalize` | chancego/chance.go:121-123 | keeps the length and every byte after the first; the first byte is upper-cased if it is a lower-case letter; a word not starting with a lower-case letter is returned unchanged |
| `Rules.CapitalizeIdempotent` | chancego/chance.go:121-123 | capitalising twice is the same as capitalising once |
| `Rules.PickRule` | chancego/chance.go:139-158 | fails exactly on an empty slice; count <= 1 gives exactly one element of the slice; otherwise it gives min(count, len-1) elements, never the whole slice, and none for a one-element slice; the picks are a sub-multiset of the slice |
| `Rules.PickDistinct` | chancego/chance.go:153-157 | from distinct elements the picks are distinct: they come from distinct positions |
| `ChanceGen.Chance.constructor` | chancego/chance.go:21-23 | a generator whose source will produce the given draws |
| `ChanceGen.Chance.Random` | chancego/chance.go:52-56 | returns the next `Float64()` draw and consumes it |
| `ChanceGen.Chance.Intn` | chancego/chance.go:133 | returns the next `Intn(n)` draw, which is in [0, n), and consumes it |
| `ChanceGen.Chance.Bool` | chancego/chance.go:38-50 | the clamping code returns `BoolRule` of the next draw and consumes it; on the error path it consumes nothing |
| `ChanceGen.Chance.Integer` | chancego/chance.go:58-64 | returns `IntegerRule` of the next draw and consumes it; for min > max it returns the error and consumes nothing |
| `ChanceGen.Chance.Character` | chancego/chance.go:88-119 | returns `CharacterRule` of the next draw and consumes it; with alpha and symbols both set it returns the error and consumes nothing |
| `ChanceGen.Chance.String` | chancego/chance.go:66-86 | the loop returns `StringRule` and consumes one draw per character, or none on an error |
| `ChanceGen.Chance.ShuffleInt` | chancego/chance.go:129-137 | returns a fresh array equal to `Shuffled` of the input under the next len-1 `Intn` draws, leaving the input array untouched |
| `ChanceGen.Chance.SwapDown` | chancego/chance.go:132-135 | the descending swap loop turns the array into `Shuffled` of its old contents |
| `ChanceGen.Chance.PickInt` | chancego/chance.go:139-158 | returns `PickRule` of its draws, consuming one draw for count <= 1 and len-1 draws otherwise |

## Left out

- `NewChance` and seeding (chancego/chance.go:31-36): the Mersenne-Twister
  library, `math/rand` and the wall clock. The constructor takes the future
  draws instead.
- How `math/rand` derives `Float64()` and `Intn(n)` from the raw source
  (its rejection sampling, for one). Each draw is just a value in the right
  range.
- IEEE-754 rounding in `random() * 100`, in `Integer`'s
  `random() * float64(max-min+1) + float64(min)`, and in the conversions back
  to int. Draws are exact reals, so effects of float64 rounding at huge ranges
  are not captured.
- 64-bit overflow of `max - min + 1` in `Integer`. Integers are unbounded.
- Statistical properties: uniformity of `Integer`, likelihood of `Bool`,
  equal likelihood of shuffles. They are not provable about a single draw.
  What can be stated deterministically is stated instead: `IntegerBucket`
  (equal-width buckets), `BoolThreshold`, and `ShuffleMovesEveryElement`.
- `Float`, `WeightedInt` and every weighted selection. They are called from
  test.go:28 and test.go:59, but `chancego/chance.go` does not define them.
- test.go, a demo program that prints results.
- `ChanceArguments`, `MAX_INT` and `MIN_INT` (chancego/chance.go:14-15,
  25-29): nothing uses them. `HEX_POOL` (chancego/chance.go:19) is declared, but no operation uses it.
- The slice capacity in `ShuffleInt` (chancego/chance.go:130) and in
  `PickInt` (chancego/chance.go:145). It is invisible in the results.
- Capitalize: requires a non-empty word, where Go panics on `word[0]`. It
  also requires an ASCII first byte, because upper-casing the two-byte UTF-8
  form of a byte >= 0x80 follows Unicode case tables that are not part of
  this model.
- Go returns a zero value next to every error (0, false, "", an empty
  slice). `Result.Err` carries only the error.
