# RandomPasswordGenerator in Dafny

A verified model of the Swift package RandomPasswordGenerator. A generator is
configured with a length, a set of character types (digits, uppercase,
lowercase, special characters) and optional excluded characters. `generate()`
then does the following, in order:

1. It rejects impossible configurations with one of four errors.
2. It builds the set of available characters: the selected alphabets minus the
   excluded characters.
3. It draws one available character per selected type (the coverage pass).
4. It draws the remaining characters from the whole available set (the fill
   pass).
5. It shuffles the result.

Modules:

- `CharacterTypes` (`character_type.dfy`): the four types and their fixed ASCII
  alphabets, built from codepoint ranges.
- `Generator` (`generator.dfy`): the error type, the configuration and its
  initializer, and `Generate` with its helpers. `Generate` is proved against
  two specification predicates. `IsPassword` says what a password promises.
  `IsReportedError` says which error the guards report, in the order they run.
- `GeneratorProperties` (`properties.dfy`): what the guards mean. Apart from the
  deliberate rejection of an empty type set, `generate()` fails exactly when no
  password can satisfy the configuration. The types' alphabets are disjoint,
  so covering `k` types takes at least `k` characters.
- `Scenarios` (`scenarios.dfy`): the configurations used by the package's unit
  tests, each with the outcome the model proves for it.
- `Wrappers` (`wrappers.dfy`): `Option` for Swift optionals. `Result` for a
  value returned or an error thrown.

The random draws are modelled as nondeterministic choices (`:|`). The
coverage pass draws through `RandomCharacter`, which chooses the index
`Int.random` would yield. The fill pass draws from the available set, which
is a Swift `Set`, so its draw is modelled as a direct choice of an element of
that set: any index into a set's unspecified order names one of its elements.
The shuffle chooses the swap partner in each step of the standard library's
Fisher–Yates pass. Every postcondition therefore
holds for every outcome of the random source. The shuffle is specified as an
arbitrary permutation, by multiset equality.

Two behaviours of the code are worth noting, and the model keeps both:

- The length is a signed `Int`. The length guard runs first, so a negative
  length with no types selected reports `insufficientLength`
  (`Scenarios.NegativeLengthWithoutTypes` shows this through `Generate`).
- The coverage pass draws characters for the types it visits before the one
  that has none, and only then throws `noAvailableCharactersForType`. Those
  draws never reach the caller.

## Model

| member | source | states |
|---|---|---|
| CharacterTypes.CodepointRange | Sources/RandomPasswordGenerator/RandomPasswordGenerator.swift:13-19 | a closed codepoint range becomes a string of `hi - lo + 1` characters, and the character at position `i` has codepoint `lo + i` |
| CharacterTypes.CodepointRangeMembers | Sources/RandomPasswordGenerator/RandomPasswordGenerator.swift:13-19 | a character is in the range's string exactly when its codepoint lies between the bounds |
| CharacterTypes.CharactersMembers | Sources/RandomPasswordGenerator/RandomPasswordGenerator.swift:10-21 | each type's alphabet holds exactly the characters of its codepoint ranges: 48–57, 65–90, 97–122, and 33–47, 58–64, 91–96, 123–126 |
| CharacterTypes.CharacterCounts | Sources/RandomPasswordGenerator/RandomPasswordGenerator.swift:10-21 | the alphabets have 10, 26, 26 and 32 characters |
| CharacterTypes.CharactersAscending | Sources/RandomPasswordGenerator/RandomPasswordGenerator.swift:10-21 | every alphabet is strictly ascending, including across the four special-character ranges, so no character repeats |
| CharacterTypes.CharactersDisjoint | Sources/RandomPasswordGenerator/RandomPasswordGenerator.swift:4-21 | no character belongs to two different types |
| Generator.Init | Sources/RandomPasswordGenerator/RandomPasswordGenerator.swift:55-59 | the length and types are kept; a nil exclusion stays nil; otherwise the excluded set holds exactly the characters of the given string |
| Generator.AllCharactersMembers | Sources/RandomPasswordGenerator/RandomPasswordGenerator.swift:74 | a character is in the union of the selected alphabets exactly when some selected type's alphabet holds it |
| Generator.Filter | Sources/RandomPasswordGenerator/RandomPasswordGenerator.swift:89 | the filtered alphabet holds exactly the alphabet's characters that are available and is no longer than the alphabet |
| Generator.RandomCharacter | Sources/RandomPasswordGenerator/RandomPasswordGenerator.swift:102-105 | the drawn character is an element of the non-empty collection, whatever index the random source yields |
| Generator.CharacterOfType | Sources/RandomPasswordGenerator/RandomPasswordGenerator.swift:88-94 | the closure yields a character exactly when the type has an available character; that character is both of the type and available |
| Generator.GenerateCharactersFromTypes | Sources/RandomPasswordGenerator/RandomPasswordGenerator.swift:87-96 | succeeds exactly when every type has an available character; it then returns one available character per type that together cover every type; otherwise it names a selected type with no available character |
| Generator.GenerateRandomCharacters | Sources/RandomPasswordGenerator/RandomPasswordGenerator.swift:98-100 | returns `length - count` characters, all from the available set |
| Generator.Shuffled | Sources/RandomPasswordGenerator/RandomPasswordGenerator.swift:84 | the result is a permutation of the input (same multiset) |
| Generator.CoverageAndFill | Sources/RandomPasswordGenerator/RandomPasswordGenerator.swift:81-82 | coverage characters followed by fill characters of the right total length form a password: right length, only available characters, every type covered |
| Generator.PermutedPassword | Sources/RandomPasswordGenerator/RandomPasswordGenerator.swift:84 | any permutation of a password is a password, so the shuffle keeps length, availability and coverage |
| Generator.Generate | Sources/RandomPasswordGenerator/RandomPasswordGenerator.swift:65-85 | succeeds exactly when the configuration is feasible; a result has exactly `length` characters, all available, none excluded, and at least one of every selected type; a failure is the error the guards report in their order |
| GeneratorProperties.AvailableCharactersMembers | Sources/RandomPasswordGenerator/RandomPasswordGenerator.swift:74-75 | a character is available exactly when a selected type's codepoint ranges hold it and it is not excluded, with nil exclusion meaning nothing excluded |
| GeneratorProperties.CoverageNeedsLength | Sources/RandomPasswordGenerator/RandomPasswordGenerator.swift:66-68 | a sequence covering `k` types has at least `k` characters, which is why the length guard compares with the number of types |
| GeneratorProperties.CoverageWitness | Sources/RandomPasswordGenerator/RandomPasswordGenerator.swift:87-95 | when every type has an available character, one available character per type can be chosen to cover every type |
| GeneratorProperties.CanGenerateIffPasswordExists | Sources/RandomPasswordGenerator/RandomPasswordGenerator.swift:66-79 | the guards and the coverage pass pass exactly when a type is selected and some password meets the configuration |
| GeneratorProperties.ReportedErrorMeansInfeasible | Sources/RandomPasswordGenerator/RandomPasswordGenerator.swift:66-92 | no error is reported for a configuration `generate()` can satisfy |
| GeneratorProperties.InfeasibleHasReportedError | Sources/RandomPasswordGenerator/RandomPasswordGenerator.swift:66-92 | every configuration `generate()` cannot satisfy has an error to report |
| GeneratorProperties.ReportedErrorKindIsFixed | Sources/RandomPasswordGenerator/RandomPasswordGenerator.swift:66-92 | two reports for the same configuration are the same error, or both `noAvailableCharactersForType` |
| GeneratorProperties.ReportedErrorNamesTheOnlyEmptyType | Sources/RandomPasswordGenerator/RandomPasswordGenerator.swift:87-92 | past the first three guards, when exactly one selected type has no available character, the error names that type |
| Scenarios.DigitsSpelledOut | Sources/RandomPasswordGenerator/RandomPasswordGenerator.swift:13 | the digit alphabet is "0123456789" |
| Scenarios.UppercaseSpelledOut | Sources/RandomPasswordGenerator/RandomPasswordGenerator.swift:15 | the uppercase alphabet is "A" to "Z" |
| Scenarios.LowercaseSpelledOut | Sources/RandomPasswordGenerator/RandomPasswordGenerator.swift:17 | the lowercase alphabet is "a" to "z" |
| Scenarios.DefaultConfigurationSucceeds | Tests/RandomPasswordGeneratorTests/RandomPasswordGeneratorTests.swift:5-17 | length 10 with digits, uppercase and lowercase and no exclusion is feasible, so `Generate` must succeed, and its contract then gives length 10 and all three types covered |
| Scenarios.ExclusionConfigurationSucceeds | Tests/RandomPasswordGeneratorTests/RandomPasswordGeneratorTests.swift:19-23 | excluding "123ABCabc" is still feasible, so `Generate` must succeed, and its contract then keeps those characters out of the password |
| Scenarios.GenerateWithExclusions | Tests/RandomPasswordGeneratorTests/RandomPasswordGeneratorTests.swift:19-23 | calling `Generate` on length 10 with digits, uppercase and lowercase and "123ABCabc" excluded returns a password of 10 characters that covers all three types and contains none of the excluded characters |
| Scenarios.NegativeLengthWithoutTypes | Sources/RandomPasswordGenerator/RandomPasswordGenerator.swift:66-72 | calling `Generate` with length -1 and no types fails with `insufficientLength`, because the length guard runs before the empty-types guard |
| Scenarios.LengthOneReportsInsufficientLength | Tests/RandomPasswordGeneratorTests/RandomPasswordGeneratorTests.swift:25-30 | length 1 with three types reports exactly `insufficientLength` |
| Scenarios.NoTypesReportsEmptyCharacterTypes | Tests/RandomPasswordGeneratorTests/RandomPasswordGeneratorTests.swift:32-37 | no types reports exactly `emptyCharacterTypes` |
| Scenarios.ExcludingAllReportsEmptyCharacterSet | Tests/RandomPasswordGeneratorTests/RandomPasswordGeneratorTests.swift:39-44 | excluding every digit and letter reports exactly `emptyCharacterSet` |
| Scenarios.ExcludingDigitsReportsDigits | Tests/RandomPasswordGeneratorTests/RandomPasswordGeneratorTests.swift:46-51 | excluding every digit reports exactly `noAvailableCharactersForType(.digits)` |

## Left out

- `errorDescription` (the localized message strings): constant text, nothing to prove.
- The statistical uniformity of `Int.random` and `shuffled()`: the draws are nondeterministic choices, so the contracts cover every outcome but say nothing about probabilities.
- Swift `Character` grapheme clusters and `UnicodeScalar`: characters are Dafny `char`s, and the alphabets are ASCII codepoints.
- Generator.Init: it splits the excluded string into code points, where Swift's `Set.init` splits it into grapheme clusters. So an excluded "a" followed by a combining accent excludes `a` in the model, while the source excludes only the accented cluster and leaves `a` available.
- The 64-bit width of `Int`: the length is an unbounded `int`. Memory limits for very long passwords are not modelled.
- The example app's SwiftUI view and the package manifest: they hold no generation logic.
- Generator.Filter: its contract states which characters survive, not that their order is kept; nothing downstream depends on the order.
- Generator.GenerateCharactersFromTypes: the order in which a Swift `Set` is traversed is left unspecified. When several types have no available character, the contract says only that the named type is one of them.
