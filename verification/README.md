# Calculator input parser, modelled in Dafny

This project models `InputParser.parseInput` of the hihellocalc calculator
(`index.ts`). That method is the repository's only logic. It takes one typed
line and either refuses it (`null`) or returns the object
`{operands, operators}`:

- A line is accepted when `input.match(/\d|[\+\-\*\/\!\%]/g)` finds at least
  one match and the number of matches equals the line's length. Each match is
  one character, so this means the line is non-empty and every character is a
  digit `0`-`9` or one of `+ - * / ! %`.
- `operands` (`InputParser.Operands`) is `input.split(/[\+\-\*\/\!\%]/)`
  with empty pieces removed. It holds the maximal runs of digits, kept as
  strings.
- `operators` (`InputParser.Operators`) is `input.split(/[\d]+/)` with empty
  pieces removed. It holds the maximal runs of operator characters. A stacked
  run such as `+!` stays one entry.

Modules:

- `Wrappers` holds `Option`, which stands for a value that may be `null`.
- `CharClasses` holds the two character classes, plus removing a class from a
  string and the length of a leading run.
- `StringSplit` holds JavaScript's `split` for a separator that matches one
  character (`SplitEach`) and one that matches a maximal run (`SplitRuns`),
  and `.filter(s => s.length)` (`NonEmpty`). Neither separator has the `g`
  flag, but `split` cuts at every match anyway.
- `InputParser` holds `ParseInput` and the properties of its result.

`index.ts` has no evaluator: `Calculator` is an empty class, whitespace and
`=` are refused, and stacked operators and digit strings are returned as they
are.

## Model

| member | source | states |
|---|---|---|
| InputParser.ParseInput | index.ts:10-19 | The line is accepted exactly when it is non-empty and every character is a digit or one of `+ - * / ! %`. Otherwise the result is `None`, and no partial result exists. |
| InputParser.MatchLegal | index.ts:11 | The global `match` returns `null` exactly when no character is legal. Otherwise it returns between 1 and `length` matches, and exactly `length` of them only when every character is legal. |
| InputParser.LegalMatches | index.ts:11-12 | The matches are legal characters. There are at most as many matches as characters, and exactly as many only when every character is legal. There are none only when no character is legal. |
| InputParser.Concatenation | index.ts:16-17 | On acceptance, the operands concatenate to the line with its operator characters removed. The operators concatenate to the line with its digits removed. |
| InputParser.TokenShape | index.ts:8-17 | On acceptance, every operand is a non-empty string of digits. Every operator is a non-empty string of operator characters. |
| InputParser.RoundTrip | index.ts:16-18 | On acceptance, take entries alternately from operands and operators, starting with the list matching the first character's kind. This rebuilds the line exactly. The starting list has as many entries as the other or one more. |
| InputParser.CountRelation | index.ts:16-17 | On acceptance, the operand count minus the operator count is -1, 0 or 1. It is 1 exactly when the line starts and ends with a digit. It is -1 exactly when the line starts and ends with an operator character. |
| InputParser.ParseIsUniqueTokenization | index.ts:10-18 | Take any alternation of non-empty digit runs and non-empty operator runs, and join it into a line. That line is accepted, and parsing it returns those same runs. So each operand and each operator is a maximal run, and adjacent operator characters form one entry. |
| InputParser.ExampleStackedOperators | index.ts:17 | `"5+!3"` parses to operands `["5", "3"]` and operators `["+!"]`. |
| InputParser.ExampleLeadingOperator | index.ts:16 | `"+12"` parses to operands `["12"]` and operators `["+"]`. |
| InputParser.ExamplesRejected | index.ts:11-13 | The empty line, `"5 + 3"`, `"1="`, `"1.5"` and `"q"` are all refused. |
| StringSplit.SplitEachCount | index.ts:8 | Splitting at each operator character gives one more piece than there are operator characters. |
| StringSplit.SplitEachSpells | index.ts:8 | The pieces of a split at each separator character concatenate to the input with its separators removed. |
| StringSplit.SplitRunsShape | index.ts:9 | When splitting at maximal digit runs, the first piece is empty exactly when the input is empty or starts with a digit. Every piece strictly between the first and the last is non-empty. |
| StringSplit.NonEmpty | index.ts:16-17 | The filter returns only non-empty pieces and never more pieces than it was given. A single piece is kept exactly when it is non-empty. |
| StringSplit.NonEmptyAppend | index.ts:16-17 | Filtering a concatenation of two lists filters each list and concatenates the results. Together with the single-piece case, this means the filter keeps exactly the non-empty pieces, in order. |
| StringSplit.NonEmptyKeepsText | index.ts:16-17 | The filter loses no character of the concatenation. |
| StringSplit.EachAndRunsAgree | index.ts:8-17 | After empty pieces are dropped, splitting at every separator character and splitting at maximal separator runs give the same list. |

## Left out

- The `inquirer` prompt loop is not modelled because it is interactive I/O through a foreign library. This covers the `'q'` quit sentinel, the `console.log` of the JSON result or `'invalid calculator input'`, and the recursive `main()` re-prompt (index.ts:22-42).
- The `Calculator` class (index.ts:3-5) is not modelled because it is empty. The source has no evaluator, arithmetic, number conversion or division.
- JavaScript strings are sequences of UTF-16 code units, and here they are `seq<char>`. Every accepted character is ASCII, so the two agree on every accepted line. A line with a character outside the Basic Multilingual Plane is refused either way.
- `parseInput` on a non-string argument (a runtime type error in JavaScript) is not modelled, because the model's type rules it out.
