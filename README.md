# Password analyser core, modelled in Dafny

This project models the logic of the password analyser's API server
(`server/server.js`): the strength scorer behind `POST /api/check-password`,
the masking applied to a password before it is written to the optional audit
log, and the generator behind `POST /api/generate-password`.

- `scoring.dfy` (module `Scoring`): `scorePassword` as a pure function from the
  request's `password` value to a `ScoreResult` of score, breakdown and label.
  The regular-expression tests become existential predicates over the string
  (`HasLower`, `HasUpper`, `HasDigit`, `HasSymbol`, `HasTripleRun`), the
  denylist test is `ContainsCommon` over the ASCII-lower-cased string, and the
  floating-point length ramp is `RoundSixths` on exact integers. Which keys the
  breakdown object holds is part of the model: none for invalid input, only
  `lengthScore` for a short password, all seven otherwise.
- `masking.dfy` (module `Masking`): `maskPwd` as a pure function on strings.
- `generator.dfy` (module `Generator`): the handler as a method. The parsed
  length is an `Option<int>` (`None` is NaN); the secure random source is the
  byte stream `entropy`; the method validates the length first and reports how
  many bytes it drew (`drawn`, zero on rejection). The append loop is the
  method `MapBytes`, proved against the pure function `Encode`. The modulo
  bias of `byte % 90` is proved exactly.
- `wrappers.dfy` (module `Wrappers`): the `Option` type.

The model follows the code in these choices:
- the breakdown flags are `containsCommon` and `repeatedChars`;
- the triple-run test is `/(.)\1\1/`, whose `.` does not match a line
  terminator, so three consecutive newlines do not close the pattern gate;
- the scorer's symbol class has 32 characters, the generator's alphabet only 28
  of them (it lacks `'`, `"`, `\` and `|`);
- the length score is `min(25, round((min(len, 12) - 6) / 6 * 25))`; the model
  proves that the cap at 25 never binds.

## Model

| member | source | states |
|---|---|---|
| `Masking.Stars` | server/server.js:41-42 | `'*'.repeat(n)` has length n and every character is `*` |
| `Masking.MaskPwd` | server/server.js:39-43 | the empty string masks to the empty string; the mask has the password's length; up to two characters it is all `*`; above two it keeps the first and last characters and has `*` at every interior position |
| `Masking.MaskDependsOnlyOnEnds` | server/server.js:39-43 | two passwords of the same length that agree on first and last characters (when longer than two) have the same mask, so the mask reveals nothing else |
| `Masking.MaskIdempotent` | server/server.js:39-43 | masking a mask gives the same mask |
| `Scoring.RoundSixths` | server/server.js:69 | the result is the integer nearest to n / 6, a tie going upwards, as `Math.round` does |
| `Scoring.LengthScore` | server/server.js:69 | the length score lies in 0..25, is 0 at length 6 and 25 at every length of 12 or more |
| `Scoring.LengthScoreMonotone` | server/server.js:69 | the length score never decreases as the length grows |
| `Scoring.LengthScoreIsRoundedRamp` | server/server.js:69 | the length score is the ramp 25 * k / 6, k = min(len, 12) - 6, rounded to the nearest integer with ties upwards, so the cap at 25 never binds |
| `Scoring.LengthScoreValues` | server/server.js:69 | lengths 6 to 11 score 0, 4, 8, 13, 17, 21; the exact tie 12.5 at length 9 rounds up |
| `Scoring.CaseScore` | server/server.js:73-78 | the case score is 0, 7 or 15; 15 exactly when both cases occur, 0 exactly when no ASCII letter occurs |
| `Scoring.ScorePassword` | server/server.js:46-110 | the score lies in 0..100; the label is "Invalid" exactly for non-string or empty input, with score 0 and an empty breakdown; it is "Too short (min 6)" exactly for one to five characters, with score 0 and only `lengthScore = 0`; from six characters on the breakdown is complete, the score is the sum of its five factors and the label is the threshold ladder of the score |
| `Scoring.SymbolClass` | server/server.js:86 | the symbol class lists 32 characters, none of them a letter, a digit or a line terminator, and it includes `'`, `"`, `\` and `\|` |
| `Scoring.ClassTestsSplit` | server/server.js:73-86 | each of the four class tests holds of a concatenation exactly when it holds of one of the parts (the tests are unanchored) |
| `Scoring.ClassTestsSingle` | server/server.js:73-86 | each class test holds of a one-character string exactly when that character is in the class |
| `Scoring.TripleRunOfChar` | server/server.js:94 | three copies of a character count as a run exactly when that character is not a line terminator |
| `Scoring.TripleRunExtends` | server/server.js:94 | a run of three stays a run whatever text surrounds it |
| `Scoring.AsciiLower` | server/server.js:91 | the result is never an upper-case letter, is a lower-case letter exactly when the input is a letter, keeps the letter's position in the alphabet, and leaves every other character unchanged |
| `Scoring.Lowered` | server/server.js:91 | the lowered string has the password's length and is folded character by character |
| `Scoring.LoweredFolds` | server/server.js:91-93 | the lowered string has no upper-case letter and a lower-case letter exactly when the password has a letter; lowering twice is lowering once; the denylist verdict is the same for a password and its lowered form |
| `Scoring.ContainsCommonExtends` | server/server.js:92-93 | a denylisted token is found whatever text surrounds it |
| `Scoring.BreakdownValues` | server/server.js:69-98 | each factor takes only its listed values: length is the ramp of the length, case is 15 exactly when both ASCII cases occur and 0 exactly when no letter does (else 7), digit and symbol are 20 exactly when such a character occurs, both pattern flags are always reported and equal the denylist and triple-run tests, and the pattern score is 0 exactly when one of the flags is set |
| `Scoring.CapNeverBinds` | server/server.js:100-101 | the five factors sum to at most 100, so the score is the sum itself |
| `Scoring.PerfectScore` | server/server.js:69-107 | the score is 100 if and only if the password has at least 12 characters, both cases, a digit, a symbol, no denylisted token and no triple run; such a password is "Very Strong" |
| `Scoring.PatternGateCapsScore` | server/server.js:91-107 | a password with a denylisted token or a triple run scores at most 80 and is never "Very Strong" |
| `Scoring.LabelFor` | server/server.js:104-107 | "Very Strong" exactly from 85, "Strong" exactly from 65 to 84, "Medium" exactly from 40 to 64, "Weak" exactly below 40 |
| `Scoring.LabelText` | server/server.js:50-107 | every label string sent is non-empty: no path returns the initial empty label |
| `Scoring.LabelTextDistinct` | server/server.js:53-107 | the six outcomes are sent as six different label strings |
| `Scoring.LabelMonotone` | server/server.js:104-107 | a higher score never gets a lower label |
| `Scoring.ScoreLabelMonotone` | server/server.js:100-107 | for passwords of six characters or more the label is graded and ordered as the scores are |
| `Scoring.LongerDigitRunsRedundant` | server/server.js:92-93 | the denylist test gives the same answer without "1234", "12345" and "123456", since each contains "123" |
| `Scoring.NoCommonWithoutLeadingPairs` | server/server.js:91-93 | a password in which no two adjacent characters, lower-cased, begin a denylisted token contains no denylisted token |
| `Scoring.ExampleFullMarks` | server/server.js:46-110 | "Tr0ub4dor&3XZ" scores 100 with every factor at its maximum, "Very Strong" |
| `Scoring.ExampleDenylisted` | server/server.js:46-110 | "password123" has `containsCommon` set and pattern score 0, and scores 48, "Medium" |
| `Scoring.ExampleRepeated` | server/server.js:46-110 | "aaaAAA111!!!" has `repeatedChars` set and pattern score 0, and scores 80, "Strong" |
| `Generator.Encode` | server/server.js:145-149 | the password has one character per byte, the character at index `byte % 90` of the alphabet, in draw order |
| `Generator.MapBytes` | server/server.js:145-149 | the append loop produces exactly `Encode` of the drawn bytes |
| `Generator.GeneratePassword` | server/server.js:136-151 | a missing (NaN) length or one below 6 is rejected with status 400 and the fixed message before any byte is drawn; any other length draws exactly that many bytes and returns their encoding with status 200 |
| `Generator.Status` | server/server.js:139-151 | the status is 200 exactly for a generated password and 400 exactly for a rejection |
| `Generator.CharForCongruent` | server/server.js:147-148 | two bytes yield the same character exactly when they are congruent modulo 90 |
| `Generator.GeneratedShape` | server/server.js:143-149 | an accepted request yields exactly the requested number of characters, all from the alphabet |
| `Generator.CharsetDistinct` | server/server.js:143 | the alphabet has 90 characters and none occurs twice |
| `Generator.ModuloBias` | server/server.js:147 | exactly 3 byte values select each index below 76 and exactly 2 each index from 76 to 89 |
| `Generator.CharacterBias` | server/server.js:143-148 | the same bias holds per emitted character: 3 bytes for each of the first 76 characters, 2 for each of the last 14 |
| `Generator.CharsetScoredByClasses` | server/server.js:143 | every character the generator can emit is a letter, a digit or a member of the scorer's symbol class |

## Left out

- HTTP plumbing (Express, CORS, body parsing, `app.listen`, the JSON envelope
  `{success, result}`): transport only; the generator's response keeps only
  which of the two shapes is sent, its message and its status.
- The MongoDB connection and the audit-log write: asynchronous I/O through a
  foreign client; only the masking it applies is modelled.
- `crypto.randomBytes`: its output is the parameter `entropy`, assumed long
  enough for the requested length; a length too large for the random source
  (which makes Node throw) is not modelled.
- `parseInt(length, 10)`: its JavaScript parsing rules are not modelled; the
  handler takes the parsed value as `Option<int>`, `None` standing for NaN.
- Scoring.AsciiLower: folds only ASCII `A`-`Z`, where `toLowerCase` folds all of
  Unicode. The denylist verdict is nevertheless the same for every input: the
  only non-ASCII characters whose lower case contains an ASCII letter are
  U+0130 (lowered to `i` followed by the combining dot U+0307) and U+212A (the
  Kelvin sign, lowered to `k`); no token contains `k`, and in every token an
  `i` is followed by another letter, so the combining dot breaks the match.
- Strings are sequences of Unicode scalar values, where JavaScript works on
  UTF-16 code units. A character outside the Basic Multilingual Plane is one
  character here and two code units there, which changes results: three
  U+1F600 are "Too short (min 6)" here but are scored in JavaScript; six
  U+1F600 form a triple run here (`HasTripleRun` holds), while in JavaScript
  they are twelve code units alternating D83D and DE00, so `/(.)\1\1/` finds
  no run; and `maskPwd("😀ab")` returns `"\uD83D**b"` in JavaScript (half of a
  surrogate pair, then two stars), where `MaskPwd` returns `"😀*b"`.
- Generator.GeneratePassword: that the output is unpredictable cannot be
  stated, since the random source is the parameter `entropy` and the model is
  deterministic; only the exact per-character selection counts
  (`ModuloBias`, `CharacterBias`) are proved.
- Masking.MaskPwd: modelled on strings only; a truthy non-string `password`
  field (a number, say) reaches `maskPwd` in the logging path and gives
  JavaScript-specific output that is not modelled.
- `Math.round` on floating point: replaced by exact rational rounding; the only
  tie on the ramp (12.5) is exact in binary floating point, and the other values
  are far from a tie.
- The React client (`client/src/PasswordChecker.js`, `client/src/App.js`): user
  interface and presentation only.
