# Password strength meter: a Dafny model

This project models the two pieces of logic in the password strength meter's `app.py`:

- **The strength evaluator** (`check_password_strength`). A password on a fixed,
  case-sensitive denylist is rated Weak and gets one "too common" message. Any
  other password gets a score from 0 to 5, one point for each of five rules:
  at least 8 characters, an upper-case letter, a lower-case letter, a digit, and
  one of `!@#$%^&*`. The feedback list holds one suggestion for each failing
  rule, in that order. A score of at most 2 is Weak, 3 or 4 is Moderate, and 5
  is Strong. A Strong password gets the single affirmative message instead of
  the suggestions.
- **The generator** (`generate_strong_password`). It builds `length` characters,
  each picked from the 70-character alphabet of ASCII letters, digits and
  `!@#$%^&*`.

`password_strength.dfy` (module `PasswordStrength`) holds the evaluator in two forms.
`Evaluate` is a pure specification. `CheckPasswordStrength` is a method that works
as the source does: it checks the denylist, scans once per character class for the
score, then builds the feedback with one conditional append per rule, scanning
again. Its postcondition says it returns exactly `Evaluate`'s result. The
specification's suggestion list is a filter over the list of rules (`Criteria`),
which is independent of the append chain. The lemmas state the properties of
`Evaluate`. The source's rating strings `"Weak"`, `"Moderate"` and `"Strong"` are
the constructors of `Rating`.

The feedback list is never empty: a Strong rating comes with the affirmative
message (app.py:40) instead of the (then empty) suggestion list.

`password_generator.dfy` (module `PasswordGenerator`) holds the generator and its
alphabet. The random source is a parameter: the sequence of alphabet positions it
picks, one per character. The length defaults to 12, as in the source. For a
length of zero or less the generator returns the empty string, because `range` of
such a length is empty (app.py:46).

## Model

| member | source | states |
|---|---|---|
| `PasswordStrength.Search` | app.py:20-36 | a scan for one character class returns true exactly when some character of the password is in that class |
| `PasswordStrength.CheckPasswordStrength` | app.py:9-40 | the denylist check, the score, the appended feedback list and the classification together return exactly the rating and feedback of the specification `Evaluate` |
| `PasswordStrength.CommonPasswordIsWeak` | app.py:13-15 | a password equal to one of the five denylisted strings is rated Weak with the single "too common" message |
| `PasswordStrength.ScoreCountsRules` | app.py:18-24 | the score equals the number of the five rules the password satisfies, so it is at most 5 |
| `PasswordStrength.FeedbackComplementsCount` | app.py:18-37 | for any list of rules, the number of suggestions equals the number of rules minus the number that hold |
| `PasswordStrength.FeedbackMembership` | app.py:27-37 | a rule's suggestion is in the feedback exactly when the rule is listed and fails |
| `PasswordStrength.FeedbackFromFailingRules` | app.py:27-37 | every suggestion in the feedback belongs to a listed rule that fails |
| `PasswordStrength.FeedbackInRuleOrder` | app.py:27-37 | the suggestions appear in the order of the rules (a subsequence of all the rules' suggestions) |
| `PasswordStrength.SuggestionInjective` | app.py:28-37 | two rules have the same suggestion text only if they are the same rule |
| `PasswordStrength.RatingThresholds` | app.py:40 | for a password not on the denylist: Weak iff the score is at most 2, Moderate iff it is 3 or 4, Strong iff it is 5 |
| `PasswordStrength.FeedbackMatchesScore` | app.py:18-40 | for a password not on the denylist: a Weak or Moderate rating comes with exactly the failing rules' suggestions, in rule order, 5 minus the score of them and at least one; a Strong rating comes with the affirmative message alone, and the suggestion list it replaces is empty |
| `PasswordStrength.OutcomeMessages` | app.py:13-40 | the feedback is the single "too common" message iff the password is denylisted, and the single affirmative message iff the rating is Strong |
| `PasswordStrength.FeedbackNeverEmpty` | app.py:13-40 | every evaluation, denylisted or not and whatever the rating, gives at least one message |
| `PasswordStrength.EmptyPasswordIsWeak` | app.py:13-40 | the empty password is not denylisted, scores 0, and is rated Weak with all five suggestions in rule order |
| `PasswordStrength.AllRulesExampleIsStrong` | app.py:18-40 | `Abc12345!` scores 5 and is rated Strong with the affirmative message |
| `PasswordStrength.LowercaseOnlyExampleIsWeak` | app.py:18-40 | `abcdefgh` scores 2 and is rated Weak |
| `PasswordStrength.NoSpecialExampleIsModerate` | app.py:18-40 | `Abcdefgh1` scores 4 and is rated Moderate, with only the special-character suggestion |
| `PasswordStrength.DenylistOverridesScore` | app.py:13-24 | `password123` would score 3 (Moderate), but the denylist makes it Weak |
| `PasswordGenerator.CharRange` | app.py:45 | the letter and digit runs of the alphabet have the stated length and contain exactly the characters of their code-point range |
| `PasswordGenerator.AlphabetHasSeventy` | app.py:45 | the alphabet has 70 characters |
| `PasswordGenerator.AlphabetIsTheFourClasses` | app.py:45 | a character is in the alphabet iff it is an upper-case letter, a lower-case letter, a digit or one of `!@#$%^&*` |
| `PasswordGenerator.Generate` | app.py:43-46 | the password has `length` characters, or none when `length` is zero or negative, and its i-th character is the alphabet character at the i-th draw; `length` defaults to 12 |
| `PasswordGenerator.GeneratedCharsInAlphabet` | app.py:45-46 | every generated character is in the alphabet, and so in one of the four character classes |
| `PasswordGenerator.GeneratedPasswordMayBeWeak` | app.py:43-46 | nothing checks the output against the evaluator: with the default length, twelve draws of position 0 give `aaaaaaaaaaaa`, which is rated Weak |

## Left out

- The Streamlit interface and `copy_to_clipboard` (app.py:49-78). They only render output, wire buttons and warn on empty input.
- The random source (`random.choice`, app.py:46). It is replaced by the sequence of alphabet positions it draws. Its distribution and independence are not modelled.
- `PasswordGenerator.Generate`: it requires at least `length` draws. This is the model's stand-in for the random source, which the source never runs out of.
- The regular-expression engine (`re.search`, app.py:20-23 and 30-36). Each pattern is a direct scan for its character class (`Search`).
- Non-ASCII digits. Python's `\d` also matches other Unicode decimal digits; `IsDigit` accepts only `0`-`9`.
