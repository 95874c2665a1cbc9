# MillShow quiz controller, modelled in Dafny

MillShow is a live multiple-choice quiz run from a Flask application. An admin enables a question, teams submit an answer label, and the admin locks the question. Locking reveals the correct answer and credits the question's points to each team whose last answer matches it. This project models the controller in `app.py` without its HTTP layer:

- the in-memory `game_state` record and the loaded question list, as the class `Game.GameState`;
- the handlers `team_view`, `enable_question`, `lock_question`, `reset_game`, `submit_answer` and `upload_questions`, as methods of that class;
- `get_game_state`, `get_admin_game_state` and `get_scoreboard`, as functions that only read the state.

Modules, leaf first:

- `Wrappers`: `Option`, which stands for Python's `None`.
- `JsonValues`: decoded JSON values and Python's `in` operator on them (dict keys, list elements, substrings; any other value (null, a boolean or a number) raises `TypeError`).
- `Decimal`: what `str(n)` prints for an integer.
- `Questions`: the question bank, `q.get('points', 100)`, and the validation done by `upload_questions`. The validation is an early-return loop (`ValidateUpload`) proved equal to a specification function (`UploadVerdict`).
- `Teams`: team records, the name `team_view` gives a team, and recording an answer.
- `Scoring`: the credit one `lock_question` pass gives.
- `Scoreboard`: entries in dict order and the stable descending sort, modelled as an insertion sort that is proved sorted, a permutation and stable.
- `Game`: the state class and its handlers.
- `GameProperties`: call sequences proved from the handlers' contracts alone. This includes the two-team game: team 1 answers B, team 2 answers C, B is correct, so the scoreboard is team 1 with 100 then team 2 with 0.

How things are modelled:

- A handler returns `Status`. `Ok` is success. `Err(text)` is a 400 reply carrying the source's exact error text. `Fault` is an uncaught Python exception (a 500 reply).
- Where the source raises only after it has already changed some state, the model makes the same partial change:
  - `enable_question` with an index below `-len(questions)` stores the index and the flags, then raises `IndexError`;
  - `lock_question` sets the locked flag before it reads the question;
  - `score += points` raises `TypeError` on the first matching team when `points` is neither a number nor a boolean.
- Python dicts keep insertion order. The team dict is therefore a `map` plus `order`, the keys in insertion order. The class invariant ties the two together. `teams.items()` in the scoring loop and the scoreboard both visit teams in that order.
- Negative question indices are modelled as Python evaluates them: `xs[i]` with `-len <= i < 0` reads `xs[len + i]`, and the negative index itself is stored as `current_question`.
- The class invariant `Valid()` holds at start-up and after every handler. It states:
  - `current ≠ None ⇔ enabled`, and `locked ⇒ enabled`;
  - no current question means no cached answer;
  - while the current index is in range, the cached answer is that question's `correct` label;
  - every question is a dict with a string `correct`;
  - the team registry is consistent.

Behaviour of the code worth knowing, all modelled as written:

- Nothing guards a second `lock_question`, so it credits again (`Scoring.CreditedTwice`, `GameProperties.LockTwice`).
- `answers` only needs each of A, B, C and D to be `in` it. That value can be a dict with extra keys, a list holding the four strings, or a string such as `"ABCD"` (`Questions.AnswersAsString`).
- `enable_question` rejects only a missing index or `index >= len`, so negative indices get through.
- The validator accepts any `points` value, so a negative one lowers scores.
- The team view's `question_data` is the whole question, `correct` key included, on every poll (see "## Findings").
- Re-enabling a question keeps the answers already recorded for it.

## Model

| member | source | states |
|---|---|---|
| `JsonValues.PyIn` | app.py:170-183 | Python's `key in c` result: dict-key membership for a dict, element equality for a list, a substring test (the key occurs at some offset) for a string; any container that is not a dict, list or string raises `TypeError` (`None`) |
| `JsonValues.IsSubstringIff` | app.py:183 | Python's `in` on two strings holds exactly when the needle occurs at some offset of the haystack |
| `Questions.AnswersAsString` | app.py:183 | `IsSubstring` makes `opt in answers` a substring test on a string: `"ABCD"` passes the options check, `"ABC"` fails it, and a number raises |
| `Decimal.NatToString` | app.py:50 | `str(n)` is a non-empty string of decimal digits with no leading zero |
| `Decimal.ParseNatToString` | app.py:50 | reading the printed digits back gives the number, so printing is injective |
| `Questions.AcceptedPointsExplicit` | app.py:112 | every question an accepted upload installs has its own `points` entry, so `q.get('points', 100)` returns that entry and the default only applies to questions read at start-up |
| `Questions.ScanKeys` | app.py:178-181 | the scan over required keys reports all present exactly when each `in` test holds; a missing key is the first one whose test fails with all earlier ones passing; a fault exactly when `in` raises on the first key |
| `Questions.OptionsPresent` | app.py:183-184 | `all(opt in answers ...)` holds exactly when each of A, B, C, D is `in` the answers, and raises exactly when `in` raises on that value |
| `Questions.CheckEntryFault` | app.py:177-187 | `CheckEntry` faults exactly when `in` raises on the question, when the question is a list or string holding the four key names (indexing it by a key raises), or when `in` raises on its `answers` |
| `Questions.ValidateQuestion` | app.py:178-187 | the loop over the required keys of one question, then the options and label checks, reaches exactly the per-question verdict `CheckEntry` |
| `Questions.EntryOkIff` | app.py:177-187 | a question passes exactly when it is a dict with the four required keys, answers containing A to D, and `correct` a string among A, B, C, D |
| `Questions.EntryOkUsable` | app.py:186-194 | a passing question has a string `correct` label among A to D and a `points` key, which the enable and lock handlers read |
| `Questions.MissingKeyIsFirst` | app.py:178-181 | a reported missing key is the first of `question`, `answers`, `correct`, `points` that the question lacks |
| `Questions.FirstFailure` | app.py:177-187 | returns the first index at or after `from` whose question fails, with every question before it passing; or none when all pass |
| `Questions.UploadAcceptedIff` | app.py:170-188 | all or nothing: an upload is accepted exactly when `questions` is present, is a list, and every entry passes; the accepted bank is that list |
| `Questions.UploadTopLevelErrors` | app.py:170-174 | `UploadVerdict` reports a missing `questions` exactly when the `in` test is false, a non-list exactly when a dict's `questions` is not a list, and faults when `in` raises or a non-dict passes the `in` test |
| `Questions.AcceptedBankUsable` | app.py:186-194 | every question of an accepted upload has a string `correct` label |
| `Questions.UploadNamesFirstFailure` | app.py:177-187 | a per-question error carries the 1-based number of the first failing question, all earlier questions pass, and the error is that question's own first failed check |
| `Questions.ValidateUpload` | app.py:170-188 | the early-return loop over questions and required keys reaches exactly the verdict `UploadVerdict` specifies |
| `Questions.MessageNumber` | app.py:181-187 | each per-question `Message` starts with `Question `, the 1-based number (which reads back from the text) and a space; a missing-key message ends with the key |
| `Teams.TeamNamesDistinct` | app.py:50 | different team numbers get different `Team n` names |
| `Teams.TeamNameReadsBack` | app.py:50 | a team's name `TeamName(n)` is `Team ` followed by the digits of `n`, which read back as `n` |
| `Teams.RecordAnswer` | app.py:146 | recording an answer sets exactly the current question's entry, keeps every other answer, and keeps name and score |
| `Teams.LastAnswerWins` | app.py:146 | a second submission for the same question replaces the first |
| `Scoring.SameAnswerUnique` | app.py:116 | `SameAnswer` is Python `==` against the cached answer: at most one value matches it, and no label matches an absent answer |
| `Scoring.MatchesAfterSubmit` | app.py:115-116 | after a submission for the question, whether the team `Matches` depends only on the submitted answer |
| `Scoring.Credited` | app.py:114-117 | one scoring pass keeps every team, name and answer log, and adds the amount exactly to teams whose answer for the question equals the cached correct answer |
| `Game.ScoringPass` | app.py:114-117 | the loop over teams in dict order computes exactly `Credited` with the amount `Credit` gives for `score += points` (an integer as it is, a boolean as 1 or 0), and when `Credit` gives none (any other `points` value) changes no score and raises exactly when some team matches |
| `Scoring.CreditedMonotone` | app.py:114-117 | with non-negative points no score decreases, and teams without a matching answer are untouched |
| `Scoring.CreditedTwice` | app.py:105-117 | two scoring passes over the same question credit matching teams twice |
| `Scoreboard.Entries` | app.py:221-228 | one entry per team in dict order, with that team's number, name and score |
| `Scoreboard.InsertSorted` | app.py:229 | inserting into a list sorted by descending score keeps it sorted and adds exactly that entry |
| `Scoreboard.InsertPlacement` | app.py:229 | `Insert` puts the entry after every entry scoring more and before the first that does not, the others in order |
| `Scoreboard.RankingSorted` | app.py:229 | the ranking is sorted by non-increasing score and is a permutation of the entries |
| `Scoreboard.InsertWithScore` | app.py:229 | an inserted entry goes before the entries of equal score already in a sorted list |
| `Scoreboard.RankingStable` | app.py:229 | the entries of any one score appear in the ranking in the same order as in the input |
| `Scoreboard.SortedUnique` | app.py:229 | two lists sorted by descending score that agree on each score's entries in order are equal |
| `Scoreboard.RankingUnique` | app.py:229 | `Ranking` is the only list sorted by descending score that keeps each score's entries in input order, which is what Python's stable `sort(reverse=True)` returns |
| `Game.PyIndex` | app.py:98 | a Python index within `-len..len-1` selects a position below `len`, counting from the end when it is negative |
| `Game.GameState.constructor` | app.py:14-20 | the start state has no current question, both flags off, no cached answer and no teams, and satisfies the invariant |
| `Game.GameState.TeamView` | app.py:44-53 | a number outside 1..maxTeams is rejected with no change; a new valid number is added as `Team n` with score 0 at the end of dict order; a known number leaves everything unchanged |
| `Game.GameState.Enable` | app.py:89-98 | a missing index or `index >= len` is rejected with no change; an in-range index (negative ones counting from the end) opens that question unlocked with its correct label cached and teams untouched; an index below `-len` stores index and flags, then faults |
| `Game.GameState.Lock` | app.py:105-117 | with no current question it is rejected with no change; otherwise it sets locked and credits exactly the matching teams with `Credit` of the question's points (default 100; an integer as it is, a boolean as 1 or 0), nothing else changing; a `points` that is neither a number nor a boolean faults with no credit when some team matches |
| `Game.GameState.Reset` | app.py:124-128 | clears current, both flags and the cached answer, and empties the team map |
| `Game.GameState.Submit` | app.py:136-146 | rejects when no question is open, before the unknown-team check; rejects an unregistered team; otherwise overwrites only that team's answer for the current question, the label unvalidated |
| `Game.GameState.Upload` | app.py:170-200 | an accepted upload replaces the bank and clears current, both flags and the cached answer, keeping teams and scores; any rejection or fault changes nothing and reports the verdict's message |
| `Game.GameState.PublicState` | app.py:66-73 | the team view shows the stored index and both flags, and `question_data` is the whole current question (its `correct` key included) while one is set; only the `correct_answer` field is withheld until the question is locked; it faults only when the stored index is out of range |
| `Game.GameState.AdminState` | app.py:78-84 | the admin view shows the stored index, both flags, all teams and the cached correct answer, which is the current question's label even while the question is open |
| `Game.GameState.GetScoreboard` | app.py:221-231 | the scoreboard is a permutation of the team entries, sorted by non-increasing score, with tied teams in registration order |
| `Game.OpenQuestionHidden` | app.py:72-83 | while a question is open the team view's `correct_answer` field is empty and the admin view has the answer; `question_data` still carries it (`Game.QuestionDataLeaksAnswer`) |
| `Game.QuestionDataLeaksAnswer` | app.py:70-72 | while a question is open the team view's `question_data` has a `correct` key holding the cached answer, though `correct_answer` is empty |
| `Game.GameState.RedactedPublicState` | app.py:70-72 | the team view with `correct` removed from `question_data` until the question is locked, its keys exactly the question's other keys with their values, every other field as in `get_game_state`, and identical to it once locked |
| `Game.RedactedHidesAnswer` | app.py:70-72 | in the redacted team view of an open question neither `correct_answer` nor `question_data` carries the answer, while the admin view has it |
| `GameProperties.EnableSubmitLock` | app.py:92-117 | for any in-range index, negative ones counting from the end, after enable, submit and lock a registered team gains the question's points exactly when its answer is the correct label |
| `GameProperties.LockTwice` | app.py:105-117 | locking twice credits matching teams twice the points |

## Findings

| source | as written | input that shows it | evidently intended | confidence | as-written member | corrected member |
|---|---|---|---|---|---|---|
| app.py:70 | `question_data` is the whole current question, `correct` key included, on every team poll | a game with question 0 enabled and not locked: `get_game_state` answers with `correct_answer` null but `question_data.correct` set to the label | the label stays out of the team view until `lock_question`, as `show_correct` and `correct_answer` (app.py:71-72) arrange | not executed | `Game.QuestionDataLeaksAnswer` | `Game.GameState.RedactedPublicState` |

## Left out

- HTTP routing, template rendering (`index`, `admin_view`, the page of `team_view`), CORS and `jsonify`. These are transport glue. The text of a success response is not modelled: the lock reply's `correct_answer` is the `correct` field, and the upload reply's question count is the length of `questions`.
- Reading and writing `questions.json` (`load_questions`, `save_questions`, `download_questions`) and the `json.loads`/UTF-8 decoding of an upload. Upload takes an already-decoded JSON value, and only its `questions` list is kept, because no handler reads any other part of the document.
- The upload filename checks and the text of the 500 error. An exception is the `Fault` status.
- JSON floating-point numbers. A question index or team number that is a boolean, float or string is not modelled either; indices and team numbers are integers. Python would treat `True` as 1.
- Game.GameState.Submit: a request without `team_number` is not modelled. `data.get` then gives `None`, which is never a registered team, so the source replies `Invalid team` once a question is open (app.py:136, 142-143).
- A request without a JSON body, where `request.json` is `None`: the handler raises.
- Game.GameState.constructor: the question file read at start-up is not validated by the source. The constructor requires every entry to be a dict with a string `correct`. In the source, an entry that is not a dict, or lacks `correct`, makes `enable_question` raise after changing state; a non-string `correct` (a number, null) is cached as it is and compared against answers, which the model's `Option<string>` cache cannot hold.
- `MAX_TEAMS` (10 in `config.py`) is the parameter `maxTeams` of `TeamView`.
- Concurrent requests. The source has no locking, and the model is sequential.
- Scoring.CreditedMonotone: stated only for non-negative points, because the validator accepts any `points` value and a negative one lowers scores.
