# Hint-episode API and rating harness, modelled in Dafny

This project models a small system that collects training episodes for a
hint-giving agent in a word-guessing game. The API server (`api.mjs`) picks a
secret target word from a wordpack, records an episode for it, asks a language
model for one hint, checks whether the hint leaks the target or one of its
aliases as a whole word, and scores the hint with a reward that favours short,
non-leaking hints that a guesser solves. The rating harness (`rater.mjs`) drives
the four endpoints episode by episode and lets a second model guess the word.

Modules, one per concern:

- `Wrappers` (`wrappers.dfy`): `Option` and `Result`.
- `JsText` (`js_text.dfy`): the JavaScript string built-ins the code relies on.
  These are the `\s` whitespace class, `trim`, `split(/\s+/)`,
  `filter(Boolean)`, ASCII `toLowerCase`, the `\w` characters behind `\b`, and
  the combining marks U+0300..U+036F.
- `ApiHelpers` (`api_helpers.dfy`): `clamp`, `tokCount`, `strip`, `brevity`
  and `leaks`. `leaks` has two parts: a reference predicate `Leaks` and the
  early-return loop `LeaksScan`, which is proved equal to it.
- `Api` (`api.dfy`): the wordpack lookup `byId`, the reward formula and the
  class `Server`. The class holds the wordpack, the `episodes` table (a map from
  store-assigned ids) and the `feedback` table (an append-only sequence). Its
  methods `NextTarget`, `CreateEpisode`, `Hint` and `AutoReward` are the four
  endpoints. The ghost predicate `Valid` is the store invariant, and every
  endpoint preserves it. In the model, where only the endpoints write the store:
  - every episode carries the aliases of its wordpack entry, with model checkpoint `base`;
  - the hint, leak flag and token count of an episode are written together;
  - the stored token count is `tokCount` of the stored hint;
  - every feedback row belongs to an episode that has a hint;
  - every reward lies in [-1, 1] and is -1 exactly when the tag is `leak`;
  - feedback ids increase.
- `Rater` (`rater.dfy`): `norm`, the guess post-processing, the `ALLOWED`/`solved`
  decision, the episode count, and the main loop. The main loop is modelled as
  methods that drive a `Server` and return the calls each iteration made. The
  predicate `FollowsScript` states those calls for one iteration: their order,
  which of them fail, and their answers, all as functions of the iteration's
  inputs. `Reported` gives the feedback row an iteration leaves, and `Effects`
  what it leaves in the `episodes` table. `Run` proves that the feedback table
  ends with exactly the reported rows. It also proves that the final `episodes`
  table is the old one plus exactly the fresh rows the iterations created, each
  holding its word id and target and, unless its hint request failed, its hint.
  After a failed hint request its hint columns are empty.

Inputs from the environment are parameters:

- the random number of `next-target`;
- the chat service's reply to `hint` (its content, or the error text of a
  non-success response);
- the guessing model's message content;
- the store's write failures (an optional error message per insert or update).

`Math.log` is a parameter `ln` as well. The model assumes only that `ln(1) = 0`
and that `ln` is strictly increasing from 1 on (`LogShape`). From that it proves
three facts: `brevity(0) = 1`, `brevity` lies in (0, 1], and `brevity` is
strictly decreasing.

Points where the code behaves in a way a reader might not expect; the model
follows the code:

- `guessWithGPT` never checks the status of the chat response. An error response
  with a JSON body, or a reply without content, gives a missing or blank message. That becomes the
  guess "" (`EmptyGuess`), which is still compared with the allowed words and
  sent to `auto-reward` (`rater.mjs:26-29`, `rater.mjs:47-49`). A transport
  failure or a body that is not JSON throws instead. The loop then ends the
  iteration before `auto-reward`; that path is not modelled.
- `hint` checks the hint for leaks against the target the caller sends, not the
  target stored on the episode. It uses the stored aliases (`api.mjs:80-81`).
- `auto-reward` re-runs the leak test whenever the stored flag is not `true`,
  not only when the flag is missing. It also uses the caller's target
  (`api.mjs:104`).
- The stored hint is the reply trimmed (`api.mjs:44`). "Has a hint" means the
  hint is non-empty (JavaScript truthiness, `api.mjs:78` and `api.mjs:102`).
  So an episode whose stored hint is empty can be given a hint again, but it
  cannot be scored.
- An empty wordpack makes `next-target` fail with a server error. It is not a
  start-up failure (`api.mjs:51-52`).
- A stored token count of 0 is recounted (`api.mjs:105`). Because of the
  invariant, the recount is always 0 again, and `AutoReward` proves that
  `total_tokens` is `tokCount` of the stored hint.

## Model

| member | source | states |
|---|---|---|
| `JsText.ToLower` | api.mjs:20 | An upper-case ASCII letter is lowered to the letter 32 code points on. The result is never an upper-case ASCII letter, and every other character is unchanged. Whitespace, marks and word characters keep their class. |
| `JsText.Trim` | api.mjs:19 | The result neither starts nor ends with whitespace. It is the slice of the input between its leading and its trailing whitespace. |
| `JsText.TrimIdempotent` | api.mjs:19 | Trimming twice is trimming once. |
| `JsText.TrimUnique` | api.mjs:19 | Whitespace, then a piece with no whitespace at either end, then whitespace, trims to exactly that piece. |
| `JsText.TrimSurrounding` | api.mjs:19 | Whitespace added around a text does not change what it trims to. |
| `JsText.SplitWs` | api.mjs:19 | `split(/\s+/)` gives at least one piece. The first piece is the input up to its first whitespace, and no piece contains whitespace. |
| `JsText.NonEmpty` | api.mjs:19 | `filter(Boolean)` keeps exactly the non-empty strings and never lengthens the list. |
| `ApiHelpers.Clamp` | api.mjs:18 | For lo <= hi the result lies in [lo, hi]. It is x when x is in range, lo below the range and hi above it. |
| `ApiHelpers.TokCount` | api.mjs:19 | `tokCount` as the source computes it: trim, split on whitespace runs, drop empty pieces, count. `TokCountIsRunCount` and `TokCountZero` state what the count is. |
| `ApiHelpers.TokCountIsRunCount` | api.mjs:19 | `tokCount` equals the number of maximal non-whitespace runs of the text. |
| `ApiHelpers.TokCountZero` | api.mjs:19 | `tokCount` is 0 exactly for empty or whitespace-only text. |
| `ApiHelpers.Strip` | api.mjs:20 | The result has no combining mark and no upper-case letter, and is no longer than the input. |
| `ApiHelpers.StripChar` | api.mjs:20 | On one character, folding removes a combining mark and lowers anything else. |
| `ApiHelpers.StripNoMarks` | api.mjs:20 | A text without combining marks keeps its length, and each of its characters is lowered in place. |
| `ApiHelpers.StripIgnoresCase` | api.mjs:20 | Texts that differ only in ASCII letter case fold to the same string. |
| `ApiHelpers.StripDropsMark` | api.mjs:20 | A separate combining mark anywhere in a text is removed by folding. |
| `ApiHelpers.StripIdempotent` | api.mjs:20 | Folding twice is folding once. |
| `ApiHelpers.StripConcat` | api.mjs:20 | Folding works character by character: it distributes over concatenation. |
| `ApiHelpers.Brevity` | api.mjs:21 | `brevity` as the source computes it, with `Math.log` the parameter `ln`. `BrevityRange` and `BrevityDecreasing` state its properties. |
| `ApiHelpers.BrevityRange` | api.mjs:21 | `brevity(n)` is defined for every n >= 0, lies in (0, 1] and is 1 at n = 0. |
| `ApiHelpers.BrevityDecreasing` | api.mjs:21 | m < n implies brevity(n) < brevity(m). |
| `ApiHelpers.Forms` | api.mjs:23 | The forbidden forms are exactly the non-empty folded forms of the target and the aliases. |
| `ApiHelpers.Leaks` | api.mjs:22-26 | The reference definition of the leak test: some non-empty folded form of the target or an alias occurs as a whole word in the folded text. `LeaksScan` is proved equal to it. |
| `ApiHelpers.LeaksScan` | api.mjs:22-26 | The first-match loop returns true exactly when some non-empty folded form occurs as a whole word in the folded text. |
| `ApiHelpers.WordAtPlainForm` | api.mjs:24 | For a form made of word characters, `\bf\b` matches at p exactly when the form stands at p with no word character directly before or after it. |
| `ApiHelpers.LeaksMonotone` | api.mjs:22-26 | Adding aliases never turns a leaking hint into a non-leaking one. |
| `ApiHelpers.LeaksFoldedText` | api.mjs:23 | Folding the text before the test does not change the verdict. |
| `ApiHelpers.LeaksIgnoresCase` | api.mjs:23-24 | Texts that differ only in ASCII letter case get the same verdict. |
| `ApiHelpers.LeaksIgnoresMark` | api.mjs:23-24 | A separate combining mark inserted anywhere in the text does not change the verdict. |
| `ApiHelpers.LeaksIgnoresTargetCase` | api.mjs:23-24 | Targets that differ only in ASCII letter case give the same verdict. |
| `ApiHelpers.LeaksNeedsText` | api.mjs:22-26 | Only a non-empty text can leak. |
| `ApiHelpers.EmptyFormsNeverLeak` | api.mjs:23 | A target and aliases that all fold to empty never leak. |
| `ApiHelpers.PlantedWordLeaks` | api.mjs:22-26 | A word that folds like the target or like an alias always leaks when it is placed in a text whose folded neighbours are not word characters. |
| `ApiHelpers.CatHintLeaks` | api.mjs:22-26 | "A cat is a small pet" leaks the target "cat". |
| `ApiHelpers.ShoutedCatLeaks` | api.mjs:22-26 | "The CAT sat" leaks the target "cat": case does not hide the word. |
| `ApiHelpers.CatInsideWordDoesNotLeak` | api.mjs:24 | "concatenate" does not leak "cat": a match inside a longer word does not count. |
| `Api.ById` | api.mjs:15 | The lookup finds nothing exactly when no entry has the id. Otherwise it returns an entry with that id, and no later entry has the same id (the last one wins). |
| `Api.AliasesOf` | api.mjs:62 | The aliases a new episode stores: the entry's alias array, or none when it has none. |
| `Api.Present` | api.mjs:59 | JavaScript truthiness of a string field: present and non-empty. |
| `Api.PresentId` | api.mjs:73 | Truthiness of an id: present and not 0. |
| `Api.HasHint` | api.mjs:78 | The episode's stored hint is truthy, that is, present and non-empty. |
| `Api.ErrorText` | api.mjs:90 | The message of a 500 is never empty: it is the thrown error's message, or "Error" when that message is empty. |
| `Api.PickIndex` | api.mjs:51 | `Math.floor(u * n)` for u in [0, 1) is a valid index k with k <= u*n < k+1. |
| `Api.PickReachesEvery` | api.mjs:51 | Every index k < n is picked by some u in [0, 1), namely k/n. |
| `Api.PickAt` | api.mjs:51-52 | The picked pair is some wordpack entry's target and id, and that id resolves through `byId`. |
| `Api.ScoreOf` | api.mjs:107-109 | The reward lies in [-1, 1] and is -1 whenever the hint leaked. The tag is `leak` exactly when it leaked and `auto_len+solve` exactly when it did not leak and was solved. |
| `Api.MinusOneMeansLeak` | api.mjs:107-109 | A reward of -1 occurs exactly for leaking hints. |
| `Api.RewardWithoutLeak` | api.mjs:109 | Without a leak, a solved hint earns brevity + 0.2, capped at 1. An unsolved hint earns exactly brevity - 0.2, which lies in (-0.2, 0.8]. |
| `Api.SolvingPays` | api.mjs:109 | For the same non-leaking hint, solved scores strictly more than unsolved. |
| `Api.ShorterScoresHigher` | api.mjs:109 | For non-leaking hints, fewer tokens never score less, and score strictly more when unsolved. |
| `Api.LogShapeMeetable` | api.mjs:21 | The assumption made of `Math.log` can be met. |
| `Api.InsertKeepsStoreOk` | api.mjs:61-63 | Inserting a snapshot row under a fresh id keeps the store invariant. |
| `Api.HintKeepsStoreOk` | api.mjs:84-86 | Writing hint, leak flag and token count onto an episode without a hint keeps the store invariant. |
| `Api.AppendKeepsStoreOk` | api.mjs:111-112 | Appending a well-formed feedback row with the next id keeps the store invariant. |
| `Api.HintFor` | api.mjs:80-82 | The hint for a chat reply is the reply trimmed, with the token count of that text and its leak verdict against the target and the aliases. |
| `Api.MakeHint` | api.mjs:80-82 | The hint computed with the first-match leak loop is `HintFor` of the reply. |
| `Api.Assess` | api.mjs:104-109 | `didLeak` holds exactly when the stored flag is `true` or the leak test finds the target or an alias. When the stored count is missing or correct, the total is `tokCount` of the hint. The score is `ScoreOf` of these, and it is -1 exactly when the hint leaked. |
| `Api.Server.Valid` | api.mjs:56-117 | The store invariant listed above. The constructor establishes it, and every endpoint keeps it. |
| `Api.Server.InsertEpisode` | api.mjs:61-63 | The row is stored under the next id, which is fresh and non-zero. Nothing else changes, and the store invariant is kept. |
| `Api.Server.WriteHint` | api.mjs:84-86 | Hint, leak flag and token count are written onto that one episode. Nothing else changes, and the store invariant is kept. |
| `Api.Server.AppendFeedback` | api.mjs:111-112 | The row is appended with the next id. Nothing else changes, and the store invariant is kept. |
| `Api.Server.constructor` | api.mjs:14-15 | The server starts with the given wordpack, empty tables and the store invariant. |
| `Api.Server.NextTarget` | api.mjs:50-53 | It answers exactly when the wordpack is non-empty, with the entry at index `floor(u * n)`. An empty wordpack gives a server error. |
| `Api.Server.CreateEpisode` | api.mjs:56-67 | Missing or falsy fields give 400. An unknown word id gives 400. A failed insert gives 400 with the store's message. Only success writes a row: a snapshot (caller's target, the entry's aliases or [], checkpoint `base`) under a fresh non-zero id. Feedback is untouched. |
| `Api.Server.Hint` | api.mjs:70-91 | The checks run in source order: fields (400), row (400), existing hint (409), chat failure (500, with the error's message or "Error"), failed update (400). It succeeds exactly when none of these applies. Every failure leaves the tables unchanged. On success it answers `HintFor` of the reply and writes that hint onto that episode only. |
| `Api.Server.AutoReward` | api.mjs:94-117 | Episodes are never changed. Missing fields, an unknown row, a missing hint or a failed insert give 400 and write no feedback, and it succeeds exactly when none of these applies. Then `didLeak` is "stored flag true, or the leak test", and `total_tokens` is `tokCount` of the hint. Reward and tag are `ScoreOf` of these. Exactly one row is appended, with the next id. |
| `Rater.Norm` | rater.mjs:10 | `norm` gives a folded string with no leading or trailing whitespace. |
| `Rater.NormIdempotent` | rater.mjs:10 | Normalising twice is normalising once. |
| `Rater.NormIgnoresCase` | rater.mjs:10 | Strings that differ only in ASCII letter case normalise alike. |
| `Rater.NormIgnoresMark` | rater.mjs:10 | `norm` removes a separate combining mark wherever it stands. |
| `Rater.NormIgnoresSurroundingSpace` | rater.mjs:10 | Whitespace around a string does not change its normal form. |
| `Rater.NormFixed` | rater.mjs:10 | A folded string without edge whitespace is its own normal form. |
| `Rater.DropQuotes` | rater.mjs:29 | The result has no `"`, `'` or backquote and is no longer than the input. |
| `Rater.DropQuotesChar` | rater.mjs:29 | A quote character is removed, and any other character is kept. |
| `Rater.DropQuotesAround` | rater.mjs:29 | A quote-free word between two quote characters loses just the quotes. |
| `Rater.GuessFromReply` | rater.mjs:28-29 | The guess is a folded string without whitespace and without quote characters. |
| `Rater.GuessIsFirstPiece` | rater.mjs:28-29 | Take a reply made of whitespace, then a whitespace-free piece, then nothing or whitespace and anything. Its guess is that piece with its quotes dropped, normalised. |
| `Rater.QuotedGuess` | rater.mjs:28-29 | A reply whose first piece is a quoted word yields that word normalised: `"Cat"` counts as `cat`. |
| `Rater.EmptyGuess` | rater.mjs:26-29 | A reply with no content, or only whitespace, yields the empty guess "". |
| `Rater.Allowed` | rater.mjs:36 | The `ALLOWED` set as the source builds it: the normalised target and aliases (`item.aliases \|\| []`). `SolvedIff` states what membership means. |
| `Rater.Solved` | rater.mjs:47 | `ALLOWED.has(norm(guess))`, stated through `SolvedIff`. |
| `Rater.SolvedIff` | rater.mjs:36-47 | A guess solves the episode exactly when it normalises to the normalised target or to a normalised alias. |
| `Rater.Iterations` | rater.mjs:6 | The number of iterations: 10 without an argument, 0 for an argument below 1, and otherwise the argument's integer part. `IterationsMatchLoop` ties it to the loop condition. |
| `Rater.IterationsMatchLoop` | rater.mjs:6 | The loop body runs for counter i >= 1 exactly when i <= `EPISODES`. `EPISODES` is the argument, or 10 without one. |
| `Rater.FollowsScript` | rater.mjs:32-53 | The reference script of one iteration: next-target, episode, hint, then auto-reward after a leak or a guess and auto-reward otherwise. Which call fails is fixed by the iteration's inputs, and so is every answer except the new episode's id. |
| `Rater.LeakedHintReports` | rater.mjs:41-43 | After a leaking hint the iteration reports exactly the `leak` row, with reward -1 and no guess, unless the store refuses it. A leaking hint is never empty. |
| `Rater.GuessedHintReports` | rater.mjs:46-49 | After a non-leaking hint the iteration reports one row for its guess. Its reward and tag are the score of the hint's token count, with `solved` decided by `ALLOWED`. There is no row for an empty hint or a refused insert. |
| `Rater.FailedHintStaysOpen` | rater.mjs:40-43 | After a failed hint request the iteration's episode exists and has no hint, so it is open for another `hint` request. |
| `Rater.RunEpisode` | rater.mjs:33-52 | One iteration keeps the store invariant and makes the calls `FollowsScript` prescribes. It appends exactly the row it reports, with the next id. It keeps every existing episode. The only row it adds is the fresh one it created, if any, which holds its word id and target. Its hint columns hold the stored hint, or stay empty when the hint request failed. |
| `Rater.FromTarget` | rater.mjs:35-49 | An unknown word id ends the iteration with no call and no change. Otherwise the iteration goes on as `FromItem` says. |
| `Rater.FromItem` | rater.mjs:37-49 | `episode` is called with the picked pair. It fails exactly for an empty id or target or a failed insert, and then nothing changes. Otherwise exactly one row is added, under a fresh id, and it holds the picked word id and target. Its hint columns hold the stored hint, or stay empty when the hint request failed. |
| `Rater.AskEpisode` | rater.mjs:37-38 | The episode request fails exactly for an empty id or target or a refused insert, and then changes nothing. Otherwise it adds one row under the next id: the pick's word id and target, the entry's aliases, no hint, checkpoint `base`. |
| `Rater.FromEpisode` | rater.mjs:40-49 | The hint call fails exactly when the chat service or the update fails. Otherwise the episode's hint columns hold the answer, and nothing else in `episodes` changes. Feedback grows by exactly the reported row. |
| `Rater.AskHint` | rater.mjs:40 | The hint answer is `HintFor` of the chat reply, or a failure exactly when the chat service or the update fails. Only that episode's hint columns are written. |
| `Rater.Report` | rater.mjs:41-49 | A leak is followed by auto-reward with `solved = false` and no guess. Otherwise the guess is made, and auto-reward gets `solved` from `ALLOWED` and the guess. Only `feedback` changes, by the reported row. |
| `Rater.Reward` | rater.mjs:49 | Auto-reward as the harness calls it appends the row for the stored hint, unless the hint is empty or the insert fails. Nothing else changes. |
| `Rater.NextIteration` | rater.mjs:33-52 | One more pass of the loop body keeps the loop's account of the store. Its script and effects join those of the earlier iterations, and its id and row are added to theirs. |
| `Rater.Run` | rater.mjs:32-53 | Exactly `EPISODES` iterations run, each following the script for its inputs whatever earlier ones did. The feedback table ends with the rows the iterations report, in order and with consecutive ids. No existing episode changes. The final `episodes` table holds the old rows and exactly the fresh rows the iterations created. Each holds its word id and target, and its hint or, after a failed hint request, empty hint columns. |
## Left out

- NFD normalisation is the identity here. Characters that only decompose under
  NFD (a precomposed "é", say) keep their accent, so only combining marks that
  are already separate are removed. Unicode normalisation tables are out of scope.
- `ToLower`: only ASCII letters are lowered. Full Unicode case mapping is out of scope.
- `ApiHelpers.Leaks`: a target or alias is matched literally. In the source it
  is pasted unescaped into a regular expression, so metacharacters in a
  wordpack entry (or one that makes the pattern invalid) behave differently.
  The `i` flag is not modelled, because both sides are already lower-cased.
- `JsText.IsWordChar`: `\b` uses the ASCII `\w` class, as JavaScript does
  without the `u` flag. Characters outside the Basic Multilingual Plane are
  single characters here, not surrogate pairs.
- `ApiHelpers.Brevity`: `Math.log` is an abstract parameter with the weakest
  shape the proofs need. Concrete values such as brevity(9) ~ 0.707 and
  brevity(20) ~ 0.451 are therefore not stated. Arithmetic is exact over reals,
  not IEEE floating point.
- The network calls are not modelled: to the language model (`generateHint`,
  `guessWithGPT`), to the Supabase store, and the harness's HTTP requests to
  the server. Their answers are parameters. Only the `hint` reply, a failure
  of each write, and the guess content are represented. A malformed JSON reply
  or an exception thrown inside a handler is not modelled, except for the empty
  wordpack and the error `generateHint` throws on a non-success chat reply
  (a 500 with `ErrorText` of its message).
- `Api.Server.Hint`: select failures other than a missing row are not modelled.
- `Api.Server.AutoReward`: select failures other than a missing row are not
  modelled either. A store error on the select is a 400 with the store's message.
- `Api.ById`: `byId` is a plain object. An id such as `toString`, `constructor`
  or `__proto__` that no entry has finds an inherited property there, not
  `undefined`. In the model such an id finds nothing.
- The `hint_created_at` timestamp and the `model_ckpt` column beyond its
  constant value are not modelled.
- `Math.random` is the parameter `u`, not a source of randomness. Uniformity is
  stated only as "every entry is reachable" (`PickReachesEvery`).
- Concurrency is not modelled: each endpoint call is atomic. So the race between
  two concurrent `hint` calls for one episode, a known problem of the
  read-then-write check, cannot occur in the model.
- Express, dotenv, reading the wordpack file and the `OPENAI_API_KEY` check are
  out of scope. Both programs read the same wordpack file, so the model uses one
  catalogue. The logging of failed iterations and of "Done." is output only.
- `Rater.Iterations`: a command-line argument that is not a number (`NaN`, for
  which the loop never runs) is not representable. Neither is `Infinity`, for
  which the loop never ends. The argument is a real number.
- `Rater.FollowsScript`: the id of a newly created episode is whatever the store
  hands out. The script leaves it open. `AskEpisode` ties it to the store's next
  id, and `FromItem` to the row that holds the picked word id and target.
- `Rater.Allowed`: the harness spreads `item.aliases || []`. A truthy non-array
  `aliases` value cannot occur in the model, which has `aliases` as an optional
  sequence.
- `Api.Server.AutoReward`: `solved` is a boolean (a missing field is `false`)
  and `guess` an optional string. A truthy non-boolean `solved` or a non-string
  `guess` in the request body is not modelled.
- Ids are natural numbers handed out from 1 by the store. JSON bodies with ids
  of other types are not modelled. Truthiness of an id is "not 0".
- The one-shot insertion scripts `insert-episode.mjs` and `insert-feedback.mjs`
  are not part of this model: they write rows directly, with no logic of their own.
