# Credential pool and transform route — a Dafny model

This project models the credential rotation core of an image-transformation web service.

**The token manager** (`lib/token-manager.ts`) owns a fixed pool of Hugging Face tokens. Each token has a usage record: minutes used, last use, in-use flag, quota flag and the time of the last quota mark. For each image job the manager sorts the pool in place with a four-tier comparator. It then walks the sorted pool and hands out the first token that passes three tests: not in use, not quota-blocked (a mark clears itself after four hours) and not at today's 5-minute cap. Each job is then reported back as one of:

- a charged finish, rounded up to a tenth of a minute;
- an uncharged release;
- a quota demotion.

The manager also gives a redacted status snapshot and runs a daily reset. `loadTokens` builds the token list from the environment.

**The transform route** (`app/api/transform-ghibli/route.ts`) keeps an in-memory task table. A submission takes a token and records a `processing` task. A background worker then completes the task (charging the token) or fails it (releasing the token uncharged). A status check reports a finished task once and then deletes it.

How the model represents these:

- Time is a parameter `now`, in integer milliseconds.
- A calendar day is `DayOf(ms)`.
- Usage is kept in integer tenths of a minute, so `Math.ceil(seconds / 6) / 10` minutes is `ceil(ms / 6000)` tenths.
- The external image service is a parameter `Outcome` of the worker step.
- The task id generator is a fresh-id parameter.

Modules:

- `Wrappers`: an Option type.
- `JsStrings`: `includes`, one-character `split` with its inverse `Join`, `trim`, and decimal rendering.
- `TokenRecords`: the usage record and the pure rules over it:
  - the day test and the comparator;
  - the selection walk as a recursive reference function `Walk`;
  - the per-token operations, the daily reset of one record and the status entry;
  - the lemmas about all of these.
- `TokenManagement`: the class `TokenManager` over an `array<TokenUsage>`:
  - an in-place insertion sort, proved to give a sorted permutation;
  - the selection loop, proved equal to `Walk` on the sorted pool;
  - one method per source operation.
- `TokenConfig`: `loadTokens`, with its reading loops proved against reference functions.
- `TransformRoute`: the class `Route`, with the task table as a `map` and a shared `TokenManager`. Its invariant `Valid()` is `Consistent` on the pool and the table, and says three things. First, the pool holds each token string once. Second, every processing task holds its own token: the token is in use in the pool, and no other processing task has it. Third, every completed task has its image. Every step keeps `Valid()`, and so a status check never reaches the "invalid task state" branch.
- `PoolScenarios`: client methods with no contract of their own. They show from the contracts alone that a token marked at `t0` is refused at every instant up to `t0` plus four hours and handed out at every instant after, that a held token is skipped, and that a token at the daily cap is refused.

The model follows the code in these points, where its behaviour is easy to misread:

- The sort compares the raw quota flag. A mark older than four hours is cleared only during the walk, after sorting, so such a token still sorts after unmarked ones.
- The status snapshot's `available` reads the raw quota flag. It does not apply the four-hour check.
- `lastUsed` is set only by `startUsingToken`. Selection itself does not set it.
- A report for zero elapsed time charges nothing (`ChargedTenths(0) == 0`).
- A second `finishUsingToken` on the same token charges again (`FinishChargesEachCall`). A second `releaseToken` changes nothing (`ReleaseIdempotent`).

## Model

| member | source | states |
|---|---|---|
| `JsStrings.Contains` | app/api/transform-ghibli/route.ts:239-241 | `s.includes(p)` holds exactly when `p` occurs in `s` at some offset |
| `JsStrings.Split` | lib/token-manager.ts:270 | splitting on `,` gives at least one part, no part holds the separator, and joining the parts gives the input back |
| `JsStrings.SplitOfJoin` | lib/token-manager.ts:270 | splitting a join of separator-free parts gives those parts back (the other half of the round trip) |
| `JsStrings.Trim` | lib/token-manager.ts:270 | `trim()` gives a contiguous piece of the input that has only whitespace before and after it, and that neither starts nor ends with whitespace |
| `JsStrings.TrimUnique` | lib/token-manager.ts:270 | any piece of the input with only whitespace around it and none at its ends is the trimmed string, so `trim()` is fully determined |
| `JsStrings.DecimalString` | lib/token-manager.ts:280 | the index in `HUGGING_FACE_TOKEN_${i}` is rendered as decimal digits that spell the index, with no leading zero |
| `JsStrings.DecimalStringInjective` | lib/token-manager.ts:280 | different numbers are rendered as different strings |
| `TokenRecords.SameDayWindow` | lib/token-manager.ts:98-103 | an instant is on the same day as `now` exactly when it lies between that day's midnight (included) and the next midnight (excluded) |
| `TokenRecords.SameDayWithinADay` | lib/token-manager.ts:98-103 | two instants that fall on the same calendar day are less than a day apart |
| `TokenRecords.Compare` | lib/token-manager.ts:77-92 | the quota flag decides first (a marked token sorts after an unmarked one), then whether the token was used today (used today sorts after); two records tie exactly when they agree on both and on their tier's key (usage when used today, last use otherwise) |
| `TokenRecords.CompareMeansTiers` | lib/token-manager.ts:76-92 | the comparator orders `a` before `b` exactly as the four tiers do: unmarked before marked, then not-used-today before used-today, then lower usage among tokens used today, then older `lastUsed` among tokens not used today |
| `TokenRecords.BeforeTotal` | lib/token-manager.ts:77-92 | any two records are ordered one way or the other by the comparator |
| `TokenRecords.BeforeTransitive` | lib/token-manager.ts:77-92 | the comparator's order is transitive, so sorting by it is well defined |
| `TokenRecords.SortedTiers` | lib/token-manager.ts:76-92 | in a sorted pool, at any earlier/later pair: no marked token comes before an unmarked one; with equal flags, a used-today token never comes before a not-used-today one; usage is non-decreasing among tokens used today; `lastUsed` is non-decreasing among tokens not used today |
| `TokenRecords.PermutationKeepsDistinct` | lib/token-manager.ts:77 | reordering a pool with distinct token strings keeps them distinct |
| `TokenRecords.Visit` | lib/token-manager.ts:127-137 | a token the walk looks at loses its quota mark exactly when it is free and the mark is absent or strictly older than four hours; no other field changes |
| `TokenRecords.Walk` | lib/token-manager.ts:119-153 | the walk keeps the pool's size and every token string in place, and a token it hands out is one that passed the three skip tests and is in use afterwards |
| `TokenRecords.FirstSelectable` | lib/token-manager.ts:119-149 | the walk stops at the first token that passes the three skip tests, and every token before it fails one |
| `TokenRecords.WalkOutcome` | lib/token-manager.ts:119-153 | the walk picks the first selectable token and sets it in use; tokens before it are only visited; tokens after it are untouched; with no selectable token the result is null |
| `TokenRecords.WalkPickedIsSelectable` | lib/token-manager.ts:119-148 | a picked token was not in use, is not quota-blocked after the four-hour check, is not at today's cap, is in use afterwards with no quota mark, and every earlier token failed a test |
| `TokenRecords.WalkNone` | lib/token-manager.ts:119-153 | the walk returns null exactly when every token fails a skip test, and on that path no token's in-use flag changes |
| `TokenRecords.WalkKeepsHeld` | lib/token-manager.ts:109-153 | sorting and walking never free a token that was in use |
| `TokenRecords.WalkPicksUnheld` | lib/token-manager.ts:119-148 | in a pool of distinct tokens, the token handed out was not held by anyone before, and it is held afterwards |
| `TokenRecords.WalkKeepsTokens` | lib/token-manager.ts:119-149 | the walk keeps the pool's size and every token string in place, so distinct tokens stay distinct |
| `TokenRecords.WalkStep` | lib/token-manager.ts:119-148 | one loop step of the walk: a token failing a skip test is visited and passed over; a token passing all three ends the walk with exactly the pool and result `Walk` gives |
| `TokenRecords.WalkEnd` | lib/token-manager.ts:119-153 | a walk that passed over every token returns null and leaves exactly the pool `Walk` gives |
| `TokenRecords.FindIndex` | lib/token-manager.ts:160 | `find` lands on the first record holding the token, and finds nothing exactly when no record holds it |
| `TokenRecords.ChargedTenths` | lib/token-manager.ts:176 | the charge is the least whole number of tenths of a minute covering the elapsed time, and it is never negative for a non-negative duration |
| `TokenRecords.Apply` | lib/token-manager.ts:159-203 | no per-token operation changes a record's token string |
| `TokenRecords.ForToken` | lib/token-manager.ts:159-203 | a per-token operation keeps the pool's size and token strings, and an unknown token leaves the pool unchanged |
| `TokenRecords.UsageOnlyGrowsOnFinish` | lib/token-manager.ts:170-180 | only a finish changes usage; it adds exactly the rounded-up charge, never decreases usage for a non-negative duration, and zero time adds zero |
| `TokenRecords.ApplyFields` | lib/token-manager.ts:159-203 | start stamps `lastUsed` and holds; finish frees and adds the rounded-up charge; release frees; a quota mark sets the flag and `lastQuotaCheck` to now and frees; no operation changes any other field |
| `TokenRecords.ReleaseIdempotent` | lib/token-manager.ts:186-191 | releasing a token a second time changes nothing more |
| `TokenRecords.FinishChargesEachCall` | lib/token-manager.ts:170-180 | a second finish on the same token charges its duration a second time |
| `TokenRecords.ForTokenKeepsOthersHeld` | lib/token-manager.ts:159-203 | updating one token's record never changes whether another token is held |
| `TokenRecords.StartHolds` | lib/token-manager.ts:159-165 | starting a token that is in the pool leaves it held |
| `TokenRecords.ForTokenKeepsDistinct` | lib/token-manager.ts:159-203 | per-token updates keep token strings distinct |
| `TokenRecords.ResetRecord` | lib/token-manager.ts:232-240 | the reset zeroes usage exactly for a token not used today and changes no other field |
| `TokenRecords.ResetIdempotent` | lib/token-manager.ts:229-244 | resetting twice is resetting once, and after a reset only tokens used today keep usage |
| `TokenRecords.Redact` | lib/token-manager.ts:218 | a status entry shows at most the first ten characters of the token, followed by "..." |
| `TokenRecords.StatusOf` | lib/token-manager.ts:210-223 | an entry has the redacted token, the raw usage and the raw quota flag; `available` implies the token would pass the selection tests; without a quota mark the two agree; a marked token is never reported available |
| `TokenManagement.TokenManager.constructor` | lib/token-manager.ts:23-29 | one record per listed token, in order, with zero usage, `lastUsed` at the epoch, not in use and no quota flag |
| `TokenManagement.TokenManager.InsertAt` | lib/token-manager.ts:77-92 | one insertion step: the first `i + 1` records end up sorted by the comparator, and the records are only permuted |
| `TokenManagement.TokenManager.SortTokensByUsage` | lib/token-manager.ts:76-93 | the pool afterwards is a permutation of the pool before, ordered by the comparator between every earlier and later record |
| `TokenManagement.TokenManager.GetToken` | lib/token-manager.ts:109-154 | the new pool and the result are what `Walk` gives on a sorted permutation of the old pool |
| `TokenManagement.TokenManager.UpdateToken` | lib/token-manager.ts:160-161 | the shared `find`-then-update step: the first record holding the token gets the operation, and an unknown token changes nothing |
| `TokenManagement.TokenManager.StartUsingToken` | lib/token-manager.ts:159-165 | the token's record gets `lastUsed` = now and is in use; an unknown token changes nothing |
| `TokenManagement.TokenManager.FinishUsingToken` | lib/token-manager.ts:170-181 | the token's record is freed and charged the rounded-up duration; an unknown token changes nothing |
| `TokenManagement.TokenManager.ReleaseToken` | lib/token-manager.ts:186-191 | the token's record is freed and nothing else changes; an unknown token changes nothing |
| `TokenManagement.TokenManager.MarkTokenQuotaExceeded` | lib/token-manager.ts:196-204 | the token's record is marked quota-exceeded as of now and freed; an unknown token changes nothing |
| `TokenManagement.TokenManager.TokensStatus` | lib/token-manager.ts:209-224 | reads only, and gives one entry per record, in pool order |
| `TokenManagement.TokenManager.ResetDailyUsage` | lib/token-manager.ts:229-244 | every record becomes its reset, in place; the pool size is unchanged |
| `TokenConfig.IndexedVarInjective` | lib/token-manager.ts:279-280 | the indices 1 to 20 name 20 different variables |
| `TokenConfig.QualifyingParts` | lib/token-manager.ts:270-275 | every part kept from the comma list is non-empty and starts with "hf_" |
| `TokenConfig.QualifyingPartsMembers` | lib/token-manager.ts:270-275 | a string is kept from the comma list exactly when it is a trimmed part that is non-empty and starts with "hf_" |
| `TokenConfig.IndexedCandidates` | lib/token-manager.ts:279-284 | a value is kept exactly when it is the value of one of the variables 1 to n and is non-empty and starts with "hf_" |
| `TokenConfig.EnvCandidatesMembers` | lib/token-manager.ts:259-288 | a token is found in the environment exactly when it is the qualifying single variable, a qualifying trimmed part of a non-empty comma list, or the qualifying value of one of the indexed variables 1 to 20 |
| `TokenConfig.Dedup` | lib/token-manager.ts:291 | removing repeats keeps exactly the same strings, with no string twice |
| `TokenConfig.CandidatesQualify` | lib/token-manager.ts:250-288 | every token that reaches de-duplication starts with "hf_", defaults included |
| `TokenConfig.DefaultsAreDistinct` | lib/token-manager.ts:252-256 | the three defaults come out of de-duplication unchanged |
| `TokenConfig.CollectListTokens` | lib/token-manager.ts:268-276 | the comma-list loop collects exactly the trimmed qualifying parts, in order |
| `TokenConfig.CollectIndexedTokens` | lib/token-manager.ts:279-284 | the indexed-variable loop collects exactly the qualifying values of variables 1 to 20, in order |
| `TokenConfig.CollectEnvTokens` | lib/token-manager.ts:259-284 | the environment reading collects the single token, then the list, then the indexed tokens |
| `TokenConfig.LoadTokens` | lib/token-manager.ts:250-292 | every returned token starts with "hf_" and none repeats; the returned tokens are exactly the qualifying environment tokens when there are any, and the three defaults otherwise |
| `TransformRoute.Dispatch` | app/api/transform-ghibli/route.ts:19-38 | a missing or empty action is "submit"; "check" with an id checks that id; "check" without an id, and any other action, is a 400 |
| `TransformRoute.ThrownMessage` | app/api/transform-ghibli/route.ts:206-229 | a missing image URL throws its fixed text; a failed download's message starts with "Failed to download image: " and ends with the status text; a thrown error keeps its message, and only a message-less throw has none |
| `TransformRoute.FriendlyMessage` | app/api/transform-ghibli/route.ts:238-243 | the metadata phrase maps to the API-connection text and takes precedence; the fetch phrase maps to the network text; any other message, or none, passes unchanged |
| `TransformRoute.FailureText` | app/api/transform-ghibli/route.ts:130 | a failed task reports its error, or "Unknown error occurred" when the error is missing or empty |
| `TransformRoute.ReportedOnce` | app/api/transform-ghibli/route.ts:125-146 | a failed or completed task is reported once: a second status check of the same id answers 404 and changes nothing |
| `TransformRoute.WalkKeepsConsistent` | app/api/transform-ghibli/route.ts:58-67 | taking a token for a submission, whether or not one is found, keeps every processing task's token held and the pool's tokens distinct |
| `TransformRoute.StartKeepsConsistent` | app/api/transform-ghibli/route.ts:69-80 | recording a new processing task with a token no other processing task holds, and starting that token, keeps the route invariant |
| `TransformRoute.SettleKeepsConsistent` | app/api/transform-ghibli/route.ts:213-250 | finishing or releasing a processing task's token while marking the task completed (with its image) or failed keeps the route invariant |
| `TransformRoute.Route.constructor` | app/api/transform-ghibli/route.ts:11-17 | an empty task table over a pool of distinct tokens satisfies the route invariant |
| `TransformRoute.Route.HandleSubmission` | app/api/transform-ghibli/route.ts:41-90 | no image gives a 400 with the pool and table unchanged; with no token available the result is a 503 and no task is added; otherwise exactly one processing task is added with the token and start time, the token is started, it was held by no other task and it is held afterwards; the invariant is kept |
| `TransformRoute.Route.CheckTaskStatus` | app/api/transform-ghibli/route.ts:107-153 | an unknown id gives a 404; a processing task stays and reports whole elapsed seconds; a failed task and a completed task are reported once and deleted; the pool is untouched and the invalid-state branch is never reached |
| `TransformRoute.Route.ProcessImageAsync` | app/api/transform-ghibli/route.ts:156-252 | success charges the token for the elapsed time and completes the task with its image; any error releases the token uncharged and fails the task with the rewritten message; the invariant is kept |
| `TransformRoute.Route.Post` | app/api/transform-ghibli/route.ts:19-38 | a rejected action answers without changing the table or the pool; a submission answers and changes the state exactly as `handleSubmission` does (400, 503 with no task added, or accepted with one processing task); a check answers and changes the table exactly as `checkTaskStatus` does (404, processing, read-once failed or completed) and leaves the pool alone; an accepted submission's token is held |

## Left out

- `scheduleNextReset` and `getMillisecondsUntilMidnight` (lib/token-manager.ts:40-68): they set a timer at local midnight. The reset is modelled as a method called with `now`.
- The `currentTokenIndex` and `resetTimer` fields: the first is never read, and the second belongs to the timer.
- All `console` output, and `toFixed`, `toISOString` and `toLocaleString` formatting.
- Local time: `DayOf` uses a fixed UTC offset (`UtcOffsetMs`, 0), so time zones and daylight-saving changes are not modelled.
- Floating-point minutes: usage is exact tenths. In the source, sums of 0.1 in binary floating point can land just below 5.0, which would let a token through the cap once more. The model does not capture that.
- `finishUsingToken`'s argument: it is seconds in the source and milliseconds in the model. Floating-point rounding of `seconds / 6` is not modelled.
- String length: JavaScript strings count UTF-16 code units, and Dafny strings count Unicode scalar values. So `slice(0, 10)` in the status snapshot (token-manager.ts:218) differs for a token holding a character outside the Basic Multilingual Plane: JavaScript counts that character as two units, and may cut it in half. `trim` (whose whitespace characters all lie in that plane) and `includes` on well-formed strings are unaffected.
- The `hf_${string}` token type: the manager's methods take plain strings.
- Concurrency: every manager operation, and each worker outcome, is one atomic step, as in the single-threaded event loop.
- The Gradio `Client.connect`/`predict` calls, the image download and reading the uploaded file (route.ts:166-211): they are the `Outcome` parameter.
- `generateTaskId` (route.ts:255-257): it uses the clock and `Math.random`. The model takes a fresh id from the caller and does not model collisions.
- The `prompt`, `height`, `width` and `seed` defaults (route.ts:46-49): they only feed the external call.
- `handleSubmission`'s catch branch (route.ts:92-103): no step of the model can throw.
- The `token-status` route, the cache service, the Express server, the UI pages and the auth routes: they are not part of this model.
- TokenManagement.TokenManager.SortTokensByUsage: ties in the comparator are not ordered by the contract. JavaScript's sort is stable; the insertion sort is too, but the model does not prove it, so the order of tied tokens is left open.
- TokenManagement.TokenManager.GetToken: for the same reason, among tied tokens the contract does not say which one is handed out.
- TransformRoute.Route.ProcessImageAsync: it requires the task to still be processing, because the source starts exactly one worker per submitted task and nothing else ends a processing task.
