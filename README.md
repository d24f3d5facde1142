# AILA-Trainer core, modelled in Dafny

AILA-Trainer is a small web application for A/B testing of answers from two legal-assistant models. A user asks for an analysis, two answers are shown side by side, and the user rates each answer from 1 to 10 and submits a comparison. The server stores chat sessions and comparisons. It also aggregates graders' evaluation grades into statistics and a list of recent comparisons.

This project models the parts of that system that carry logic:

- **`records.dfy`**
  - Module `Records` holds the stored rows: users, chat sessions, comparisons and the columns of `human_grades` that the aggregations read. It also holds JavaScript truthiness of nullable values and the `{ ...existing, ...updates }` overlay.
  - Module `Numeric` holds one-decimal rounding in integer tenths.
- **`mem_storage.dfy`** (module `MemStore`): the class `MemStorage`. Each JavaScript `Map` table is a Dafny `map` plus the sequence of its keys in insertion order, because `find` and `filter` follow that order. The create and update methods change the tables in place, and the lookups are functions.
- **`grade_stats.dfy`** (module `GradeStats`): `getEvaluationStatsByUser` over a snapshot of grade rows. The two loops of the source are kept as methods: grouping rows by session, and counting the complete sessions. Each loop is proved equal to a specification function, and the properties are proved about those functions.
- **`recent_grades.dfy`** (module `RecentGrades`): `getRecentGradesByUser`.
  - The grouping query `GROUP BY … ORDER BY MAX(gradedAt) DESC LIMIT n` becomes a function: group keys, per-group maximum, a stable insertion sort and a prefix.
  - The loop that reloads each session and pushes a summary is a method, proved equal to a function. The work of one iteration is the method `SummarizeSession`, which computes the function `Summary` for one grouping row.
- **`routes.dfy`** (module `Routes`): the Express handlers, run against `MemStorage`.
  - JSON request bodies, the `insert…Schema.parse` validation and the `userId || "demo-user"` defaulting.
  - The create-then-update flow of `POST /api/chats`, and the 400 and 404 answers.
  - The independent `/api/stats` aggregation over comparison rows.
- **`chat_interface.dfy`** (module `ChatInterface`): the state of the chat component.
  - The class `ChatPanel` has the example rotation, the current session, ratings, comments and the running tally.
  - Its methods are the `onSuccess`, `handleClear` and `handleSubmitComparison` transitions.

The server module actually binds its `storage` export to the PostgreSQL implementation (server/storage.ts:483). The handlers here run against the `MemStorage` model, which implements the same interface. The two evaluation queries are modelled over a `Snapshot`, which has three parts:
- the `human_grades` rows in the order the database returns them;
- `agent_responses.id → testCaseId`;
- `evaluation_test_cases.id → caseName`.

## Model

| member | source | states |
|---|---|---|
| Records.Overlay | server/storage.ts:107-114 | the spread `{ ...existing, ...updates }`: each of the eight columns takes the update's value when the update sets it and keeps the existing value otherwise |
| Numeric.RoundHalfUpTenths | server/storage.ts:378-383 | `Math.round(mean * 10)` on the exact mean: the nearest tenth, halves rounded up (`2c·t ≤ 20·sum + c < 2c·(t+1)`) |
| Numeric.ToFixedTenths | server/routes.ts:108-109 | `toFixed(1)` on the exact mean: the magnitude is rounded to the nearest tenth with halves away from zero, and the sign is kept |
| MemStore.Select | server/storage.ts:101-105 | `Array.from(map.values()).filter(p)`: every record returned satisfies `p` and is in the table, and every record in the table that satisfies `p` is returned |
| MemStore.Values | server/storage.ts:101-105 | `Array.from(map.values())`: one record per key, at the key's insertion position |
| MemStore.SelectSnoc | server/storage.ts:101-105 | a key inserted last adds its record at the end of the `filter` exactly when it passes `p`: the result is in insertion order |
| MemStore.SelectCount | server/storage.ts:101-105 | the `filter` holds each record that passes `p` exactly as often as the table's values do, and no other record |
| MemStore.SelectCountsKeys | server/storage.ts:101-105 | over distinct keys, the `filter` has exactly one record per key whose record passes `p` |
| MemStore.Find | server/storage.ts:73-77 | `find` gives nothing exactly when no record satisfies `p`; otherwise a stored record that satisfies `p` and is the head of the `filter` |
| MemStore.FindIsFirst | server/storage.ts:73-77 | the record `find` returns sits at a position in insertion order with no match before it |
| MemStore.MemStorage.constructor | server/storage.ts:63-67 | the three tables start empty |
| MemStore.MemStorage.GetUser | server/storage.ts:69-71 | `users.get(id)`: a user exactly when the id is stored, and then the stored one |
| MemStore.MemStorage.GetUserByUsername | server/storage.ts:73-77 | returns none exactly when no user has that username; otherwise the first user with it in insertion order (usernames need not be unique) |
| MemStore.MemStorage.CreateUser | server/storage.ts:79-84 | stores `{ ...insertUser, id }` under the fresh id and appends it to the insertion order; `getUser(id)` then returns it; the other tables do not change |
| MemStore.MemStorage.GetChatSession | server/storage.ts:97-99 | `chatSessions.get(id)`: a session exactly when the id is stored, and then the stored one |
| MemStore.MemStorage.GetChatSessionsByUser | server/storage.ts:101-105 | exactly the stored sessions whose `userId` matches, one per stored id |
| MemStore.MemStorage.CreateChatSession | server/storage.ts:86-95 | stores the insert plus id and creation time under the fresh id; `getChatSession(id)` then returns it; nothing else changes |
| MemStore.MemStorage.UpdateChatSession | server/storage.ts:107-114 | an absent id gives `undefined` and no change; otherwise the overlay is stored under the same id and returned, every other session is unchanged, and the key order is unchanged |
| MemStore.MemStorage.CreateComparison | server/storage.ts:116-125 | stores the insert plus id and creation time under the fresh id; the new comparison is among `getComparisonsByUser(userId)`; nothing else changes |
| MemStore.MemStorage.GetComparisonsByUser | server/storage.ts:127-131 | exactly the stored comparisons whose `userId` matches, one per stored id |
| MemStore.MemStorage.GetComparisonsByChatSession | server/storage.ts:133-137 | exactly the stored comparisons whose `chatSessionId` matches, one per stored id |
| MemStore.MemStorage.Evaluation | server/storage.ts:139-191 | every evaluation method of `MemStorage` throws "Evaluation methods not supported in MemStorage" |
| GradeStats.SessionKey | server/storage.ts:336 | a grade joins a session exactly when its `gradingSessionId` is truthy (`null`, absent and `""` are skipped) |
| GradeStats.GraderRows | server/storage.ts:323-331 | exactly the rows of this grader, no more rows than the snapshot |
| GradeStats.GraderRowsCount | server/storage.ts:323-331 | the query keeps each of this grader's rows as often as the snapshot holds it, and no other row |
| GradeStats.SessionIdsListTaggedSessions | server/storage.ts:335-345 | a session id is a key of `sessionMap` exactly when some grade of this grader carries it |
| GradeStats.FindLabel | server/storage.ts:358-363 | `find` by label: an entry with the label, or none only when no entry has it |
| GradeStats.FindLabelIsFirst | server/storage.ts:358-363 | the entry found is the first with the label in the session's row order |
| GradeStats.Judge | server/storage.ts:355-365 | a session contributes only when it has exactly two grades; it is malformed exactly when no grade is labelled "Response 1" or none is labelled "Response 2"; otherwise the scores come from grades with those labels |
| GradeStats.Step | server/storage.ts:354-376 | a complete session counts as a comparison before its labels are checked; a malformed one adds nothing else; a scored one adds two scores to the pool and one win, to Response 1 exactly when its score is >= Response 2's |
| GradeStats.TallyIds | server/storage.ts:347-376 | over any sequence of sessions, wins ≤ comparisons ≤ sessions, and the pooled score count is twice the wins |
| GradeStats.Summarize | server/storage.ts:378-387 | "Response 1" is preferred exactly when A wins ≥ B wins; the average is 0 with no pooled score, and otherwise the pooled mean rounded half-up to a tenth |
| GradeStats.GroupBySession | server/storage.ts:333-345 | the `forEach` that builds `sessionMap`: the keys are the truthy session ids in first-appearance order, and each maps to its session's grades in row order |
| GradeStats.GroupCount | server/storage.ts:333-355 | the size of a session's group, which the two-grade test reads, is the number of rows tagged with that session |
| GradeStats.CountSessions | server/storage.ts:347-376 | the second `forEach` yields exactly the specification tally over the keys in insertion order |
| GradeStats.GetEvaluationStatsByUser | server/storage.ts:313-388 | the method returns the specification result, and A wins + B wins ≤ total comparisons |
| GradeStats.WellLabelledSessionsAllWin | server/storage.ts:355-375 | when no complete session is malformed, A wins + B wins = total comparisons |
| GradeStats.MalformedSessionsWidenTheGap | server/storage.ts:355-365 | one malformed complete session makes A wins + B wins strictly less than the total |
| GradeStats.TallyIgnoresOtherSession | server/storage.ts:335-345 | a grade of another session does not change the tally of a session |
| GradeStats.LoneGradeIsIgnored | server/storage.ts:355 | a grade whose session has no other grade by this grader leaves the statistics unchanged, whatever its score |
| GradeStats.NoSessionsGiveDefaults | server/storage.ts:347-387 | with no session-tagged grade the result is `{0, 0, 0, 0, "Response 1"}` |
| GradeStats.TieGoesToResponse1 | server/storage.ts:366-370 | equal scores in a well-labelled session are a win for Response 1 |
| GradeStats.ThreeSessionExample | server/storage.ts:372-383 | sessions scored (8,6), (5,5), (9,7) give 3 comparisons, 3 A wins and average 6.7 |
| GradeStats.MalformedSessionExample | server/storage.ts:355-365 | two "Response 1" grades give one comparison with no win and no pooled score |
| RecentGrades.GroupKeys | server/storage.ts:412 | `GROUP BY gradingSessionId`: each key once, every key from some row, every row's key listed (`null` and `""` are keys too) |
| RecentGrades.LatestOf | server/storage.ts:406-409 | a non-empty group's row carries its key and the latest `gradedAt` among its rows |
| RecentGrades.Latest | server/storage.ts:406-409 | each group's `MAX(gradedAt)` is the `gradedAt` of one of its rows and at least that of all of them |
| RecentGrades.SortNewestFirst | server/storage.ts:413 | the sort is a permutation of the groups: the same length, the same elements, each as often as in the input |
| RecentGrades.SortIsNewestFirst | server/storage.ts:413 | `ORDER BY MAX(gradedAt) DESC`: the sorted groups are newest first |
| RecentGrades.SortKeepsDistinct | server/storage.ts:412-413 | sorting keeps the session ids distinct |
| RecentGrades.UniqueSessions | server/storage.ts:405-414 | `LIMIT`: a prefix of the sorted groups whose length is the number of groups when that is at most `limit`, and `limit` otherwise |
| RecentGrades.UniqueSessionsNewestFirst | server/storage.ts:405-414 | the groups returned have distinct session ids and are newest first |
| RecentGrades.UniqueSessionsAreTheGradersGroups | server/storage.ts:405-414 | each group returned is one this grader graded, dated by this grader's latest grade in it |
| RecentGrades.UniqueSessionsMissNoGroup | server/storage.ts:405-414 | when this grader has at most `limit` groups, every one of them is returned |
| RecentGrades.SessionRows | server/storage.ts:422-431 | the reload returns exactly the rows of that session, by any grader, and no more rows than the snapshot |
| RecentGrades.SessionRowsCount | server/storage.ts:422-431 | the reload holds every row of the session as often as the snapshot does, and no other row: its length is the count that the two-grade test reads |
| RecentGrades.FindByName | server/storage.ts:453-458 | a grade labelled `name` at some position with no such grade before it (the first), or none exactly when no grade has that label |
| RecentGrades.ScoreOrZero | server/storage.ts:460 | `grade?.score \|\| 0`: a missing grade scores 0, a present one its score |
| RecentGrades.ScoreOrNull | server/storage.ts:468-469 | `score \|\| null`: missing and zero scores become `null` |
| RecentGrades.FeedbackOrNull | server/storage.ts:470-471 | `feedback \|\| null`: missing and empty feedback become `null` |
| RecentGrades.CaseName | server/storage.ts:444-466 | an unknown test case or an empty case name gives "Unknown" |
| RecentGrades.Winner | server/storage.ts:460-461 | "modelA" exactly when the first score is at least the second, otherwise "modelB" |
| RecentGrades.Summary | server/storage.ts:418-475 | a session yields a result exactly when its id is truthy, its reload has two rows and the first row's response is known; the result has the session id, `gradedAt` = `createdAt` = the group's latest grade, the first reloaded row's test case and its name, the winner by `>=` on the found grades' scores (0 when missing), and each found grade's score and feedback or `null` |
| RecentGrades.Emit | server/storage.ts:418-477 | every result comes from a summary of one of the grouping rows |
| RecentGrades.EmitKeepsEverySummary | server/storage.ts:418-477 | every summary the loop produces is in the results |
| RecentGrades.EmitKeepsIdsDistinct | server/storage.ts:418-477 | distinct grouping rows give results with distinct ids |
| RecentGrades.EmitKeepsNewestFirst | server/storage.ts:418-477 | newest-first grouping rows give newest-first results |
| RecentGrades.LimitOrDefault | server/storage.ts:390 | the limit defaults to 10 |
| RecentGrades.GetRecentGradesByUser | server/storage.ts:390-480 | the loop returns exactly the specification results, at most `limit` of them |
| RecentGrades.RecentGradesAreTheGradersLatest | server/storage.ts:405-477 | at most `limit` results with distinct ids, newest first; each is a session this grader graded, with `gradedAt` = `createdAt` = this grader's latest grade in it |
| RecentGrades.RecentGradesMissNoCompletedSession | server/storage.ts:418-475 | with at most `limit` groups, every truthy session of this grader whose reload has two rows and whose first response is known is reported |
| RecentGrades.SummaryIsReported | server/storage.ts:418-477 | a grouping row with a truthy id, a two-row reload and a known first response is reported under its own id |
| RecentGrades.RecentGradesCoverTheNewestSessions | server/storage.ts:405-477 | however many groups this grader has, the summary of each of the `limit` newest, when it has one, is reported |
| RecentGrades.LoneRowReload | server/storage.ts:422-433 | the reload of a session carried by a single row of the snapshot has one row |
| RecentGrades.LoneGradeIsNotReported | server/storage.ts:433 | a session with only one grade in the snapshot never appears among the recent grades |
| RecentGrades.WellLabelledPairIsReported | server/storage.ts:453-469 | for a "Response 1"/"Response 2" pair, "modelA" wins exactly when its score is ≥ model B's, and each rating is its score unless the score is zero |
| RecentGrades.MislabelledPairIsReported | server/storage.ts:453-471 | a pair labelled "Response 1" twice is still reported: model B's rating and comment are `null`, and model A wins exactly when its score is ≥ 0 |
| RecentGrades.SharedSessionIsDropped | server/storage.ts:422-433 | a session graded by a second grader reloads three rows and is dropped |
| Routes.UserIdOrDemo | server/routes.ts:46 | `userId` query: the value when truthy, else "demo-user" |
| Routes.WithUserId | server/routes.ts:11-14 | the body with `userId` replaced by "demo-user" when it is falsy, every other key unchanged |
| Routes.RequiredString | server/routes.ts:11-14 | a `notNull` text column parses exactly when a string is present |
| Routes.OptionalString | server/routes.ts:11-14 | a nullable text column: absent or `null` is no value, a string is kept, anything else fails |
| Routes.OptionalInt | server/routes.ts:69-72 | a nullable integer column: absent or `null` is no value, a number is kept, anything else fails |
| Routes.ParseChatSession | server/routes.ts:11-14 | the chat-session schema accepts a body exactly when `userId` and `prompt` are strings and each optional column is absent, `null` or a string |
| Routes.ParseComparison | server/routes.ts:69-72 | the comparison schema accepts a body exactly when `winner` and `userId` are strings, `chatSessionId` is absent, `null` or a string, and each rating is absent, `null` or a number |
| Routes.ChatSessionBodyRoundTrip | server/routes.ts:11-14 | a well-typed chat-session body parses back to the record it encodes, whatever extra keys it has |
| Routes.ComparisonBodyRoundTrip | server/routes.ts:69-72 | a well-typed comparison body parses back to the record it encodes, whatever extra keys it has |
| Routes.UserIdDefaultsToDemoUser | server/routes.ts:11-14 | a body with no truthy `userId` is stored under "demo-user"; a truthy non-string `userId` is rejected |
| Routes.MissingChatSessionIdIsStoredAsNull | server/routes.ts:69-72 | a comparison body without `chatSessionId` is stored with no chat session |
| Routes.Answer | server/routes.ts:27-29 | an answer is the fixed opening, the prompt in double quotes and the fixed closing, in that order |
| Routes.ModelAText | server/routes.ts:27 | model A's answer starts with its opening, ends with its closing and has the quoted prompt between |
| Routes.ModelBText | server/routes.ts:29 | model B's answer starts with its opening, ends with its closing and has the quoted prompt between |
| Routes.AnswerQuotesThePrompt | server/routes.ts:27-29 | an answer template contains the prompt in quotes, and the prompt can be read back from it |
| Routes.AnswersQuoteThePrompt | server/routes.ts:27-29 | both simulated answers quote the prompt |
| Routes.PostChats | server/routes.ts:9-41 | on a parse failure the answer is 400 "Invalid request data" and the store is unchanged; otherwise one session is stored under the fresh id, with both simulated answers and the names "GPT-4 Turbo"/"Claude 3 Opus", and it is returned with status 200 |
| Routes.GetChats | server/routes.ts:44-53 | exactly the stored sessions of the queried user, or of "demo-user", one per stored id |
| Routes.GetChat | server/routes.ts:55-66 | 404 "Chat session not found" exactly when the id is not stored, otherwise the stored session |
| Routes.PostComparison | server/routes.ts:68-81 | on a parse failure the answer is 400 "Invalid comparison data" and the store is unchanged; otherwise the comparison is stored under the fresh id and returned |
| Routes.GetComparisons | server/routes.ts:83-92 | exactly the stored comparisons of the queried user, or of "demo-user", one per stored id |
| Routes.CountWinner | server/routes.ts:101-102 | the count is at most the number of rows, and is zero exactly when no row has that winner |
| Routes.CountWinnerSnoc | server/routes.ts:101-102 | one more row adds one to the count exactly when its winner is `w` |
| Routes.CountWinnerCountsRows | server/routes.ts:101-102 | the count is the number of positions whose winner is exactly `w` |
| Routes.ARatings | server/routes.ts:105 | pooled A ratings are non-zero, at most one per comparison |
| Routes.BRatings | server/routes.ts:106 | pooled B ratings are non-zero, at most one per comparison |
| Routes.AllRatings | server/routes.ts:104-107 | at most two pooled ratings per comparison |
| Routes.RatingsSnoc | server/routes.ts:104-107 | one more comparison appends its A rating to the A pool exactly when truthy, and likewise for B, in row order |
| Routes.RatingsArePooled | server/routes.ts:104-107 | a value is in the A pool exactly when some comparison has it as a truthy A rating, and likewise for B |
| Routes.NoAverageExactlyWhenUnrated | server/routes.ts:104-110 | the pool is empty, and `averageRating` is "0", exactly when no comparison has a truthy rating |
| Routes.AverageOf | server/routes.ts:108-110 | "0" exactly when no rating is pooled, otherwise the mean rounded to a tenth with halves away from zero |
| Routes.StatsFor | server/routes.ts:100-119 | total = number of comparisons; wins counted by exact winner string; "GPT-4" exactly when A wins > B wins, otherwise "Claude"; `avgResponseTime` is "3.4s" |
| Routes.GetStats | server/routes.ts:94-123 | status 200 with the statistics of the queried (or demo) user's stored comparisons, as `StatsFor` defines them; the total is the number of stored comparisons of that user |
| Routes.WinsWithinTotal | server/routes.ts:100-102 | A wins + B wins ≤ total, with equality exactly when every winner is "modelA" or "modelB" |
| Routes.UnratedComparisonKeepsAverage | server/routes.ts:104-110 | a comparison with neither rating truthy leaves the pooled ratings and the average unchanged |
| Routes.SingleComparisonAverage | server/routes.ts:104-110 | one comparison with both ratings averages the two |
| Routes.TieRulesDisagree | server/routes.ts:117 | with equal win counts, `/api/stats` prefers "Claude" (model B) while the storage statistics prefer "Response 1" (model A) |
| ChatInterface.WinnerOf | client/src/components/chat-interface.tsx:102 | "modelA" exactly when A's rating ≥ B's: equal ratings go to model A |
| ChatInterface.Record | client/src/components/chat-interface.tsx:116-122 | a successful submit adds 1 to the total and 1 to exactly one of the win counts, to A exactly when A's rating ≥ B's |
| ChatInterface.ReplayKeepsTotalEqualToWins | client/src/components/chat-interface.tsx:116-122 | from zero, total = number of submits = A wins + B wins; B has no win exactly when no submit rated B strictly higher |
| ChatInterface.NextIndex | client/src/components/chat-interface.tsx:77 | the next example index stays in range and wraps to 0 after the last |
| ChatInterface.IndexAfter | client/src/components/chat-interface.tsx:77-78 | after any number of analyses the index is in range |
| ChatInterface.RotationVisitsInOrder | client/src/components/chat-interface.tsx:77-78 | the first `n` analyses visit the examples in order |
| ChatInterface.RotationIsCyclic | client/src/components/chat-interface.tsx:77-78 | every `n` analyses the index comes back |
| ChatInterface.CommentOrUndefined | client/src/components/chat-interface.tsx:108-109 | an empty comment is sent as `undefined`, any other comment as itself |
| ChatInterface.ChatPanel.constructor | client/src/components/chat-interface.tsx:53-60 | index 0, prompt = first example, no session, zero tally, ratings 5, empty comments |
| ChatInterface.ChatPanel.AnalysisRequestFor | client/src/components/chat-interface.tsx:65-71 | the request sends the current example's prompt, not the `prompt` state |
| ChatInterface.ChatPanel.OnAnalysisSuccess | client/src/components/chat-interface.tsx:74-83 | sets the session, advances the index cyclically, sets the prompt to the new example, resets ratings to 5 and clears comments; the tally is unchanged |
| ChatInterface.ChatPanel.Clear | client/src/components/chat-interface.tsx:144-150 | drops the session, resets ratings to 5 and clears comments; the example index, prompt and tally are unchanged |
| ChatInterface.ChatPanel.Rate | client/src/components/chat-interface.tsx:221-233 | sets one rating (1..10) and nothing else |
| ChatInterface.ChatPanel.Comment | client/src/components/chat-interface.tsx:222-234 | sets one comment and nothing else |
| ChatInterface.ChatPanel.ComparisonRequestFor | client/src/components/chat-interface.tsx:100-113 | the request carries the session id, winner "modelA" exactly when A's rating ≥ B's and "modelB" otherwise, both ratings, each comment as typed or `undefined` exactly when empty, the caller's `userId` and the session's two agent-response ids |
| ChatInterface.ChatPanel.SubmitComparison | client/src/components/chat-interface.tsx:100-155 | with no session nothing is sent and nothing changes; otherwise the request is sent and a success records the vote in the tally, keeping total = A wins + B wins |

## Left out

- Database plumbing: the lazy connection (server/storage.ts:194-211) and drizzle are replaced by the `Snapshot`. The SQL `ORDER BY gradedAt DESC` of the statistics query is the snapshot's row order. SQL leaves the order of groups with equal `MAX(gradedAt)` open; the model keeps them in first-appearance order.
- `PostgreSQLStorage`'s table methods (server/storage.ts:214-311) are thin SQL wrappers over the same interface and are not modelled. The handlers run against `MemStorage` instead of the PostgreSQL `storage` export. The 500 answers of the handlers are left out, because `MemStorage`'s table methods never throw.
- `randomUUID()` and `new Date()` become a caller-supplied fresh id (not already a key) and an integer timestamp.
- Floating point: averages are exact rationals rounded in integer tenths. A JavaScript double can round differently when the exact mean lies on a .x5 boundary that a double does not represent. The string formatting of `toFixed` is left out: `averageRating` is `NoRatings` for the string "0" and `Tenths(t)` otherwise.
- JSON numbers are integers in the model. Fractional numbers and arrays in query strings are not modelled.
- The analysis endpoint `POST /api/evaluations` that the chat interface calls is not part of this model. The AI services (server/aila-backend-service.ts, server/fastapi-service.ts) and the static prompts (server/email-prompts.ts) are not part of this model either.
- The nine example prompts of the chat interface are not copied. `ChatPanel` takes any non-empty sequence of example prompts.
- The prompt text area is disabled in the interface (client/src/components/chat-interface.tsx:187), so editing the prompt is not modelled.
- UI rendering, toasts, query invalidation and the JSON export (client/src/components/chat-interface.tsx:157-169) are not modelled. The dashboard, login and auth files are not part of this model.
- ChatInterface.ChatPanel.SubmitComparison: the request and the tally update are modelled as one step over the same state. React's asynchronous mutation, which could observe ratings changed while the request is in flight, is not captured.
- The reload of a session in `getRecentGradesByUser` (server/storage.ts:422-431) has no `ORDER BY`, so PostgreSQL may return its rows in any order. The model returns them in snapshot order, and that order decides which row is `sessionGrades[0]`: it gives `testCaseId` and decides whether the session is reported (server/storage.ts:440-443).
- `getRecentGradesByUser` takes `limit` as a natural number. A negative limit, which PostgreSQL rejects, is not modelled.
