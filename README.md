# Novelette core in Dafny

A model of the server-side logic of a web application in which signed-in users create
novels, add chapters, and ask a large-language-model service to write chapter text. Four
pieces are modelled:

- **Text utilities and tag sets** (`src/lib/utils.ts`). `truncateText` is a function with
  JavaScript `slice` semantics. The novel genres, novel styles, chapter statuses and
  generation task types are closed datatypes, each with its wire value and a parser.
- **Prompt assembly** (`src/lib/openai.ts`). The system and user prompts of
  `generateChapterContent` are pure functions. So is the optional continuity section, which
  holds the last 500 characters of the previous chapter. The completion service is a
  function parameter, `complete: ChatRequest -> CallOutcome`. It maps the messages sent to
  either a completion or a thrown error. `GenerateChapterContent` and `ImproveContent` are
  methods over it, with the source's fallbacks.
- **Chapter creation** (`POST` in `src/app/api/chapters/route.ts`). The store is a `Db`
  class whose users, novels and chapters are `seq` fields. `ChaptersRoute.Post` runs the
  checks in the source's order, returns early when one fails, and appends one chapter.
  Its `ensures` ties the response and the new chapter table to the pure function
  `ChaptersRoute.CreateChapter`. The lemmas about that function state the check order,
  the numbering rule and what stays unchanged.
- **Novel creation and listing** (`src/app/api/novels/route.ts`). `NovelsRoute.Post`
  validates, finds or creates the user, then creates the novel. It is specified by
  `NovelsRoute.CreateNovel` in the same way. `GET` is the pure function `NovelsRoute.Get`:
  an owner filter, then two orderings.

Modelling choices:

- A JavaScript value that may be `undefined`/`null` or a string is an `Option<string>`.
  Truthiness (`Js.Truthy`) means "present and non-empty".
- `request.json()` yields `None` when the body is not JSON. The source then throws, and
  its `catch` answers 500.
- The database assigns ids to new rows. Here they are parameters (`newId`, `newUserId`,
  `newNovelId`). An id that is already in use makes the insert throw, and the handler
  answers 500.
- The novels `POST` inserts the user and the novel in two separate writes. So a failing
  novel insert leaves the newly created user in place. `NovelsRoute.CreateNovel` keeps
  that behaviour.
- A novel's genre and style are stored as the strings the request carries. The novels
  `POST` never checks them against the genre and style lists, so the model does not
  either. The closed datatypes in `Utils` model the lists themselves.
- `Store.Db.Valid()` holds what the database schema enforces on every state: unique ids,
  a unique Clerk id per user, every novel owned by an existing user, and every chapter in
  an existing novel. The handlers require it and keep it.
- Chapter numbering is not enforced by the schema. `Store.WellNumbered` says that numbers
  are positive and strictly increase, within a novel, in creation order. Chapter creation
  is proved to keep it, but it is not required.

## Model

| member | source | states |
|---|---|---|
| `Utils.TruncateText` | src/lib/utils.ts:18-21 | A text no longer than the limit comes back unchanged. A longer one becomes its first `maxLength` characters plus `"..."`; a negative limit counts from the end, as `slice` does. For a limit ≥ 0 the result has length at most `maxLength + 3`, exactly `maxLength + 3` when it was cut, and it starts with the first `min(|text|, maxLength)` characters of the text. |
| `Utils.TruncateTextIdempotent` | src/lib/utils.ts:18-21 | With a limit ≥ 0, truncating twice gives the same result as truncating once. |
| `Utils.ParseGenre` | src/lib/utils.ts:23-32 | A string parses to a genre exactly when it is that genre's value. Every other string is rejected. |
| `Utils.NovelGenresAreEightDistinct` | src/lib/utils.ts:23-32 | The genre list has eight entries. Every genre appears in it, and values and labels are pairwise distinct. |
| `Utils.ParseStyle` | src/lib/utils.ts:34-40 | A string parses to a style exactly when it is that style's value. |
| `Utils.NovelStylesAreFiveDistinct` | src/lib/utils.ts:34-40 | The style list has five entries, with distinct values and labels. Every style appears in it, and `"modern"` is listed and parses to `Modern`. |
| `Utils.ParseChapterStatus` | src/lib/utils.ts:42-47 | A string parses to a status exactly when it is that status's value. |
| `Utils.ChapterStatusesAreFourDistinct` | src/lib/utils.ts:42-47 | There are exactly four statuses, pending, generating, completed and error, with distinct values. Each value parses back to its status. |
| `Utils.ParseTaskType` | src/lib/utils.ts:49-53 | A string parses to a task type exactly when it is that type's value. |
| `Utils.TaskTypesAreFourDistinct` | src/lib/utils.ts:49-53 | There are four task types, with distinct values. Each value parses back to its type. |
| `OpenAI.SystemPrompt` | src/lib/openai.ts:26-38 | The chapter-writing instructions begin with their fixed opening followed by the style. They end with the genre followed by the fixed closing, "类型小说的特点" and the request to return only the chapter text. |
| `OpenAI.SystemPromptDeterminesNumberAndTitle` | src/lib/openai.ts:26-38 | For a fixed style and genre, two system prompts are equal exactly when their chapter numbers and their novel titles are equal. So the prompt carries both the number and the title. |
| `Js.IntToStringInjective` | src/lib/openai.ts:31 | Two integers have the same decimal text exactly when they are equal. |
| `OpenAI.ContinuitySection` | src/lib/openai.ts:42 | The section is empty exactly when the previous content is missing or empty. Otherwise it is the label, then the trailing window, then `"..."`. The window holds the last `min(|p|, 500)` characters of `p`, as `slice(-500)` does when characters are counted as Dafny characters (see "## Left out"). |
| `OpenAI.UserPrompt` | src/lib/openai.ts:40-44 | The user prompt starts with `"章节概要: " + summary`. It ends with the chapter number's decimal text followed by `"章的内容。"`. |
| `OpenAI.UserPromptDependsOnlyOnWindow` | src/lib/openai.ts:40-44 | For a fixed summary and number, two previous contents give the same user prompt exactly when their trailing 500-character windows agree. A missing content and an empty one both count as having no window. |
| `OpenAI.ChapterRequest` | src/lib/openai.ts:48-51 | Exactly two messages are sent: the system prompt with the system role, then the user prompt with the user role. |
| `OpenAI.ChapterRequestDependencies` | src/lib/openai.ts:26-44 | The system message is the same whenever style, genre, title and number are the same, whatever the summary and previous content. The user message is the same whenever summary, number and window are the same. |
| `OpenAI.FirstChoiceContent` | src/lib/openai.ts:56 | `choices[0]?.message?.content`: there is text exactly when there is a first choice, that choice has a message, and the message has content. The text is that content. |
| `OpenAI.GenerateChapterContent` | src/lib/openai.ts:46-60 | Fails exactly when the call throws, and always with the one fixed message. A first choice with non-empty text returns that text. A missing choice, message or text, or an empty text, returns `'生成失败，请重试。'`. A returned string is never empty. |
| `OpenAI.ImproveContent` | src/lib/openai.ts:64-91 | Never fails. A thrown call, or a completion without non-empty text, returns the input `content` unchanged. Otherwise it returns the first choice's text. |
| `OpenAI.ImproveSystemPrompt` | src/lib/openai.ts:66-74 | The editing instructions are fixed text, with the genre at one fixed position between the opening and the closing. |
| `OpenAI.ImproveSystemPromptDeterminesGenre` | src/lib/openai.ts:66-74 | Two genres give the same editing instructions exactly when they are equal. |
| `OpenAI.ImproveRequest` | src/lib/openai.ts:79-81 | Exactly two messages are sent: the editing instructions for the genre with the system role, then the content itself, unchanged, with the user role. |
| `Js.NatToDecimalValue` | src/lib/openai.ts:31 | The decimal text of a chapter number denotes that number and has no leading zero, as `${chapterNumber}` writes it. |
| `Store.ChaptersOf` | src/app/api/novels/route.ts:24-28 | A novel's chapters are exactly the table's chapters with its id, each as many times as in the table. |
| `Store.OwnedNovels` | src/app/api/novels/route.ts:22-23 | A user's novels are exactly the table's novels with that owner, each as many times as in the table. |
| `Store.FindUserByClerkId` | src/app/api/chapters/route.ts:20-22 | Finds a user with the given Clerk id, and finds nothing exactly when no user has it. |
| `Store.FindOwnedNovel` | src/app/api/chapters/route.ts:29-34 | Finds a novel with the given id and owner, and finds nothing exactly when no novel has both. |
| `Store.LastChapterNumber` | src/app/api/chapters/route.ts:41-44 | Nothing when the novel has no chapters. Otherwise the number of one of its chapters that no other chapter of the novel exceeds. |
| `Store.NextChapterNumber` | src/app/api/chapters/route.ts:41-46 | Greater than every chapter number in the novel. It is 1 when the novel has no chapters, and otherwise one more than a number the novel has, so it is the maximum plus 1. |
| `Store.SortBy` | src/app/api/novels/route.ts:24-29 | The result is ordered by ascending key and is a permutation of the input (equal multisets). |
| `Store.AppendNextNumberKeepsWellNumbered` | src/app/api/chapters/route.ts:41-56 | Appending a chapter numbered by `NextChapterNumber` keeps numbers positive and strictly increasing within each novel, so they stay unique. |
| `Store.FreshNovelHasNoChapters` | src/app/api/novels/route.ts:75-86 | In a consistent store, a novel id that no novel has owns no chapters. |
| `ChaptersRoute.CreateChapter` | src/app/api/chapters/route.ts:6-63 | The handler's decision: the status is one of 201, 400, 401, 404 and 500, and a chapter is created exactly when it is 201. A created chapter has a fresh id, status `pending`, and a novel that exists. |
| `ChaptersRoute.CreateChapterCheckOrder` | src/app/api/chapters/route.ts:10-62 | No identity gives 401. A body that is not JSON gives 500 "服务器错误". Missing or empty `novelId` or `title` gives 400. An unknown user gives 404 "用户不存在". A novel that is absent or owned by someone else gives 404 "小说不存在或无权限". A chapter id already in use gives 500. None of these creates a chapter. |
| `ChaptersRoute.ValidationPrecedesLookups` | src/app/api/chapters/route.ts:10-18 | When the identity or the required fields are missing, the answer is the same for every store content, and no chapter is created. |
| `ChaptersRoute.CreatedChapter` | src/app/api/chapters/route.ts:20-58 | A chapter is created exactly when the request is complete, the caller's user exists, that user owns the named novel, and the new id is free. The chapter has the given id, novel, title and summary, and status `pending`. Its number is above every number in the novel: 1 for a novel without chapters, else one more than an existing number. The response is 201 with the chapter. |
| `ChaptersRoute.CreateChapterKeepsInvariants` | src/app/api/chapters/route.ts:41-56 | Chapter creation keeps the schema constraints. It also keeps per-novel numbering positive, unique and increasing. |
| `ChaptersRoute.CreateChapterTouchesOnlyItsNovel` | src/app/api/chapters/route.ts:48-56 | Every other novel's chapter list is unchanged. The target novel's list changes only by the new chapter, added at its end. |
| `ChaptersRoute.Post` | src/app/api/chapters/route.ts:6-63 | The handler: its response and new chapter table are those `CreateChapter` gives for the old state. Users and novels are unchanged on every path. It keeps `Valid()`, and it keeps `WellNumbered` when that held before. |
| `NovelsRoute.ClerkEmail` | src/app/api/novels/route.ts:69 | The profile's first email address, or `''` when it has none. |
| `NovelsRoute.ClerkUsername` | src/app/api/novels/route.ts:70 | `username` if non-empty, else `first_name` if non-empty, else `'User'`. The result is never empty. |
| `NovelsRoute.NewNovel` | src/app/api/novels/route.ts:76-82 | The novel row carries the new id, the owner, the request's title, genre and description, and the insert time. Its style is the given one when non-empty, else `"modern"`, so it is never empty. |
| `NovelsRoute.InsertNovel` | src/app/api/novels/route.ts:75-88 | The novel is inserted exactly when its id is free, and then answered with 201 and an empty chapter list. Otherwise the answer is 500. A user created before is kept either way. |
| `NovelsRoute.CreateNovel` | src/app/api/novels/route.ts:40-93 | The handler's decision: the status is one of 201, 400, 401 and 500, and a novel is created exactly when it is 201. A created user has a fresh id and the caller's Clerk id. A created novel has a fresh id. |
| `NovelsRoute.CreateNovelRejections` | src/app/api/novels/route.ts:44-92 | No identity gives 401 and creates nothing. A missing or empty title or genre gives 400 and creates nothing, not even a user. A body that is not JSON, a failed profile fetch or a user id already in use gives 500 "服务器错误" and creates nothing. For a complete request, every answer without a new novel is 500. |
| `NovelsRoute.CreateNovelFindOrCreateUser` | src/app/api/novels/route.ts:55-73 | If a user with the caller's Clerk id exists, no user is created. A user is created exactly when the request is valid, no user has the caller's Clerk id, the profile fetch succeeds, and the new user id is free. The new user carries the caller's Clerk id, the profile's email and the chosen username. |
| `NovelsRoute.CreatedNovel` | src/app/api/novels/route.ts:75-88 | A novel is created exactly when the request is valid, the caller's user exists or is created, and the new novel id is free. A created novel has a fresh id and the request's title, genre and description. Its style is the given one when non-empty, else `"modern"`. Its owner is the found or created user with the caller's Clerk id. It is returned with status 201 and an empty chapter list. |
| `NovelsRoute.CreateNovelKeepsInvariants` | src/app/api/novels/route.ts:55-86 | Inserting the user and/or the novel keeps the schema constraints. The new novel has no chapters in the store. |
| `NovelsRoute.Post` | src/app/api/novels/route.ts:40-93 | The handler: its response, new user table and new novel table are those `CreateNovel` gives for the old state. Chapters are unchanged, and it keeps `Valid()`. |
| `NovelsRoute.WithChapters` | src/app/api/novels/route.ts:24-28 | A novel is returned with exactly its own chapters, each as many times as in the table, in ascending `chapterNumber` order. |
| `NovelsRoute.ListNovels` | src/app/api/novels/route.ts:22-30 | Exactly the novels whose `userId` is the caller's user id, as a multiset. They are ordered by `updatedAt` descending, each with its chapters as `WithChapters` gives them. |
| `NovelsRoute.Get` | src/app/api/novels/route.ts:6-37 | No identity gives 401. No user record gives 404, and being a query it creates none, unlike POST. Otherwise the answer is 200 with the listing for the user who has the caller's Clerk id. |

## Left out

- The React components and pages are not part of this model. They cover rendering, client state, the floating-point completion rate, the client-side sort and the client-side form checks.
- `cn` and `formatDate` (src/lib/utils.ts:4-16) are not modelled. They wrap class-name merging and `Intl.DateTimeFormat`.
- The client configuration of the completion service is not modelled: the API key check at module load, base URL, model name, `max_tokens` and `temperature`. The request models only the two messages. The service itself is the parameter `complete`.
- The `console.error` logging in every `catch` is left out.
- The Clerk identity (`auth()`) is the parameter `userId`. The Clerk profile fetch is the parameter `clerk`. Its failure, or a reply without `email_addresses`, is `FetchFailed`.
- Store failures other than an id already in use are not modelled, for example a lost connection. The source turns them into 500.
- JSON values in request bodies are strings or absent. Numbers, objects and arrays in those fields are not modelled.
- `Utils.TruncateText`: lengths count Dafny characters, not UTF-16 code units. Non-integer `maxLength` values are not modelled.
- `OpenAI.ContinuitySection`: the window is the last 500 Dafny characters, each a whole Unicode character. JavaScript's `slice(-500)` keeps the last 500 UTF-16 code units. For text with characters outside the Basic Multilingual Plane the two differ, and a surrogate pair that `slice` splits in half is not modelled.
- `OpenAI.SystemPrompt`: `chapterNumber` is an integer, shown in plain decimal. The text of non-integer Numbers is not modelled. Neither is the exponent form JavaScript uses for magnitudes of 1e21 and above.
- `Store.SortBy`: the order of rows with equal keys is left to the database in the source. The model's insertion sort keeps their table order by construction, which is one of the orders the source allows. No contract states this stability.
- Concurrency is not modelled. Two simultaneous chapter creations can read the same maximum and get the same number. The model is sequential and claims nothing about concurrent calls.
- `src/app/api/chapters/[id]/generate/route.ts`, with its status transitions and `GenerationTask` records, is not part of this model. Neither are the other `[id]` routes (get, update, delete). `TaskType` models only the tag set.
- Timestamps: `updatedAt` is an integer given to the insert as `now`. `createdAt`, and schema defaults not visible in the source (chapter `content` and `progress`, novel status), are not fields of the records.
