# Public roadmap: translation batching, edge translator, lists and forms

A Dafny model of the logic core of a public product roadmap web application.
Visitors browse ideas ("projects") on a Kanban board, search them, upvote
them, leave an e-mail address for release notices, comment on them, and
submit new ideas. User-written content is machine-translated into the
interface language.

The model covers these parts:

- **The translation coalescer** (`EnhancedTranslationService`). It is a class holding:
  - the pending batch, a key-to-request map plus the keys in insertion order;
  - a flag for the flush timer.

  `TranslateText` behaves as follows:
  - it answers trivial requests at once;
  - a request whose key is already pending joins that request;
  - any other request is added to the batch;
  - the tenth request flushes the batch immediately.

  `Flush` is the timer firing. When the batch is processed:
  - it is grouped by language pair;
  - each group is looked up in the remote cache;
  - only the misses are sent to the `translate` function;
  - every drained request gets exactly one answer, which is the cached or
    new translation when non-empty and otherwise its own text.

  The remote cache query and the function invocation are function-typed
  parameters. The `translationReady` events become the key-to-text map that
  a flush returns.
- **The `translate` edge function**:
  - request normalisation (batch or single text) and validation;
  - the same-language and failed-model echoes;
  - the `max_tokens` bound;
  - the batch reply parser: split into lines, strip the `N.` numbering,
    trim, drop empty lines, then pad with the inputs and truncate.

  The whole handler is the function `Handle`. `Serve` computes it step by
  step, including the padding loop. The model's reply is an arbitrary
  string.
- **The simple memo-cache translator** (`TranslationService`). It is a class
  whose cache only grows, specified by the function `Translate`.
- **Pure selection logic**:
  - translated title and content with independent fallbacks;
  - the case-insensitive project search;
  - Kanban grouping, its fixed columns and their counts;
  - the status label and colour maps of the badge and of the card.
- **The client-side forms** (new idea, comment, e-mail capture, the project
  card's comment form). Each is a class over its state fields, specified by
  a pure submission function.

Strings are ASCII. Under that restriction:

- `trim` removes the six ASCII white-space characters;
- `toLowerCase` maps `A`–`Z`;
- JavaScript `undefined` is `None`.

Two results connect the files:

- **A one-text batch is never translated.** The edge function answers a
  one-text batch that reaches the model with `translatedText`, but the
  coalescer reads only `data.translations`. A group with a single uncached
  request is therefore always answered from the cache or with its own text
  (`SingleUncachedRequestIsNeverTranslated`).
- **A failed model call is cached as a translation.** When the model call
  fails, the edge function still replies `{translations: texts}`. The
  coalescer takes each text as its own translation and queues it for the
  cache (`FailedModelCallCachesTexts`), so later lookups serve the
  untranslated text (`CachedAnswerWins`). The same holds for a same-language
  batch, which the function echoes as well.
- **The simple translator never caches `undefined`.** Against the deployed
  function, every successful reply carries a `translatedText`
  (`EdgeRepliesAreDefined`).

## Model

| member | source | states |
|---|---|---|
| TranslationKeys.KeyExtendsPairKey | src/services/enhancedTranslationService.ts:172-179 | a request's cache key is its language-pair key, a dash and its text |
| TranslationKeys.CacheKey | src/services/enhancedTranslationService.ts:31-33 | the key keeps all three parts and both dashes: its length is the parts' lengths plus two (`CacheKeyInjective` gives when it determines the request) |
| TranslationKeys.LanguageName | src/services/enhancedTranslationService.ts:269-277 | every code other than fr, pt-BR and pt-PT reads as 'English', and no name contains a dash |
| TranslationKeys.LanguageNameInjectiveOnKnown | src/services/translationService.ts:64-72 | the four shipped codes get four different names |
| TranslationKeys.CacheKeyInjective | src/services/enhancedTranslationService.ts:31-33 | with dash-free language strings (all language names are), equal keys mean equal requests |
| TranslationKeys.CacheKeyCollision | src/services/enhancedTranslationService.ts:31-33 | with dashes in the language strings, two different requests can share a key |
| Seqs.GroupBy | src/services/enhancedTranslationService.ts:172-179 | keys are listed once each, every element's key is listed, each group is non-empty and holds exactly the elements with its key in input order |
| Seqs.SelectPositions | src/services/enhancedTranslationService.ts:173-178 | a group is its elements of the input at increasing positions, so `push` keeps input order |
| Seqs.GroupSizesSumToLength | src/components/KanbanBoard.tsx:15-21 | the group sizes over distinct keys that cover every element add up to the number of elements |
| Seqs.FilterMembers | src/hooks/useProjects.tsx:103-107 | `filter` keeps exactly the elements that satisfy the predicate |
| Ascii.Trim | src/components/NewIdeaModal.tsx:38 | `trim` keeps the slice between leading and trailing white space and returns a string with no white space at either end |
| Ascii.TrimRemovesWhitespace | src/components/NewIdeaModal.tsx:38 | everything `trim` removes before and after the kept slice is white space |
| Ascii.BlankIffAllWhitespace | src/components/project-card/CommentForm.tsx:15 | a string is falsy after `trim` exactly when all its characters are white space |
| Ascii.TrimOfTrimmed | src/components/NewIdeaModal.tsx:48 | trimming a trimmed string changes nothing |
| Ascii.ToLower | src/hooks/useProjects.tsx:102 | lower-casing keeps the length and maps each character on its own |
| Ascii.Includes | src/hooks/useProjects.tsx:104-105 | `includes` holds exactly when the query occurs at some index |
| Ascii.IncludesChar | src/components/project-card/UpvoteButton.tsx:25 | containing the one-character string is containing the character |
| EnhancedTranslation.RowsToMapEntries | src/services/enhancedTranslationService.ts:54-62 | every cached row's key is in the hit map, and every entry comes from a row with that key and translation |
| EnhancedTranslation.CachedTranslations | src/services/enhancedTranslationService.ts:36-69 | an empty request list gives an empty map without a lookup; the hits are keyed as `RowsToMapEntries` states |
| EnhancedTranslation.IsTrivial | src/services/enhancedTranslationService.ts:219 | an all-white-space text is trivial, and a request that is not trivial has two different languages and a text of at least two characters |
| EnhancedTranslation.Uncached | src/services/enhancedTranslationService.ts:189-192 | no more requests than the group holds; which ones is `UncachedMembers`, their order `UncachedPositions` |
| EnhancedTranslation.UncachedPositions | src/services/enhancedTranslationService.ts:189-192 | the cache misses are requests of the group, picked out in group order |
| EnhancedTranslation.ApiText | src/services/enhancedTranslationService.ts:121-137 | on an invoke error the text is the request's own; an empty result only ever comes from an empty request text |
| EnhancedTranslation.ApiResults | src/services/enhancedTranslationService.ts:128-151 | a reply without `translations` gives no results |
| EnhancedTranslation.RowsToSave | src/services/enhancedTranslationService.ts:128-150 | no rows, or one row per request, each stored under its request's own cache key |
| EnhancedTranslation.Merged | src/services/enhancedTranslationService.ts:186-202 | every cache hit stays in the merged map |
| EnhancedTranslation.Resolve | src/services/enhancedTranslationService.ts:207 | `||` never gives a request with a non-empty text an empty answer |
| EnhancedTranslation.AnswerFor | src/services/enhancedTranslationService.ts:186-207 | a request with a non-empty text never gets an empty answer |
| EnhancedTranslation.DrainedKeysUnique | src/services/enhancedTranslationService.ts:239 | the drained requests carry pairwise different keys, since the batch is keyed by cache key |
| EnhancedTranslation.EmbedsKeepUniqueKeys | src/services/enhancedTranslationService.ts:172-192 | requests picked out of a list with distinct keys have distinct keys |
| EnhancedTranslation.InvocationKeysUnique | src/services/enhancedTranslationService.ts:168-192 | the cache misses of any language-pair group of a drained batch have distinct keys |
| EnhancedTranslation.ApiTranslationIsAnswer | src/services/enhancedTranslationService.ts:136-207 | with distinct keys, a cache miss at index i whose reply has a non-empty `translations[i]` is answered with exactly that translation |
| EnhancedTranslation.DrainedRequestGetsItsTranslation | src/services/enhancedTranslationService.ts:165-207 | in a drained batch, every cache miss whose `translations[i]` is non-empty is answered with it |
| EnhancedTranslation.UncachedMembers | src/services/enhancedTranslationService.ts:189-192 | the requests sent on are exactly the group's requests whose key the lookup did not return |
| EnhancedTranslation.NothingUncached | src/services/enhancedTranslationService.ts:189-195 | when the lookup returns every key, no request is left for the API |
| EnhancedTranslation.RequestsOf | src/services/enhancedTranslationService.ts:168 | the drained requests are the batch's values in key-insertion order |
| EnhancedTranslation.RequestsOfByKey | src/services/enhancedTranslationService.ts:168 | every pending request is drained, and every drained request is the batch's entry under its own key |
| EnhancedTranslation.KeyedBatchAdd | src/services/enhancedTranslationService.ts:239 | adding a request under its new key keeps the batch keyed and grows it by exactly one |
| EnhancedTranslation.EnhancedTranslationService.constructor | src/services/enhancedTranslationService.ts:19-20 | the batch starts empty with no timer |
| EnhancedTranslation.EnhancedTranslationService.BatchTranslateWithAPI | src/services/enhancedTranslationService.ts:104-162 | one invocation, then request i maps to `translations[i]` if non-empty else its text (its text on error, nothing when the reply has no `translations` or the list is empty), plus the rows to cache |
| EnhancedTranslation.EnhancedTranslationService.TakeTranslations | src/services/enhancedTranslationService.ts:128-150 | the results map request i's key to `translations[i]` when present and non-empty, else to its own text, and the cache rows pair each request with that text, in order |
| EnhancedTranslation.EnhancedTranslationService.FallBackToTexts | src/services/enhancedTranslationService.ts:151-159 | on failure every request's key maps to its own text |
| EnhancedTranslation.EnhancedTranslationService.ProcessBatch | src/services/enhancedTranslationService.ts:165-215 | the batch is emptied, the timer is untouched, and every drained key gets exactly one answer: the answer its language-pair group gives it |
| EnhancedTranslation.EnhancedTranslationService.TranslateText | src/services/enhancedTranslationService.ts:218-266 | trivial requests (same language, empty text, trimmed length below 2) are answered with their text and change nothing; a pending key changes nothing; a new key is appended with the timer restarted; the tenth request drains the batch and answers every one of its requests; fewer than ten requests stay pending between calls, and an awaited key is always either still pending or just answered |
| EnhancedTranslation.EnhancedTranslationService.Flush | src/services/enhancedTranslationService.ts:250-253 | the timer flush answers every pending request and leaves an empty batch with no timer |
| EnhancedTranslation.AnswerAll | src/services/enhancedTranslationService.ts:171-214 | grouping by pair, looking up, translating the misses and dispatching answers every request of the batch exactly once with its group's answer |
| EnhancedTranslation.Dispatch | src/services/enhancedTranslationService.ts:205-213 | every request of the group is answered with its merged translation or else its own text, and earlier answers are kept |
| EnhancedTranslation.GroupIsSelect | src/services/enhancedTranslationService.ts:172-179 | a non-empty pair group is the group of its first member |
| EnhancedTranslation.GroupMembers | src/services/enhancedTranslationService.ts:172-179 | a group holds exactly the batch's requests with its language pair |
| EnhancedTranslation.ResolveInGroup | src/services/enhancedTranslationService.ts:199-207 | resolving a request against its group's merged map is its answer |
| EnhancedTranslation.ApiResultsEntry | src/services/enhancedTranslationService.ts:136-139 | every API result belongs to a request with that key and holds that request's API text |
| EnhancedTranslation.ApiResultsAt | src/services/enhancedTranslationService.ts:136-139 | with distinct keys, request i is found under its key with the text at index i |
| EnhancedTranslation.ApiResultsMissCache | src/services/enhancedTranslationService.ts:189-201 | the API step never answers a key the cache already answered |
| EnhancedTranslation.CachedAnswerWins | src/services/enhancedTranslationService.ts:199-207 | a non-empty cached translation is the answer, whatever the translate function replies |
| EnhancedTranslation.AllCachedMakesNoApiCall | src/services/enhancedTranslationService.ts:189-196 | a group whose every key is cached sends nothing and is answered from the cache alone |
| EnhancedTranslation.FallbackAnswer | src/services/enhancedTranslationService.ts:207 | when the translate function translates nothing for a group, each request gets its non-empty cached translation or else its own text |
| EnhancedTranslation.ApiErrorFallsBack | src/services/enhancedTranslationService.ts:118-125 | when every invocation reports an error, every request is answered from the cache or with its own text |
| EnhancedTranslation.ClientReply | src/services/enhancedTranslationService.ts:110-128 | an HTTP error is an invoke error, and `translations` is read exactly from a `{translations}` reply |
| EnhancedTranslation.SingleUncachedRequestIsNeverTranslated | src/services/enhancedTranslationService.ts:128 | a group with one uncached request is answered from the cache or with its own text under the deployed function, since a one-text batch gets `{translatedText}` |
| EnhancedTranslation.ManyTextsGetOneTranslationEach | src/services/enhancedTranslationService.ts:128-136 | a batch of several texts with a completed model call reaches the client as one translation per text |
| EnhancedTranslation.EchoedTextsCacheThemselves | src/services/enhancedTranslationService.ts:136-147 | a reply that echoes the texts makes one cache row per request, pairing each text with itself |
| EnhancedTranslation.FailedModelCallCachesTexts | supabase/functions/translate/index.ts:100-114 | a failed model call reaches the client as `translations` equal to the texts, and each text is queued for the cache as its own translation |
| TranslateFunction.Normalize | supabase/functions/translate/index.ts:35-36 | the request is a batch exactly when `texts` is an array |
| TranslateFunction.Valid | supabase/functions/translate/index.ts:41 | a request is valid when it has at least one text and both languages are non-empty (a predicate, no contract) |
| TranslateFunction.TotalLength | supabase/functions/translate/index.ts:95 | the total length is at least the length of every text |
| TranslateFunction.Echo | supabase/functions/translate/index.ts:52-61 | the echo returns the inputs in their own shape: `translations` for a batch, `translatedText` for a single text |
| TranslateFunction.MaxTokens | supabase/functions/translate/index.ts:95 | `max_tokens` is twice the total input length, capped at 4000 |
| TranslateFunction.SplitLines | supabase/functions/translate/index.ts:125 | the pieces have no newline and joining them with newlines gives the input back |
| TranslateFunction.SplitJoinRoundTrip | supabase/functions/translate/index.ts:125 | splitting newline-free lines joined with newlines gives the lines back |
| TranslateFunction.StripNumbering | supabase/functions/translate/index.ts:126 | the numbering removal only drops a prefix of the line |
| TranslateFunction.StripNumberedLine | supabase/functions/translate/index.ts:126 | a line `<digits>.<rest>` loses exactly its number, its dot and the blanks after them |
| TranslateFunction.UnnumberedLineUnchanged | supabase/functions/translate/index.ts:126 | a line that does not start with a digit is left as it is |
| TranslateFunction.CleanLines | supabase/functions/translate/index.ts:124-127 | the cleaned lines are non-empty and trimmed, and there are no more of them than input lines |
| TranslateFunction.ParseBatchReply | supabase/functions/translate/index.ts:124-127 | every parsed translation is a non-empty trimmed single line |
| TranslateFunction.Aligned | supabase/functions/translate/index.ts:130-135 | exactly one translation per input: the parsed line at its index, or the input text when the reply was short |
| TranslateFunction.PadToInputs | supabase/functions/translate/index.ts:130-135 | the padding loop and the slice compute the aligned list |
| TranslateFunction.Decimal | supabase/functions/translate/index.ts:67 | list numbers are non-empty runs of digits |
| TranslateFunction.NumberedLines | supabase/functions/translate/index.ts:67 | one numbered line per text |
| TranslateFunction.Prompt | supabase/functions/translate/index.ts:64-70 | the user message; what it carries is `PromptEndsWithTexts` |
| TranslateFunction.PromptEndsWithTexts | supabase/functions/translate/index.ts:64-70 | the prompt ends with the numbered list for several batch texts, and with the one text otherwise |
| TranslateFunction.NumberedListParsesBack | supabase/functions/translate/index.ts:64-67 | the reply parser undoes the prompt's numbered list for trimmed single-line texts |
| TranslateFunction.CompletionReply | supabase/functions/translate/index.ts:119-140 | several batch texts get exactly one translation each; otherwise the trimmed content is the `translatedText` |
| TranslateFunction.Handle | supabase/functions/translate/index.ts:12-156 | the model is called only for a valid request in two different languages with a text present; an invalid request is a 400 and nothing else; the same-language and failed-model cases echo the inputs; a batch of several texts gets exactly as many translations |
| TranslateFunction.Serve | supabase/functions/translate/index.ts:12-156 | the step-by-step handler computes `Handle` |
| TranslateFunction.OneTextBatchGetsTranslatedText | supabase/functions/translate/index.ts:122-139 | a batch of exactly one text is answered with `translatedText`, not `translations` |
| TranslateFunction.EchoingModelReturnsInputs | supabase/functions/translate/index.ts:122-135 | a model that returns the numbered list verbatim yields the inputs as translations |
| SimpleTranslation.Translate | src/services/translationService.ts:20-61 | the same language returns the text; a cached key returns its entry without a fetch; a failure returns the text and caches nothing; a success is cached under the key and returned; entries are only ever added |
| SimpleTranslation.TranslationService.constructor | src/services/translationService.ts:5 | the cache starts empty |
| SimpleTranslation.TranslationService.TranslateText | src/services/translationService.ts:20-61 | the call returns and stores what `Translate` gives for the reply of the fetch |
| SimpleTranslation.RepeatIsServedFromCache | src/services/translationService.ts:28-30 | after a success the same request is answered from the cache with the same value and no fetch |
| SimpleTranslation.FailureIsRetried | src/services/translationService.ts:56-60 | after a failure the next identical request fetches again |
| SimpleTranslation.ClientReply | src/services/translationService.ts:45-50 | exactly the error replies count as failures |
| SimpleTranslation.EdgeRepliesAreDefined | src/services/translationService.ts:49-53 | against the deployed function a successful reply always has a `translatedText` |
| TranslatedContent.Suffix | src/utils/translationUtils.ts:20-27 | exactly the four interface languages have a non-empty suffix |
| TranslatedContent.OrElse | src/utils/translationUtils.ts:38-39 | `value \|\| fallback`: a missing or empty value gives the fallback |
| TranslatedContent.GetTranslatedContent | src/utils/translationUtils.ts:15-48 | an unmapped language gets the defaults; each field is its non-empty translation for the language, or else its default |
| TranslatedContent.PropertyNamesDiffer | src/utils/translationUtils.ts:30-31 | a title property and a content property never share a name |
| TranslatedContent.ContentIgnoresTitleProperty | src/utils/translationUtils.ts:30-39 | setting a translated title does not change the selected content |
| TranslatedContent.TitleIgnoresContentProperty | src/utils/translationUtils.ts:30-39 | setting a translated content does not change the selected title |
| TranslatedContent.SuffixesDistinct | src/utils/translationUtils.ts:20-25 | the four languages read four different properties |
| ProjectSearch.Search | src/hooks/useProjects.tsx:97-111 | an empty query returns the projects unchanged; the result is never longer than the input |
| ProjectSearch.SearchMembers | src/hooks/useProjects.tsx:100-107 | a non-empty query keeps exactly the input projects whose title or description contains it, ignoring case |
| ProjectSearch.SearchKeepsOrder | src/hooks/useProjects.tsx:98-107 | the result is a subsequence of the input, in input order |
| ProjectSearch.SearchIgnoresQueryCase | src/hooks/useProjects.tsx:102 | queries that differ only in letter case select the same projects |
| ProjectSearch.SearchIgnoresTitleCase | src/hooks/useProjects.tsx:102-107 | two projects whose titles differ only in letter case (same description) are kept or dropped together |
| Kanban.ColumnIds | src/components/KanbanBoard.tsx:29-54 | one id per column, in column order |
| Kanban.ColumnOrder | src/components/KanbanBoard.tsx:29-54 | the columns are released, ongoing, consideration and backlog, in that order |
| Kanban.GroupProjects | src/components/KanbanBoard.tsx:15-21 | one group per status that occurs, holding that status's projects in input order; the group sizes add up to the number of projects |
| Kanban.ExactlyOneGroup | src/components/KanbanBoard.tsx:15-21 | each project is in the group of its own status and in no other |
| Kanban.ColumnCount | src/components/KanbanBoard.tsx:67 | an absent group counts 0 |
| Kanban.ColumnProjects | src/components/KanbanBoard.tsx:71-79 | a column shows as many cards as its count |
| Kanban.Shown | src/components/KanbanBoard.tsx:58-79 | the cards of the columns in order; which projects they are is `ShownIffColumnStatus` |
| Kanban.ColumnCountIsStatusCount | src/components/KanbanBoard.tsx:67 | a column's count and cards are the projects with its status |
| Kanban.ShownIffColumnStatus | src/components/KanbanBoard.tsx:58-79 | a project is on the board exactly when its status is a column id |
| Kanban.SubmittedIsHidden | src/components/KanbanBoard.tsx:58-79 | a 'submitted' idea is on no column |
| NewIdea.Submission | src/components/NewIdeaModal.tsx:38-48 | accepted exactly when every field has a non-white-space character; the idea handed on is `Idea(trim(title), trim(description), trim(author))`, whose fields are non-empty and trimmed |
| NewIdea.SubmissionIsIdempotent | src/components/NewIdeaModal.tsx:48 | submitting an accepted idea's own fields again yields the same idea |
| NewIdea.NewIdeaForm.constructor | src/components/NewIdeaModal.tsx:29-31 | the fields start empty |
| NewIdea.NewIdeaForm.HandleSubmit | src/components/NewIdeaModal.tsx:35-61 | a blank field shows "Missing fields" and keeps the values; otherwise the trimmed idea is handed on, and the form is cleared unless the hand-over throws, in which case an error toast is shown and the values are kept |
| CommentForms.CommentSubmission | src/components/project-card/CommentForm.tsx:15-16 | accepted exactly when the comment and the author both have a non-white-space character; the draft carries them untrimmed |
| CommentForms.CommentKeepsSpaces | src/components/project-card/CommentForm.tsx:15-16 | a comment with surrounding spaces is handed on with them, and a blank one is refused |
| CommentForms.CommentForm.constructor | src/components/project-card/CommentForm.tsx:10-11 | the fields start empty |
| CommentForms.CommentForm.HandleSubmit | src/components/project-card/CommentForm.tsx:13-20 | an accepted comment is handed on and both fields are cleared; a refused one changes nothing |
| Upvote.IsEmailValid | src/components/project-card/UpvoteButton.tsx:25 | an address is valid exactly when it contains '@' |
| Upvote.ShowsEmailSection | src/components/project-card/UpvoteButton.tsx:54 | the e-mail section shows exactly when the user has upvoted and the caller asks for it |
| Upvote.SubmitDisabled | src/components/project-card/UpvoteButton.tsx:73 | Submit is disabled exactly when the address lacks '@' |
| Upvote.EmailSubmission | src/components/project-card/UpvoteButton.tsx:27-32 | the address is handed on exactly when a handler is given and the address is valid |
| Upvote.EnabledSubmitSends | src/components/project-card/UpvoteButton.tsx:73 | with a handler, an enabled Submit always hands the address on, and a disabled one never could |
| Upvote.UpvoteButton.constructor | src/components/project-card/UpvoteButton.tsx:24 | the field starts empty |
| Upvote.UpvoteButton.HandleEmailSubmit | src/components/project-card/UpvoteButton.tsx:27-32 | the address is handed on and cleared, or else left as it was |
| StatusBadge.StatusClass | src/components/project-card/StatusBadge.tsx:9-22 | each of ongoing, released and consideration has its own colour; 'backlog' and every unknown status get the grey class |
| StatusBadge.StatusText | src/components/project-card/StatusBadge.tsx:24-37 | the four stored statuses have their labels, and any other status is shown as is |
| StatusBadge.KnownLabelsDistinct | src/components/project-card/StatusBadge.tsx:24-34 | the four known statuses get four different labels, none equal to the raw status |
| StatusBadge.StoredStatusesOnBadge | src/components/project-card/StatusBadge.tsx:24-37 | every stored status except 'submitted' has a label of its own; 'submitted' is shown raw and grey |
| StatusBadge.LabelLookalike | src/components/project-card/StatusBadge.tsx:24-37 | a status spelled like a label reads like the status it names but is grey |
| ProjectCard.CardStatusClass | src/components/ProjectCard.tsx:24-35 | each front-end status has its own class, and every other status is grey |
| ProjectCard.CardStatusText | src/components/ProjectCard.tsx:37-48 | the three front-end statuses have labels, and any other status is shown as is |
| ProjectCard.StoredStatusesOnCard | src/components/ProjectCard.tsx:24-48 | of the stored statuses only 'consideration' gets a label and a colour on the card |
| ProjectCard.CardAcceptsLikeCommentForm | src/components/ProjectCard.tsx:56 | the card accepts a comment exactly when neither field is blank after trimming |
| ProjectCard.ProjectCardState.constructor | src/components/ProjectCard.tsx:20-22 | the fields start empty, with the form closed |
| ProjectCard.ProjectCardState.ToggleCommenting | src/components/ProjectCard.tsx:98 | the button negates `isCommenting` and leaves the fields alone |
| ProjectCard.ProjectCardState.HandleSubmitComment | src/components/ProjectCard.tsx:54-65 | an accepted comment is handed on untrimmed with the project's id, then both fields are cleared and the form closes; a refused one changes nothing |

## Left out

- Remote calls are parameters, not modelled I/O:
  - the database query of `getCachedTranslations` is a `CacheLookup` that returns rows or nothing;
  - `functions.invoke` is a `TranslateInvoke`;
  - the `fetch` of the simple translator is a `Fetch`;
  - the model call inside the edge function is an `Upstream` outcome.
- `saveTranslationsToCache` is fire-and-forget and cannot change an answer. The model computes the rows it would write (`RowsToSave`) but not the upsert.
- Timers, promises and `window` events:
  - the flush timer is the `timerArmed` flag together with `Flush`;
  - the `translationReady` events are the key-to-text map a flush returns;
  - the 100 ms flush delay (`BATCH_DELAY`) is not modelled, since time is not.
- Interleavings are not modelled:
  - calls that arrive while an asynchronous `processBatch` is still awaiting the cache or the API;
  - the delay between a full batch being drained and its answers arriving.
- EnhancedTranslation.EnhancedTranslationService.TranslateText: re-entrant calls during a flush are not modelled. `processBatch` empties the batch (enhancedTranslationService.ts:168-169) before its first await (enhancedTranslationService.ts:186). A same-key call arriving during that await misses the pending check (enhancedTranslationService.ts:226), is added again and is sent in a second invocation. The model drains and answers a batch in one step, so within one invocation keys are distinct (`InvocationKeysUnique`).
- TranslationKeys.LanguageName: keys inherited from `Object.prototype` are not modelled. `languageMap['toString']` (enhancedTranslationService.ts:270-276) is a function, which is truthy, so the source returns it rather than 'English'; the model answers 'English' for every unknown code.
- TranslatedContent.Suffix: the same holds for `languageMap[language]` in translationUtils.ts:20-27. An inherited key such as `toString` is truthy there, whereas the model has no suffix for it.
- Kanban.GroupProjects: keys inherited from `Object.prototype` are not modelled. For a status such as `constructor`, `acc['constructor']` (KanbanBoard.tsx:15-21) is already truthy and has no `push`, so the source throws; the model groups every status alike. The declared `Status` values do not include such names.
- EnhancedTranslation.EnhancedTranslationService.TranslateText: the stale timer handle is not modelled. After `clearTimeout` on a full batch, the handle is not reset to `null`. The model clears the flag, because a cleared timer never fires.
- The singleton `getInstance` accessors are left out. Each class has a plain constructor.
- The CORS headers, logging and the `details` field of a 500 reply are left out. The JSON parsing of the request body is reduced to the `Body` fields, or to failure.
- Strings:
  - Unicode `trim`, case folding and UTF-16 `length` are restricted to ASCII;
  - a non-string `text` or `texts` element in a request body is not modelled.
- The database helpers in `src/lib/supabase/api.ts` are not part of this model. They are thin CRUD over the remote store. Their upvote toggle looks up an anonymous vote by `email = ''` but inserts `NULL`, so an anonymous toggle always adds a vote.
- Not part of this model:
  - the React hooks with debouncing and stale-request guards;
  - date formatting;
  - configuration, fixtures and the purely presentational components.
- The two status vocabularies disagree, so the model takes statuses as strings and states what each view does with the other's. The database stores released, ongoing, consideration, backlog and submitted. The front-end type declares in-progress, planned and consideration.
