# Blog generation: a verified model of the composer, post creation and the generation handler

The application lets a signed-in user describe a blog post and have a language model write it.

- The user types a topic into the prompt composer and opens any of four optional fields: keywords, critique, reference materials and sources.
- On send, the new-post page inserts a `posts` row with status `draft` and navigates to the post.
- `POST /api/generate` then does the writing:
  - It checks the caller and loads the caller's own post.
  - It marks the post `generating` and builds a user prompt from the topic and the filled columns.
  - It calls the model and strips Markdown code fences from the reply.
  - It parses the cleaned reply as JSON. When parsing fails it falls back to the raw text.
  - It stores title, summary and content with status `generated`. When anything throws, it rolls the status back to `draft`. The model call can throw, and so can reading `title` of a reply that parsed to `null`.

The model is pure Dafny. Every collaborator is an input:

- the identity lookup;
- the request body's `postId`;
- the `posts` store, as a map from id to row;
- the model call and `JSON.parse`, as total functions;
- the error reported by the final update, if any.

The handler returns three things:

- the HTTP response;
- the ordered writes that reach the store;
- the prompt the model was called with.

| file | module | contents |
|---|---|---|
| `optional.dfy` | `Optional` | `Option` |
| `js_text.dfy` | `JsText` | the ECMAScript string operations used: `trim` with the ECMAScript WhiteSpace and LineTerminator sets, truthiness, `slice(0, n)`, global replacement of `/lit\n?/g` |
| `posts.dfy` | `Posts` | the `posts` row, the store, partial updates keyed by id, the owned lookup, insertion |
| `generate_route.dfy` | `GenerateRoute` | the handler, prompt building, reply cleaning, the fallback article, and the properties of each |
| `prompt_area.dfy` | `PromptArea` | composer state: open fields as a map, add/remove/update, the active/available partition, submit |
| `new_post_page.dfy` | `NewPostPage` | the sign-in redirect, the `submitting` guard, options to columns |
| `scenarios.dfy` | `Scenarios` | the three pieces composed: a composer submission becomes a row, and the handler acts on it |

## Behaviour as written

The model follows the code in these places:

- **Fallback content.** When the reply does not parse, the stored content is the raw reply with its fences and surrounding whitespace. It is not the cleaned text (`GenerateRoute.UnparsableReplyStoredRaw`).
- **Failed final update.** The handler responds 500 with the store's message and does not roll back, so the post stays `generating` (`GenerateRoute.SaveFailureLeavesGenerating`).
- **No status check.** The handler never checks the post's current status. A `published` or already `generating` post is regenerated like a draft (`GenerateRoute.StatusAfterAuthorizedRequest`).
- **A `null` reply.** A reply that parses to `null` passes `JSON.parse`. Reading its `title` then throws a `TypeError`, so the post is rolled back to `draft` and the error's message is reported (`GenerateRoute.NullReplyRollsBack`).
- **Error message.** A thrown `Error` is reported with its own message, even an empty one. Only a thrown non-`Error` value gets `Generation failed` (`GenerateRoute.ErrorMessage`).
- **Fenced replies.** A fenced reply "```json\n" + s + "\n```" cleans to `trim(s)`, not to `s` (`GenerateRoute.FencedCleansLikeBare`).
- **Enter while disabled.** The composer's `disabled` flag greys out the send button only. Enter still submits, and it is the page's `submitting` flag that stops a second insert (`Scenarios.SubmittingFlagGuardsEnter`).

## Model

| member | source | states |
|---|---|---|
| JsText.TrimStart | app/api/generate/route.ts:73 | the result is a suffix of the input, everything removed is whitespace, and the result does not start with whitespace |
| JsText.TrimEnd | app/api/generate/route.ts:73 | the result is a prefix of the input, everything removed is whitespace, and the result does not end with whitespace |
| JsText.Trim | components/prompt/PromptArea.tsx:98 | `trim` yields a segment of the input with no whitespace at either end, and only whitespace lies outside that segment |
| JsText.TrimIsCore | components/prompt/PromptArea.tsx:102 | independent characterisation: the segment between the first and last non-whitespace characters is exactly what `trim` returns |
| JsText.TrimEmptyIffBlank | components/prompt/PromptArea.tsx:98 | `value.trim()` is falsy exactly when the value is all whitespace, in both directions |
| JsText.TrimIdempotent | components/prompt/PromptArea.tsx:102 | trimming an already trimmed value changes nothing |
| JsText.TrimDropsTrailingWhitespace | app/api/generate/route.ts:73 | a whitespace character appended to the reply does not survive the final `trim` |
| JsText.Prefix | app/api/generate/route.ts:77 | `slice(0, n)` is a prefix of at most n characters, the whole string when it is short enough, and exactly n characters otherwise |
| JsText.StripAll | app/api/generate/route.ts:73 | a global `/lit\n?/` replacement never lengthens the text and leaves text without the literal unchanged |
| JsText.StripAllAppend | app/api/generate/route.ts:73 | when no match can start inside a fence-free prefix, the replacement passes that prefix through untouched |
| Posts.ApplyPatch | app/api/generate/route.ts:84-92 | a status update changes only the status; the article update writes title, summary, content and `generated` together; neither touches the submitted columns |
| Posts.Apply | app/api/generate/route.ts:34-37 | an update keyed by id changes at most that row and never adds or removes a row |
| Posts.ApplyAll | app/api/generate/route.ts:33-108 | a sequence of updates keeps the key set, leaves every row it is not keyed by unchanged, and never changes owner or submission |
| Posts.FindOwned | app/api/generate/route.ts:22-27 | the lookup finds a row exactly when it exists and belongs to the caller |
| Posts.RowOf | app/dashboard/new/page.tsx:35-47 | the created row carries the inserted owner, prompt, status and the four option columns, and its generated columns start out null |
| Posts.Insert | app/dashboard/new/page.tsx:35-47 | an insert under a fresh id adds exactly that row and keeps every other row; a taken id is refused |
| Posts.ApplyAllTwo | app/api/generate/route.ts:84-104 | two updates in a row act as the first then the second |
| GenerateRoute.UserPrompt | app/api/generate/route.ts:55-59 | the prompt is the topic line followed by one labelled line per truthy context column, in the fixed order |
| GenerateRoute.AppendPresentIsLines | app/api/generate/route.ts:55-59 | appending the columns one `if` at a time renders exactly the filtered list of present columns |
| GenerateRoute.LinesCons | app/api/generate/route.ts:56-59 | a list of labelled values renders as its first line followed by the rest |
| GenerateRoute.LinesOfPresentCons | app/api/generate/route.ts:56-59 | each column contributes its line when truthy and nothing otherwise, ahead of the later columns' lines |
| GenerateRoute.PresentValuesTruthy | app/api/generate/route.ts:56-59 | no null or empty column ever reaches the prompt |
| GenerateRoute.PresentExactly | app/api/generate/route.ts:56-59 | every truthy column is in the prompt with its own label, and every line of the prompt comes from such a column |
| GenerateRoute.TopicOnlyPrompt | app/api/generate/route.ts:55 | a post with no truthy context column is prompted with its topic line alone |
| GenerateRoute.Clean | app/api/generate/route.ts:73 | the cleaned reply never starts or ends with whitespace |
| GenerateRoute.CleanWithoutFences | app/api/generate/route.ts:73 | a reply without any triple backtick cleans to its trim |
| GenerateRoute.ClosingFenceStrips | app/api/generate/route.ts:73 | the closing fence survives the `json` pass and is removed by the plain pass, leaving the line feed before it |
| GenerateRoute.FencedFirstPass | app/api/generate/route.ts:73 | the first replacement removes the opening "```json" fence and its line feed and nothing else |
| GenerateRoute.FencedSecondPass | app/api/generate/route.ts:73 | the second replacement removes the closing fence and nothing else |
| GenerateRoute.FencedCleansLikeBare | app/api/generate/route.ts:73 | JSON text wrapped in a "```json" block cleans to the same string as the bare text, namely its trim |
| GenerateRoute.Fallback | app/api/generate/route.ts:75-80 | the fallback title is the topic cut to 50 characters, the summary is empty and the content is the raw reply |
| GenerateRoute.FencedInterpretsLikeBare | app/api/generate/route.ts:72-81 | a fenced reply whose bare text parses yields the same article as the bare text |
| GenerateRoute.Handle | app/api/generate/route.ts:7-31 | 401 before anything else, then 400 for a falsy `postId`, then 404 for a missing or foreign post, each with no write; otherwise the first write marks the post `generating` and the model is called with the composed prompt |
| GenerateRoute.Proceed | app/api/generate/route.ts:33-67 | after a successful lookup, the post is marked `generating` first, every write is keyed by the post id, and the model gets the composed prompt |
| GenerateRoute.Finish | app/api/generate/route.ts:67-108 | after the model call the response is 200 or 500, and every write follows the `generating` mark on the same id; the answer is 200 exactly when the model replied, the reply did not parse to `null` and the save succeeded |
| GenerateRoute.RollBack | app/api/generate/route.ts:99-107 | the `catch` block writes `draft` after the mark and answers 500 with the thrown value's message |
| GenerateRoute.FinishSeesOnlyParsedJson | app/api/generate/route.ts:72-98 | once the reply parses as JSON, the response and writes depend only on the parsed value, not on the reply's text |
| GenerateRoute.RejectedRequestChangesNothing | app/api/generate/route.ts:11-31 | a request that fails authentication, the `postId` check or the ownership lookup writes nothing and answers 400, 401 or 404 |
| GenerateRoute.ForeignPostLooksMissing | app/api/generate/route.ts:22-31 | another user's post gets the same response as a missing post, and the store is unchanged |
| GenerateRoute.SuccessStoresArticle | app/api/generate/route.ts:84-98 | on success, one update stores the interpreted article with `generated` after the mark, and the response carries its title |
| GenerateRoute.UnparsableReplyStoredRaw | app/api/generate/route.ts:72-92 | an unparsable reply is stored with the 50-character topic as title, an empty summary and the raw reply as content |
| GenerateRoute.ModelFailureRollsBack | app/api/generate/route.ts:99-107 | a throwing model call rolls the post back to `draft` and reports the thrown message |
| GenerateRoute.NullReplyRollsBack | app/api/generate/route.ts:74-107 | a reply that parses to `null` makes reading `title` throw: the post goes back to `draft` and the `TypeError`'s message is reported, whatever the save would have done |
| GenerateRoute.SaveFailureLeavesGenerating | app/api/generate/route.ts:84-96 | a failed final update answers 500 with the store's message and leaves the post `generating` |
| GenerateRoute.StatusAfterAuthorizedRequest | app/api/generate/route.ts:33-108 | an authorised request ends `generated` exactly on 200; `draft` exactly when the model throws or its reply parses to `null`; `generating` exactly when only the save fails; and it changes no other row |
| GenerateRoute.FencedReplyHandledLikeBare | app/api/generate/route.ts:67-98 | a fenced reply and its bare text give the same response, writes and prompt when the text is JSON, an article or `null` |
| PromptArea.AddField | components/prompt/PromptArea.tsx:114-117 | the field opens with empty text, the menu closes, and no other field changes |
| PromptArea.RemoveField | components/prompt/PromptArea.tsx:119-125 | the field is closed, no other field changes, and removing a closed field is a no-op |
| PromptArea.UpdateField | components/prompt/PromptArea.tsx:127-129 | the field gets the new text and no other field changes |
| PromptArea.HasValue | components/prompt/PromptArea.tsx:131 | the send button is enabled exactly when the topic is not all whitespace and the composer is not disabled |
| PromptArea.FieldsWhere | components/prompt/PromptArea.tsx:132-133 | the filter keeps only fields of the asked kind, in their original order |
| PromptArea.FieldsWhereSplits | components/prompt/PromptArea.tsx:132-133 | the open and not-open filters together hold each field exactly as often as the list does |
| PromptArea.FieldsWherePartition | components/prompt/PromptArea.tsx:132-133 | the two filters are disjoint and together cover the list |
| PromptArea.AvailableAndActivePartition | components/prompt/PromptArea.tsx:14-57 | the menu's fields and the open fields partition the four option fields, each part in display order |
| PromptArea.FilledOptions | components/prompt/PromptArea.tsx:100-103 | the submitted options are exactly the open fields that are not all whitespace, each trimmed and non-empty |
| PromptArea.CollectFilledOptions | components/prompt/PromptArea.tsx:100-103 | the loop over the open fields builds exactly the filled options |
| PromptArea.HandleSubmit | components/prompt/PromptArea.tsx:97-105 | nothing is sent for an all-whitespace topic; otherwise the trimmed topic and the filled options are sent |
| PromptArea.KeyDown | components/prompt/PromptArea.tsx:107-112 | Enter without Shift sends exactly what `handleSubmit` would, whether or not the composer is disabled; any other key sends nothing |
| NewPostPage.Redirect | app/dashboard/new/page.tsx:15-19 | the page redirects to `/auth` exactly when loading is over and there is no user |
| NewPostPage.Render | app/dashboard/new/page.tsx:21-29 | the composer is shown only to a signed-in user once loading is over |
| NewPostPage.Column | app/dashboard/new/page.tsx:40-43 | an option becomes its column value when present and non-empty, and null otherwise |
| NewPostPage.NewRow | app/dashboard/new/page.tsx:35-45 | the inserted row is owned by the user, has the given prompt, status `draft` and the four option columns |
| NewPostPage.HandleSubmit | app/dashboard/new/page.tsx:31-56 | while submitting nothing is inserted; a failed insert clears the flag without navigating; a successful one navigates to the new post and keeps the flag |
| NewPostPage.NoSecondInsert | app/dashboard/new/page.tsx:31-33 | after a successful submission any further submission inserts nothing |
| Scenarios.ColumnOfFilled | app/dashboard/new/page.tsx:40-43 | a composer field becomes its trimmed text as a column when open and not blank, and null otherwise |
| Scenarios.ComposerOptionsBecomeColumns | app/dashboard/new/page.tsx:35-45 | a composer submission becomes a `draft` row of the user with the trimmed topic and the expected column values |
| Scenarios.Create | app/dashboard/new/page.tsx:31-47 | a submission inserted under a fresh id yields a `draft` row of the user with the trimmed topic, each option column holding its field's trimmed text when open and not blank and null otherwise, and null title, summary and content |
| Scenarios.SubmitThenGenerate | app/api/generate/route.ts:84-98 | a submitted post, generated successfully, ends `generated` with the interpreted article, and every earlier row is untouched |
| Scenarios.SubmitThenModelFails | app/api/generate/route.ts:99-107 | a submitted post whose model call throws ends as it was created, with the thrown message reported |
| Scenarios.OtherUserCannotGenerate | app/api/generate/route.ts:22-31 | another user asking to generate the new post gets 404 and the store is unchanged |
| Scenarios.SubmittingFlagGuardsEnter | components/prompt/PromptArea.tsx:107-112 | while submitting the button is disabled but Enter still submits, and the page's flag keeps a second row from being inserted |
| Scenarios.WinterTripExample | app/api/generate/route.ts:55 | a topic with no options is inserted with null columns, prompted with the topic line alone, and ends `generated` |

## Left out

- The system instruction text and the model name passed to the model client are not modelled. They are constants handed to a foreign call, and the reply is an input here.
- `request.json()` throwing on a malformed body is not modelled. The body's `postId` is an input that is absent or a string; a non-string `postId` such as a number is not represented.
- The results of the `generating` mark and of the `draft` rollback are ignored by the handler. Both are modelled as taking effect.
- An exception thrown by the final update call is not modelled. Only the error value it returns is.
- JSON that parses to something other than an article object or `null` is not modelled: an object lacking some of `title`, `summary` or `content`, a number, a string, an array or a boolean. Reading the fields of such a value does not throw; the handler stores `undefined` and promises nothing about it. `parse` returns a complete article, `null` or "not JSON".
- The `TypeError` message for reading `title` of `null` is the text Node's JavaScript engine produces. Other engines word it differently.
- GenerateRoute.Fallback: the title counts characters (code points), not UTF-16 code units as `slice` does. Topics with characters outside the Basic Multilingual Plane can therefore be cut at a different place.
- The real `JSON.parse`, the model call and the database queries are foreign calls. They are total functions or input values here.
- Races between concurrent generation requests and the post page's status poller are not modelled. The poller's source is not part of this model.
- Concurrency in the composer and the page is not modelled, including a state update landing while a submission is in flight.
- Rendering, icons, the popover menu, focus handling and textarea auto-resize are DOM work and are left out.
- The topic's `onChange` handler, `console.error` logging and the database's timestamps are left out.
- OAuth sign-in, the auth callback, the dashboard list, the navbar, the landing page and the WebGL shaders are outside the modelled core.
