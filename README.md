# TypeScript study site: a verified model of its core

The site teaches TypeScript in ten lessons. A reader picks a lesson in the
sidebar and edits the lesson's example in a code editor. The example runs in
a sandbox worker, and completed lessons are remembered and counted on a
progress page. A small backend serves the single-page application.

This project models, in Dafny, the parts of the site that decide something:

- **Sanitizer**: the sandbox's `sanitizeCode`. This is a chain of fifteen
  global regular-expression replacements that strip TypeScript-only syntax
  before the snippet is run as JavaScript. Each expression is a `Pattern`.
  `MatchAt` is a matcher that finds the end of the backtracking engine's
  match at an index. `ReplaceAll` is `String.prototype.replace` with a
  global expression. `SanitizeCode` applies the chain in the source's order.
  Each matcher is proved against the expression's language (`InLanguage`),
  in both directions.
- **SanitizerExamples**: what the chain does to code shapes, and to two
  single lines that occur in the lessons' examples (`let count: number = 42;`
  and `private name: string;`). No whole example of the catalogue is run
  through the chain.
- **Console**: the sandbox's `formatArgs`, which turns one console call's
  arguments into one transcript line.
- **SandboxWorker**: the sandbox's message handler and the `console` it
  hands to the snippet. A run posts one `log` message per console call
  whose arguments convert, then either `done` with the whole transcript or
  `error`. When the `catch` cannot convert the thrown value to text, it posts
  neither.
- **CodeEditor**: the editor component as a class. Its fields are the
  React state and the worker reference. It reacts to the worker's answers.
- **App**: the application state as a class. It holds the current lesson,
  the current page, the completed set and its stored copy, plus the lookup
  of a lesson by id.
- **OrderedSet**: JavaScript's `Set` as the site uses it. A set is a
  duplicate-free sequence in insertion order.
- **Sidebar** and **ProgressPage**: the category list, the groups, the
  per-lesson flags, and the counts the progress page shows.
- **Lessons**: the `Lesson` record and the ten-lesson catalogue.
- **SpaFallback**: the backend middleware that sends `index.html` for page
  routes.

The JavaScript engine that runs a snippet is an `Engine` parameter. It maps
a program text to the snippet's console calls and to how the run settles.
`JSON.stringify` and `String` are the two functions of a `Host` parameter.
Either may throw. An exception from stringify is caught by formatArgs. An
exception from `String` is not caught: in formatArgs it reaches the snippet
from inside the console call, and in the handler's `catch` it leaves the run
without a terminal message.

## Model

| member | source | states |
|---|---|---|
| Sanitizer.RunEnd | frontend/src/workers/sandbox-worker.ts:25 | a greedy `\s*`/`\w+`/`[^c]+` run from `j` covers only class characters and stops at the end or at the first character outside the class |
| Sanitizer.RunEndIsFirstOutside | frontend/src/workers/sandbox-worker.ts:25 | any stretch of class characters ending at the end or at a non-class character is exactly the greedy run |
| Sanitizer.MatchAt | frontend/src/workers/sandbox-worker.ts:25-39 | a match found at `i` is at least as long as the shortest string of the expression and ends inside the string |
| Sanitizer.MatchAtIsLongest | frontend/src/workers/sandbox-worker.ts:25-39 | the match at `i` is in the expression's language, and no longer prefix of `s[i..]` is; the matcher finds something exactly when some prefix is in the language |
| Sanitizer.AnnotationSound | frontend/src/workers/sandbox-worker.ts:25-29 | what `:\s*name` matches is in its language |
| Sanitizer.AnnotationComplete | frontend/src/workers/sandbox-worker.ts:25-29 | every string of `:\s*name` laid out at `i` is the match found there |
| Sanitizer.ArrayAnnotationSound | frontend/src/workers/sandbox-worker.ts:30 | what `:\s*\w+\[\]` matches is in its language |
| Sanitizer.ArrayAnnotationComplete | frontend/src/workers/sandbox-worker.ts:30 | every string of `:\s*\w+\[\]` at `i` is the match found there |
| Sanitizer.ObjectAnnotationSound | frontend/src/workers/sandbox-worker.ts:31 | what `:\s*\{[^}]+\}` matches is in its language |
| Sanitizer.ObjectAnnotationComplete | frontend/src/workers/sandbox-worker.ts:31 | every string of `:\s*\{[^}]+\}` at `i` is the match found there, so the match ends at the first `}` |
| Sanitizer.DeclarationSound | frontend/src/workers/sandbox-worker.ts:32-33 | what the interface or alias matcher finds is keyword, whitespace, name, optional whitespace, opener, a non-empty run without the closer, then the closer |
| Sanitizer.DeclarationComplete | frontend/src/workers/sandbox-worker.ts:32-33 | every such declaration at `i` is the match found there, so it ends at the first closer after the opener |
| Sanitizer.SpacedDeclarationSame | frontend/src/workers/sandbox-worker.ts:33 | `type\s+\w+\s*=\s*[^;]+;` has the same language as the shared declaration shape, because whitespace is never `;` |
| Sanitizer.TypeArgumentSound | frontend/src/workers/sandbox-worker.ts:34 | what `<\w+>` matches is in its language |
| Sanitizer.TypeArgumentComplete | frontend/src/workers/sandbox-worker.ts:34 | every string of `<\w+>` at `i` is the match found there |
| Sanitizer.OptionalMarkerSound | frontend/src/workers/sandbox-worker.ts:35 | what `\?\s*:` matches is in its language |
| Sanitizer.OptionalMarkerComplete | frontend/src/workers/sandbox-worker.ts:35 | every string of `\?\s*:` at `i` is the match found there |
| Sanitizer.ModifierSound | frontend/src/workers/sandbox-worker.ts:36-39 | what `keyword\s+` matches is in its language |
| Sanitizer.ModifierComplete | frontend/src/workers/sandbox-worker.ts:36-39 | the match of `keyword\s+` at `i` reaches at least as far as any string of its language laid out there |
| Sanitizer.MatchAtShift | frontend/src/workers/sandbox-worker.ts:25-39 | no expression looks behind: the match at `i' + d` of `s` is the match at `i'` of the suffix of `s` from `d` |
| Sanitizer.MatchStartsWithLead | frontend/src/workers/sandbox-worker.ts:25-39 | every match starts with the expression's first literal character |
| Sanitizer.NoMatchWithoutChar | frontend/src/workers/sandbox-worker.ts:25-39 | an expression matches nowhere in a string that lacks a character of one of its literal parts |
| Sanitizer.ReplaceWith | frontend/src/workers/sandbox-worker.ts:25-39 | global replacement from `i`, leftmost and non-overlapping, is no longer than `s[i..]` when every match is longer than the replacement |
| Sanitizer.ReplaceWithShrinks | frontend/src/workers/sandbox-worker.ts:25-39 | when some match exists at or after `i`, global replacement strictly shortens the string |
| Sanitizer.ReplaceAll | frontend/src/workers/sandbox-worker.ts:25-39 | one `.replace(/…/g, …)` never lengthens the string when its replacement is shorter than every match |
| Sanitizer.ReplaceAllFrom | frontend/src/workers/sandbox-worker.ts:25-39 | resuming replacement at index `d` is the same as replacing in the suffix from `d` |
| Sanitizer.ReplaceAllAfter | frontend/src/workers/sandbox-worker.ts:25-39 | a prefix without the expression's first character is copied unchanged |
| Sanitizer.ReplaceAllAtMatch | frontend/src/workers/sandbox-worker.ts:25-39 | a match at the start is replaced, and replacement resumes at its end |
| Sanitizer.ReplaceAllNoMatch | frontend/src/workers/sandbox-worker.ts:25-39 | a string where the expression matches nowhere is returned as it is |
| Sanitizer.ReplaceAllSingleMatch | frontend/src/workers/sandbox-worker.ts:25-39 | a single match, with no match before it and none after it, is replaced and the text on both sides is copied |
| Sanitizer.ReplaceAllFixedIff | frontend/src/workers/sandbox-worker.ts:25-39 | a shortening replacement leaves a string unchanged if and only if its expression matches nowhere in it |
| Sanitizer.RulesWellFormed | frontend/src/workers/sandbox-worker.ts:25-39 | every rule of the chain replaces each match by something strictly shorter: `""`, or `":"` for the optional marker |
| Sanitizer.ApplyRules | frontend/src/workers/sandbox-worker.ts:23-39 | applying shortening rules in sequence never lengthens the code |
| Sanitizer.ApplyRulesStep | frontend/src/workers/sandbox-worker.ts:24-39 | the chain from rule `k` is rule `k` on the whole string, followed by the rest of the chain |
| Sanitizer.ApplyRulesSkip | frontend/src/workers/sandbox-worker.ts:24-39 | rules that leave the string unchanged can be skipped |
| Sanitizer.SanitizeCode | frontend/src/workers/sandbox-worker.ts:23-39 | the sanitized code is never longer than the input |
| Sanitizer.UntypedNoMatch | frontend/src/workers/sandbox-worker.ts:25-39 | no rule matches in code without `:`, `<`, `interface`, `type`, `private`, `public`, `protected` and `readonly` |
| Sanitizer.SanitizeKeepsUntyped | frontend/src/workers/sandbox-worker.ts:23-39 | such code is run exactly as written |
| Sanitizer.OnlyRuleFires | frontend/src/workers/sandbox-worker.ts:23-39 | when earlier rules keep the code and rule `k` makes it untyped, that is the chain's result |
| SanitizerExamples.PrimitiveAnnotationRemoved | frontend/src/workers/sandbox-worker.ts:25-29 | `u + ":" + spaces + T + v` becomes `u + v` for each of the five primitive type names `T` whenever `u + v` is untyped, even when `v` continues the name, because the expressions have no word boundary |
| SanitizerExamples.AnnotationBlocked | frontend/src/workers/sandbox-worker.ts:25-29 | an annotation rule does nothing to an annotation whose type starts with another letter |
| SanitizerExamples.CountAnnotationRemoved | frontend/src/workers/sandbox-worker.ts:26 | `let count: number = 42;` becomes `let count = 42;` |
| SanitizerExamples.NumberArrayKeepsBrackets | frontend/src/workers/sandbox-worker.ts:26-30 | rule order is observable: `u + ":" + spaces + "number[]" + v` becomes `u + "[]" + v`, because `:\s*number` runs before the array rule |
| SanitizerExamples.NumberArrayExample | frontend/src/workers/sandbox-worker.ts:26-30 | `let a: number[] = [1];` becomes `let a[] = [1];` |
| SanitizerExamples.ArrayAnnotationFires | frontend/src/workers/sandbox-worker.ts:30 | the array rule removes `":" + spaces + name + "[]"` and keeps everything around it |
| SanitizerExamples.ArrayAnnotationRemoved | frontend/src/workers/sandbox-worker.ts:30 | `xs: T[]` becomes `xs` when `T` begins like none of the five primitive names |
| SanitizerExamples.ObjectTypeArgumentKept | frontend/src/workers/sandbox-worker.ts:34 | `<{` does not start a match of `<\w+>`, so `Promise<{…}>` survives |
| SanitizerExamples.DeclarationMatch | frontend/src/workers/sandbox-worker.ts:32-33 | a declaration followed by any text is matched exactly up to its end: the match stops at the first closing character |
| SanitizerExamples.InterfaceRemoved | frontend/src/workers/sandbox-worker.ts:32 | an `interface N {…}` declaration is deleted and the text around it is kept, whenever the rule matches nowhere before it and nowhere after it |
| SanitizerExamples.TypeAliasRemoved | frontend/src/workers/sandbox-worker.ts:33 | a `type N = …;` declaration is deleted and the text around it is kept, whenever the rule matches nowhere before it and nowhere after it |
| SanitizerExamples.DeclarationRuleFires | frontend/src/workers/sandbox-worker.ts:32-33 | either declaration rule deletes one declaration and keeps the text around it, whenever it matches nowhere before it and nowhere after it |
| SanitizerExamples.OptionalMarkerFires | frontend/src/workers/sandbox-worker.ts:35 | `?` + whitespace + `:` becomes `:` and the text around it is kept, whenever the rule matches nowhere before it and nowhere after it |
| SanitizerExamples.PrivateFieldAnnotation | frontend/src/workers/sandbox-worker.ts:25 | the `:\s*string` rule turns `private name: string;` into `private name;` |
| SanitizerExamples.PrivateKeywordRemoved | frontend/src/workers/sandbox-worker.ts:36 | the `private\s+` rule deletes the keyword together with its whitespace |
| SanitizerExamples.PrivateFieldExample | frontend/src/workers/sandbox-worker.ts:25-36 | `private name: string;` becomes `name;` |
| Console.Join | frontend/src/workers/sandbox-worker.ts:21 | joining no parts gives `""`; otherwise the length is the parts' lengths plus one space between each pair of neighbours |
| Console.Render | frontend/src/workers/sandbox-worker.ts:11-19 | rendering one argument fails exactly when it does not have `typeof` "object" and `String` throws on it; a failing stringify is caught |
| Console.FormatArgs | frontend/src/workers/sandbox-worker.ts:9-21 | formatArgs gives a line exactly when every argument renders; no arguments give `""`; one argument gives its rendering alone |
| Console.FormatArgsIsJoin | frontend/src/workers/sandbox-worker.ts:9-21 | when every argument renders, formatArgs is the renderings joined by single spaces |
| Console.JoinPlacesParts | frontend/src/workers/sandbox-worker.ts:21 | the joined string holds each part at its offset, preceded by a space unless it is the first |
| Console.FormatArgsPlacesArgument | frontend/src/workers/sandbox-worker.ts:9-21 | each argument's rendering stands at its offset in the line, after one space unless it is first |
| Console.StringifiedKinds | frontend/src/workers/sandbox-worker.ts:12 | `typeof` is "object" exactly for null, arrays and plain objects, so exactly these go through stringify |
| SandboxWorker.Program | frontend/src/workers/sandbox-worker.ts:62-66 | the runner's body starts with the strict-mode directive and is at most the directive plus the code's length |
| SandboxWorker.CallMessage | frontend/src/workers/sandbox-worker.ts:49-58 | a console call has a line exactly when all its arguments render |
| SandboxWorker.Transcript | frontend/src/workers/sandbox-worker.ts:48-59 | at most one line per console call; when no call throws, exactly one line per call, in call order, each the formatted arguments, with `❌ ` before them for `error` |
| SandboxWorker.TranscriptStep | frontend/src/workers/sandbox-worker.ts:48-59 | one more call adds its own line, or nothing when it throws, after the lines of the calls before it |
| SandboxWorker.TranscriptAppend | frontend/src/workers/sandbox-worker.ts:48-59 | the transcript of two runs of calls is the two transcripts one after the other |
| SandboxWorker.ThrownMessage | frontend/src/workers/sandbox-worker.ts:70-74 | the failure's text is missing exactly when a thrown non-Error value's `String` conversion throws |
| SandboxWorker.Terminal | frontend/src/workers/sandbox-worker.ts:68-74 | there is a terminal message exactly when the run returns or its thrown value has a text, and it is never a `log` |
| SandboxWorker.LogMessages | frontend/src/workers/sandbox-worker.ts:48-59 | one `log` message per transcript line, in order |
| SandboxWorker.Posted | frontend/src/workers/sandbox-worker.ts:41-75 | a run posts one `log` per transcript line, in order, followed by one terminal message exactly when the run returns or its thrown value has a text; a terminal message is not a `log` |
| SandboxWorker.ConsoleProxy.CallLog | frontend/src/workers/sandbox-worker.ts:49-53 | `console.log` appends its line to the transcript and posts it as a `log` message; when formatArgs throws, it records and posts nothing and reports the exception |
| SandboxWorker.ConsoleProxy.CallError | frontend/src/workers/sandbox-worker.ts:54-58 | `console.error` appends `❌ ` plus its line to the transcript and posts that as a `log` message; when formatArgs throws, it records and posts nothing and reports the exception |
| SandboxWorker.RelayCall | frontend/src/workers/sandbox-worker.ts:48-59 | one console call adds its lines to the transcript and one `log` message per line |
| SandboxWorker.RelayCalls | frontend/src/workers/sandbox-worker.ts:42-68 | relaying the calls through a fresh proxy leaves the run's transcript in `logs` and one `log` message per line in `posted` |
| SandboxWorker.OnMessage | frontend/src/workers/sandbox-worker.ts:41-75 | the handler posts exactly the messages of the run specification `RunMessages` |
| SandboxWorker.DoneCarriesPostedLines | frontend/src/workers/sandbox-worker.ts:68-69 | a run that returns ends with `done`, which carries exactly the lines posted before it, in order |
| SandboxWorker.ConsoleErrorIsLogged | frontend/src/workers/sandbox-worker.ts:54-58 | `console.error` whose arguments render posts a `log` message (not `error`) with the `❌ ` prefix, after the lines of the earlier calls and before any terminal message |
| SandboxWorker.ThrowPostsErrorOnly | frontend/src/workers/sandbox-worker.ts:70-74 | a run that throws posts no `done`; it ends with one `error` carrying `error.message` or `String(error)`, and when that conversion throws it posts only `log` messages |
| SandboxWorker.EmptyProgram | frontend/src/workers/sandbox-worker.ts:62-66 | empty code gives the directive alone |
| SandboxWorker.MissingCodeIsDoneEmpty | frontend/src/workers/sandbox-worker.ts:62-69 | missing or empty code, run by an engine that does nothing with the bare directive, posts exactly `done([])` |
| SandboxWorker.CompileErrorIsSingleError | frontend/src/workers/sandbox-worker.ts:66-74 | a runner that cannot be built posts exactly one `error` message |
| CodeEditor.Shown | frontend/src/components/CodeEditor.tsx:63 | a `done` always shows at least one line; with logs it shows exactly the logs |
| CodeEditor.Completions | frontend/src/components/CodeEditor.tsx:66-68 | `onComplete` is called at most once per message |
| CodeEditor.Editor.constructor | frontend/src/components/CodeEditor.tsx:14-20 | the first render: the code is the initial code, the panel is empty, nothing runs, and there is no worker |
| CodeEditor.Editor.SetInitialCode | frontend/src/components/CodeEditor.tsx:22-26 | a new initial code resets the code, the panel and `hasRun`, and leaves `isRunning` and the worker untouched |
| CodeEditor.Editor.Edit | frontend/src/components/CodeEditor.tsx:150-152 | typing changes the code and nothing else |
| CodeEditor.Editor.ToggleExpanded | frontend/src/components/CodeEditor.tsx:90 | the floating button flips `isExpanded` and nothing else |
| CodeEditor.Editor.EnsureWorker | frontend/src/components/CodeEditor.tsx:35-44 | an existing worker is reused; a new one is created only when there is none |
| CodeEditor.Editor.RunCode | frontend/src/components/CodeEditor.tsx:46-78 | a run sets `isRunning`, empties the panel, obtains the worker lazily, and posts exactly the current code to it |
| CodeEditor.Editor.PressRun | frontend/src/components/CodeEditor.tsx:140-142 | while a run is in progress the disabled button posts nothing and changes nothing, the worker included; otherwise it starts a run: the panel is cleared and exactly one request carrying the code is appended, to the reused worker or to a newly spawned one; the code, the lesson's code, the expansion and the terminated workers are kept in both cases |
| CodeEditor.Editor.OnWorkerMessage | frontend/src/components/CodeEditor.tsx:52-70 | an answer updates the view as `Receive` says; `onComplete` is called for `done` only, and only when given |
| CodeEditor.Editor.OnWorkerError | frontend/src/components/CodeEditor.tsx:72-76 | a worker failure appends `에러: ` plus its message, ends the run and sets `hasRun` |
| CodeEditor.Editor.ResetCode | frontend/src/components/CodeEditor.tsx:81-84 | reset restores the lesson's code and empties the panel, and nothing else |
| CodeEditor.Editor.Unmount | frontend/src/components/CodeEditor.tsx:28-33 | unmounting terminates the current worker, if any, and drops the reference; the panel, the code, the lesson's code, the expansion and the requests are kept |
| CodeEditor.StreamedLines | frontend/src/components/CodeEditor.tsx:54-56 | `log` messages append their lines in order, change nothing else, and call no `onComplete` |
| CodeEditor.RunEndsInPanel | frontend/src/components/CodeEditor.tsx:52-70 | a run's messages leave the transcript (or the placeholder) in the panel, or the transcript and the error line, and the run is over; when the thrown value has no text, the panel holds the transcript and the run stays in progress; `onComplete` runs exactly when the snippet returned |
| CodeEditor.DoneAgreesWithStream | frontend/src/components/CodeEditor.tsx:55-63 | the streamed lines already equal the `done` transcript, so `done` replaces the panel by itself unless nothing was logged |
| OrderedSet.Add | frontend/src/App.tsx:27-28 | `set.add(x)`: the elements are the old ones plus `x`, with no duplicates; the old order is kept; a present `x` changes nothing |
| OrderedSet.FromSeq | frontend/src/components/Sidebar.tsx:12 | `new Set(xs)` is duplicate-free and has exactly the elements of `xs` |
| OrderedSet.FromSeqFirstAppearance | frontend/src/components/Sidebar.tsx:12 | `new Set(xs)` lists its elements in order of first appearance in `xs` |
| OrderedSet.AddIdempotent | frontend/src/App.tsx:28 | adding an element twice is adding it once |
| OrderedSet.IncludedNoLonger | frontend/src/components/ProgressPage.tsx:13 | a duplicate-free sequence contained in another is no longer than it |
| App.Find | frontend/src/App.tsx:15 | `find` returns nothing exactly when no lesson has the id; otherwise it returns the first lesson with that id |
| App.FindDistinct | frontend/src/App.tsx:15 | among lessons with distinct ids, the lesson found for an id is the one with that id |
| App.CatalogueLookup | frontend/src/App.tsx:15 | in the catalogue, exactly the ids 1 to 10 find a lesson, and id `k` finds the `k`-th lesson |
| App.Application.constructor | frontend/src/App.tsx:11-13 | the initial state is lesson 1, the lesson page and an empty completed set, with nothing stored yet |
| App.Application.EditorCode | frontend/src/App.tsx:56-57 | the editor starts from the example of the lesson whose id is current |
| App.Application.MarkLessonComplete | frontend/src/App.tsx:26-31 | the new set is the old one plus `id`, a copy that keeps the old order; a present id changes nothing; storage receives the new set as a duplicate-free array |
| App.Application.OnRunComplete | frontend/src/App.tsx:56-59 | a completed run marks the current lesson |
| App.Application.SelectLesson | frontend/src/App.tsx:43 | selecting a lesson changes the current id and nothing else |
| App.Application.ChangePage | frontend/src/App.tsx:35 | the header's switch changes the page and nothing else |
| App.Application.NavigateToLesson | frontend/src/App.tsx:71 | going back to the lesson page changes nothing else |
| App.Application.Perform | frontend/src/App.tsx:67-72 | the progress page's `onLessonSelect` changes only the current id, and its `onNavigateToLesson` only the page |
| App.Application.OnProgressRowClick | frontend/src/components/ProgressPage.tsx:144-147 | running a row's click requests in order leaves the row's lesson current and the lesson page shown; the editor is shown exactly when that lesson exists, and among lessons with distinct ids the current lesson is the clicked one |
| App.StartShowsFirstLesson | frontend/src/App.tsx:11-57 | at start the lesson page shows lesson 1 and the editor holds its example |
| Lessons.CatalogueShape | frontend/src/data/lessons.ts:11-372 | ten lessons with ids 1 to 10 in array order, in four contiguous category blocks (기초 1-3, 중급 4-6, 고급 7-9, 실전 10) |
| Lessons.CatalogueComplete | frontend/src/data/lessons.ts:11-372 | every lesson has non-empty content and a non-empty example |
| Lessons.CatalogueIdsDistinct | frontend/src/data/lessons.ts:11-372 | no two lessons share an id |
| Sidebar.Categories | frontend/src/components/Sidebar.tsx:12 | the category list is duplicate-free and holds exactly the lessons' categories |
| Sidebar.CategoriesInFirstAppearanceOrder | frontend/src/components/Sidebar.tsx:12 | an earlier category's first lesson comes before any lesson of a later category |
| Sidebar.InCategory | frontend/src/components/Sidebar.tsx:35-36 | a group holds only lessons of its category, and holds all of them |
| Sidebar.InCategoryAppend | frontend/src/components/Sidebar.tsx:35-36 | a group keeps the lessons' order: filtering distributes over concatenation |
| Sidebar.LessonInExactlyOneGroup | frontend/src/components/Sidebar.tsx:29-37 | every lesson is in the group of its own category and in no other group |
| Sidebar.GroupSizesPartition | frontend/src/components/Sidebar.tsx:29-37 | over duplicate-free categories that cover the lessons, the group sizes add up to the number of lessons |
| Sidebar.GroupsCoverLessons | frontend/src/components/Sidebar.tsx:29-37 | the sidebar's groups hold every lesson exactly once in total |
| Sidebar.Nav | frontend/src/components/Sidebar.tsx:29-72 | one group per category, in the categories' order; each group has one button per lesson of its category, in the lessons' order, with that lesson's id |
| Sidebar.NavLessonInExactlyOneGroup | frontend/src/components/Sidebar.tsx:29-72 | with distinct ids, each lesson's button appears in the group of its category, and no two groups hold a button with its id |
| Sidebar.NavItemCategory | frontend/src/components/Sidebar.tsx:29-72 | with distinct ids, a button with a lesson's id sits in the group of that lesson's category |
| Sidebar.NavItem | frontend/src/components/Sidebar.tsx:38-64 | each button belongs to a lesson of its group; it is highlighted exactly when that lesson is current and checked exactly when its id is completed; clicking it selects that id |
| ProgressPage.RemainingNotNegative | frontend/src/components/ProgressPage.tsx:12-83 | when the set holds only ids of lessons, the remaining count is not negative |
| ProgressPage.RemainingCanBeNegative | frontend/src/components/ProgressPage.tsx:83 | with distinct ids, once every lesson is completed, one more id that names no lesson makes the remaining count negative |
| ProgressPage.CompletedIn | frontend/src/components/ProgressPage.tsx:20 | the completed lessons are exactly the lessons whose id is in the set |
| ProgressPage.GetCategoryProgress | frontend/src/components/ProgressPage.tsx:18-25 | a category's completed count is at most its total, which is at most the number of lessons |
| ProgressPage.TotalsCoverLessons | frontend/src/components/ProgressPage.tsx:16-19 | the category totals sum to the number of lessons |
| ProgressPage.CompletedTallyPartition | frontend/src/components/ProgressPage.tsx:16-20 | the categories' completed counts sum to the number of completed lessons |
| ProgressPage.CompletedInCount | frontend/src/components/ProgressPage.tsx:13-20 | with distinct lesson ids and known completed ids, the completed lessons number `completedLessons.size` |
| ProgressPage.CategoryCountsAgree | frontend/src/components/ProgressPage.tsx:13-20 | then the categories' completed counts also sum to `completedLessons.size` |
| ProgressPage.MarkedRowsAreCompleted | frontend/src/components/ProgressPage.tsx:139-140 | the rows marked completed are as many as the completed lessons |
| ProgressPage.MarksAgreeWithCount | frontend/src/components/ProgressPage.tsx:13-140 | with distinct ids and known completed ids, the marked rows number `completedLessons.size` |
| SpaFallback.Fallback | backend/src/main.ts:31-46 | a request goes on to the next handler if and only if it is for the API, for an asset, or uses another method than GET; every other request gets `index.html` |
| SpaFallback.ApiGoesOn | backend/src/main.ts:33-35 | a path starting with `/api` goes on, whatever the method |
| SpaFallback.AssetGoesOn | backend/src/main.ts:37-39 | a path containing a dot goes on, whatever the method |
| SpaFallback.PageRouteServed | backend/src/main.ts:41-45 | a GET for a path without `/api` at its start and without a dot gets `index.html` |
| SpaFallback.MissingFieldsServed | backend/src/main.ts:33-45 | a missing or empty path, with a missing, empty or GET method, gets `index.html` |
| SpaFallback.ExactTests | backend/src/main.ts:33-41 | the tests are exact: `get` and `HEAD` go on, `/apidocs` goes on, and `/API` gets `index.html` |

## Left out

- Running a snippet: building the `AsyncFunction`, parsing, strict mode and awaiting the promise belong to the JavaScript engine. The engine is the `Engine` parameter, which gives a program's console calls and how it settles.
- `JSON.stringify` and `String` are runtime library code. They are the `Host` parameter, and each gives a text or throws. The model covers the choice between them, the `[unserializable]` fallback, and what a throwing `String` does to the console call or to the `catch`. Which values make them throw is up to the host.
- SandboxWorker.ThrownMessage: `error instanceof Error` and reading `error.message` are taken not to throw. A `message` getter that throws would also leave the run without a terminal message.
- SandboxWorker.RelayCalls: what the snippet does after a console call throws back into it (catching the exception or not) is part of the `Engine` trace. The model does not tie that trace to the host's conversions.
- Worker transport: `new Worker`, `postMessage`, structured cloning and asynchronous delivery are not modelled. A run's messages form one ordered sequence. Log calls made from callbacks the snippet did not await can still post after `done`; the model covers only calls made before the runner settles.
- `worker.terminate` is recorded as the list of terminated workers. What terminating does to a worker is not modelled.
- The progress percentages use `Math.round` of a floating-point division, which is NaN for an empty category list, so they are left out; only the counts are modelled.
- Reading `localStorage` and `JSON.parse` at start-up is I/O and is not modelled. The write is the `stored` field, holding the array that is written.
- Rendering: the JSX markup, class names and icons, and the header, footer and lesson-content components, are presentational.
- React scheduling: state updates are applied at once, in order. Batching and stale closures, such as the `onmessage` handler capturing an older `onComplete`, are not modelled.
- Backend bootstrap: creating the Nest application, validation, Swagger, reading the port and `listen` are configuration and I/O; only the fallback middleware is modelled. Sending the file is the `SendIndex` answer.
- SanitizerExamples.ArrayAnnotationRemoved: proved only when the element type's first letter is none of `s`, `n`, `b`, `a`, `v`. For other names, such as `string[]`, an earlier primitive rule may fire first, as NumberArrayKeepsBrackets shows.
- SanitizerExamples.OptionalMarkerFires, SanitizerExamples.InterfaceRemoved and SanitizerExamples.TypeAliasRemoved: stated for one rule of the chain and one match, not for the whole of SanitizeCode, because the later rules depend on the text around the match. Text with several matches of the same rule is covered by the general replacement lemmas, not by these.
- The catalogue's examples: only two single lines of them are run through the whole chain (CountAnnotationRemoved, PrivateFieldExample). What the chain makes of each complete example is not stated; for instance the `let numbers: number[]` line of the second lesson takes the shape NumberArrayExample shows.
- ProgressPage.GetCategoryProgress: its contract gives only the bounds. The sums over all categories are proved by TotalsCoverLessons and CompletedTallyPartition.
- Lessons: the text fields of the catalogue (titles, descriptions, content lists) are data and are copied as they are; only the examples are used in proofs.
