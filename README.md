# clone-x cloner core and agent loop, modelled in Dafny

This project models the parts of clone-x that can be stated and checked without a browser or a language model:

- **The asset persister and reference rewriter** (`src/cloner/core.ts`):
  - `saveResources` writes every captured response to `<outputDir>/assets/<basename>` and returns the manifest from captured URL to `./assets/<basename>`.
  - `rewritePaths` removes `<base>` and redirects `href`, `src`, `srcset` and `<use>` references through the manifest.
  - `rewriteCssInOutput` walks `<outputDir>/assets`. It rewrites every `.css` file with three passes: the literal replacement of manifest URLs, then the `url(...)` pass, then the `@import` pass.
- **The post-capture part of the `cloneWebsite` tool** (`src/agent/tools/cloneWebsite.ts`, lines 38-52). It creates the output directory, saves the resources, writes the rewritten `index.html` and rewrites the stylesheets. When any of those steps throws, it writes the raw captured markup instead.
- **The agent loop** (`src/agent/driver.ts`). A `CoTDriver` holds the conversation history and four progress flags. `run` gives the model at most fifty turns. Each turn strips a markdown fence from the reply and parses the JSON, retrying once with every backslash doubled. It then dispatches on the step (START, THINK, TOOL, OUTPUT), calls tools, and accepts OUTPUT only after an OBSERVE.
- **The `validateClone` tool** (`src/agent/tools/validateClone.ts`). It checks that `index.html` exists and counts the local references of its links, scripts and images that are missing from disk.

## Modelling choices

Each collaborator the code calls but does not define is a parameter:

- **URL parsing.** `new URL(ref, base)` is a `Resolver`. It returns the parsed URL's `href` and `pathname`, or `None` where the constructor throws. An absent base stands for `new URL(ref, undefined)`.
- **cheerio.** Parsing and serialising are an `HtmlCodec`. A document is its element records in document order: a tag plus an attribute map.
- **UTF-8.** The decoding done by `readFileSync(_, "utf-8")` and the encoding done by `writeFileSync` are a `Utf8` pair.
- **The language model.** It is a function from the iteration number and the current history to the reply text.
- **`JSON.parse`.** It is a partial function from text to a reply.
- **The four tools.** They are one partial function, whose `None` is a thrown error.

Paths are lists of segments below the root, and `path.join` is POSIX normalisation. The disk is a map from file paths to bytes plus a set of directories, held by a `FileSystem` object whose methods change it in place.

The stateful code keeps its imperative form:

- **Methods that match the source's loops.**
  - `SaveResources` is the loop over the resource map.
  - `RemoveBase`, `RewriteAssetElements`, `RewriteSrcsets` and `RewriteUses` are the `.each` passes over the document.
  - `ReplaceManifestUrls` is the loop over `mapping.entries()`.
  - `RewriteEach`/`Walk` is the directory walk.
  - `CollectMissing` is the `.each` that fills `missing`.
  - `CoTDriver.Run` is the `while` loop over the driver's fields.
- **Specification functions.** Each method is proved equal to a function: `Saved`, `Rewritten`, `RewriteCssText`/`CssRewritten`, `MissingRefs` and `Loop`/`RunFrom`.
- **Lemmas.** What the source promises is proved as lemmas about those functions.

The stylesheet pass writes the page-relative path `./assets/<basename>` into files that themselves live in `assets/`. The model states exactly what is written. It does not state how a browser then resolves that path relative to the stylesheet.

Two behaviours of the tool follow from where its `try` is:

- **Failed capture.** `cloneWebsite` has no `try` around the browser capture (`src/agent/tools/cloneWebsite.ts:8-37`), so a failed launch or navigation throws out of the tool instead of coming back as an observation. The driver's outer `catch` then appends the reply text as an assistant message (`src/agent/driver.ts:188-195`). The model has a capture of `None` make the tool throw, and `Driver.ToolFailureKept` states what the loop then does.
- **Fallback write.** The fallback `writeFileSync` (`src/agent/tools/cloneWebsite.ts:50`) sits in the `catch` block with no `try` of its own, so when it throws the tool throws, and `index.html` holds whatever the `try` block had written there, if anything. `Clone.Fallback` models that case.

## Model

| member | source | states |
|---|---|---|
| Manifests.Get | src/cloner/core.ts:29 | `mapping.get(url)` finds a value exactly when an entry with that URL exists, and the value is that entry's local path |
| Manifests.GetEntry | src/cloner/core.ts:29 | in a manifest without repeated URLs, looking up an entry's URL returns that entry's own path |
| Files.AncestorsArePrefixes | src/cloner/core.ts:12 | `mkdirSync(p, { recursive: true })` creates exactly the non-empty prefixes of `p` |
| Files.FileSystem.MakeDirs | src/cloner/core.ts:12 | succeeds exactly when no prefix of the path is a file; then adds exactly those prefixes as directories and changes nothing else |
| Files.FileSystem.WriteFile | src/cloner/core.ts:13 | succeeds exactly when the parent is a directory and the target is not; then replaces exactly that file's bytes |
| Files.FileSystem.Overwrite | src/cloner/core.ts:117 | writing back a file that was just read replaces exactly its bytes |
| Paths.Resolve | src/cloner/core.ts:11 | `path.join` onto a normalised path gives a normalised path |
| Paths.BasenameOfChild | src/cloner/core.ts:9 | the basename of `dir + "/" + name` is `name` when `name` holds no "/" |
| Paths.JoinName | src/agent/tools/validateClone.ts:6 | joining a plain file name appends exactly that segment |
| Text.TrimStart | src/cloner/core.ts:91 | the result is a suffix of the input, everything cut off is white space, and the result does not start with white space |
| Text.TrimEnd | src/cloner/core.ts:91 | the result is a prefix of the input, everything cut off is white space, and the result does not end with white space |
| Text.SpaceRun | src/cloner/core.ts:106 | `\s+` takes the whole run of white space at the start: every character before the end of the run is white space, and the one at its end, if any, is not |
| Text.NatToString | src/agent/tools/validateClone.ts:23 | a number in a template literal prints as a non-empty string of decimal digits, with no leading zero unless it is 0, whose decimal value is the number |
| Text.NatToStringInjective | src/agent/tools/validateClone.ts:23 | different counts print as different strings |
| Text.SplitJoin | src/cloner/core.ts:85 | `s.split(sep).join(sep)` gives `s` back |
| Text.JoinSplitChar | src/cloner/core.ts:85 | splitting on one character undoes a join of pieces that do not hold it |
| Text.SplitPiecesFree | src/cloner/core.ts:85 | no piece of `s.split(sep)` contains `sep` |
| Text.SplitWithoutSeparator | src/cloner/core.ts:85 | a string without the separator splits into itself alone |
| Text.ReplaceAllAbsent | src/cloner/core.ts:84-86 | the `split(a).join(b)` idiom leaves a string without `a` unchanged |
| Text.ReplaceAllPieces | src/cloner/core.ts:85 | `split(a).join(b)` cuts the text into pieces that hold no `a` and that glued with `a` give the text back, then glues them with `b` |
| Text.SplitCharCount | src/cloner/core.ts:48 | splitting on a character gives one piece more than the number of times the character occurs |
| Text.JoinCharCount | src/cloner/core.ts:53 | joining pieces without `c` adds exactly the occurrences of `c` in the separators |
| Text.JoinSplitCount | src/cloner/core.ts:48-53 | splitting on `c` recovers the number of pieces joined with a separator holding `c` once |
| Persist.FileName | src/cloner/core.ts:9 | the file name is never empty: the basename of the pathname when that is not empty, `index.html` otherwise |
| Persist.Saved | src/cloner/core.ts:5-17 | the loop resource by resource in capture order: `new URL` on the resource URL (a throw ends the call), the file name, `mkdirSync` of `assets`, `writeFileSync`, then the manifest entry; its properties are the lemmas below |
| Persist.SaveResources | src/cloner/core.ts:5-17 | the loop leaves the disk and returns the manifest (or throws) exactly as `Saved` says, resource by resource in capture order |
| Persist.ManifestMirrorsResources | src/cloner/core.ts:7-14 | a returned manifest has one entry per captured resource, in capture order, keyed by the resource's own URL (not re-normalised), valued `./assets/` plus the file name of the resolved pathname |
| Persist.ManifestLookup | src/cloner/core.ts:7-16 | the returned manifest has no repeated URL, and `get` of a resource's URL gives its `./assets/` path |
| Persist.SameFileNameSameLocalPath | src/cloner/core.ts:9-14 | two resources whose pathnames share a file name are recorded under the same local path |
| Persist.SavedFiles | src/cloner/core.ts:11-13 | a successful run keeps every other file and adds exactly the loop's writes, a later write replacing an earlier one |
| Persist.LastWriteWins | src/cloner/core.ts:11-13 | a path holds the bytes of the last resource in capture order that targets it; a path no resource targets is not written |
| Persist.CollisionKeepsLater | src/cloner/core.ts:9-13 | when two resources collide on one file, the file ends with the later one's bytes unless a still later resource targets it |
| Persist.SavedDirs | src/cloner/core.ts:11-12 | whatever the outcome, every directory is kept and new ones are created only on the way to `<outputDir>/assets` |
| HtmlRewrite.MapUrl | src/cloner/core.ts:25-33 | `mapUrl` gives nothing for an absent or empty reference or one `new URL` rejects; what it gives is the manifest path of the reference's absolute URL |
| HtmlRewrite.MapUrlFindsEntry | src/cloner/core.ts:25-33 | a reference whose absolute URL is recorded maps to that entry's path |
| HtmlRewrite.RewriteAssetRefs | src/cloner/core.ts:36-42 | the first `.each`: on an element the selector matches, `href` then `src` are replaced by their mapped path when that is truthy; `AssetRefsRewritten` states what this keeps and changes |
| HtmlRewrite.AssetRefsRewritten | src/cloner/core.ts:36-42 | on a selected element, `href` and `src` change only to the manifest path of their own absolute URL, and always do when that path is non-empty; every other attribute and any unselected element stay unchanged |
| HtmlRewrite.SplitWsPieces | src/cloner/core.ts:50 | the pieces of `split(/\s+/)` hold no white space and only characters of the input |
| HtmlRewrite.RewriteCandidate | src/cloner/core.ts:49-52 | one trimmed candidate: its first word mapped (or kept when the mapping is falsy) and its second word, the empty ones dropped, joined by a space; `CandidateWithDescriptor` states the common case |
| HtmlRewrite.CandidateWithDescriptor | src/cloner/core.ts:49-53 | a candidate `url descriptor ...` becomes the mapped path (or the URL itself) followed by one space and its first descriptor |
| HtmlRewrite.RewrittenCandidates | src/cloner/core.ts:48-53 | one rewritten candidate per comma-separated part |
| HtmlRewrite.SrcsetKeepsCandidateCount | src/cloner/core.ts:45-55 | the rewritten `srcset` has as many comma-separated candidates as the original |
| HtmlRewrite.RewriteUse | src/cloner/core.ts:58-65 | the third `.each` on one element; `UseRewritten` states what it keeps and changes |
| HtmlRewrite.UseRewritten | src/cloner/core.ts:58-65 | a `<use>` stays as it was, or both `href` and `xlink:href` become the one manifest path of its reference (`href` when non-empty, else `xlink:href`); nothing else changes |
| HtmlRewrite.WithoutBase | src/cloner/core.ts:23 | the document with every `<base>` element dropped, the others in order; `WithoutBaseKeepsOthers` states it |
| HtmlRewrite.WithoutBaseKeepsOthers | src/cloner/core.ts:23 | removing `<base>` keeps exactly the elements that are not `<base>` |
| HtmlRewrite.Rewritten | src/cloner/core.ts:19-67 | the document `$.html()` serialises: `<base>` removed, then the three passes in source order |
| HtmlRewrite.RewrittenHasNoBase | src/cloner/core.ts:19-68 | the rewritten document has no `<base>`, and it is the other elements in order with their tags kept |
| HtmlRewrite.ElementRewritten | src/cloner/core.ts:36-65 | element `i` of the rewritten document against element `i` once `<base>` is gone: same tag; `src`, and `href` outside `<use>`, are what the first pass made them; a non-empty `img` `srcset` is its rewritten value, any other `srcset` is kept; a `<use>` is exactly its third-pass rewrite; every other attribute is unchanged |
| HtmlRewrite.ThreePassesOutcome | src/cloner/core.ts:36-65 | the same, attribute by attribute, for one element taken through the three passes |
| HtmlRewrite.RemoveBase | src/cloner/core.ts:23 | the loop keeps the same elements as `WithoutBase` |
| HtmlRewrite.RewriteAssetElements | src/cloner/core.ts:36-42 | the first `.each` rewrites every element as `RewriteAssetRefs` does |
| HtmlRewrite.RewriteSrcsets | src/cloner/core.ts:45-55 | the second `.each` gives every non-empty `img` `srcset` its rewritten value |
| HtmlRewrite.RewriteUses | src/cloner/core.ts:58-65 | the third `.each` rewrites every element as `RewriteUse` does |
| HtmlRewrite.RewritePaths | src/cloner/core.ts:19-68 | the serialised output is the parsed page with `<base>` removed and the three passes applied in order |
| CssRewrite.LeadingQuote | src/cloner/core.ts:98 | the quote put back around a hit: the trimmed token's first character when that is a quote, none otherwise |
| CssRewrite.RewriteCssUrl | src/cloner/core.ts:90-103 | the callback of both passes; the lemmas below state when it changes a token and to what |
| CssRewrite.CssUrlChangesOnlyOnHit | src/cloner/core.ts:90-103 | a token changes only when its target is non-empty, not `data:`, resolves, and is recorded with a non-empty path; it then becomes that path in its own opening quote |
| CssRewrite.CssUrlRewritten | src/cloner/core.ts:93-100 | a token whose absolute URL the manifest records with a non-empty path becomes that path in its opening quote |
| CssRewrite.CssUrlHit | src/cloner/core.ts:93-100 | in a manifest without repeated URLs, a hit on entry `i` becomes entry `i`'s path |
| CssRewrite.DataUriKept | src/cloner/core.ts:92 | a `data:` token is returned unchanged, whatever the manifest and the base |
| CssRewrite.RelativeTokenKeptWithoutBase | src/cloner/core.ts:93-102 | without a base, a token `new URL` cannot parse alone is returned unchanged |
| CssRewrite.IndexOf | src/cloner/core.ts:105 | `[^)]+\)` stops at the first `)`: none occurs before the index, and the character at it is `)` unless the text has none |
| CssRewrite.UrlCallAt | src/cloner/core.ts:105 | a `url(...)` match starts with `url(`, ends with `)` and has a non-empty token |
| CssRewrite.UrlCallAtExactly | src/cloner/core.ts:105 | a match starts at the text exactly when it opens with `url(`, the next character is not `)`, and a `)` follows; the captured token holds no `)` |
| CssRewrite.UrlCallAtIs | src/cloner/core.ts:105 | conversely, `url(`, a non-empty token without `)` and a `)` are matched, with exactly that length |
| CssRewrite.ReplaceUrlCalls | src/cloner/core.ts:105 | the global `url(...)` replace with callback `f`, scanning left to right and resuming after each match |
| CssRewrite.UrlGaps | src/cloner/core.ts:105 | the text between the matches: one gap more than there are matches |
| CssRewrite.UrlPassWoven | src/cloner/core.ts:105 | the pass keeps every gap between matches and replaces the k-th match by `url(` + `f` of the k-th token + `)` |
| CssRewrite.UrlTextWoven | src/cloner/core.ts:105 | the gaps and the matched calls, glued in turn, give the text back |
| CssRewrite.UrlCallsFixed | src/cloner/core.ts:105 | a callback that returns every captured token unchanged leaves the text unchanged |
| CssRewrite.UrlCallParts | src/cloner/core.ts:105 | a match is `url(`, its token and `)`, followed by the rest of the text |
| CssRewrite.DataOnlyUrlPass | src/cloner/core.ts:92-105 | a stylesheet whose `url(...)` tokens are all `data:` URIs comes through the `url(...)` pass unchanged |
| CssRewrite.FindUrlCall | src/cloner/core.ts:107 | the match `m.match` finds is a whole `url(...)` call at the leftmost position where one starts, and there is none only when no position starts one |
| CssRewrite.NoParenNoUrlCall | src/cloner/core.ts:107 | text without `(` holds no `url(...)` match |
| CssRewrite.QuoteIndex | src/cloner/core.ts:106 | the first quote of either kind: none occurs before the index, and the character at it is a quote unless the text has none |
| CssRewrite.ImportAtShape | src/cloner/core.ts:106 | every `@import` match is `@import`, the whole run of white space after it (at least one character), then a whole `url(...)` call or a quote, a non-empty run without quotes and a quote |
| CssRewrite.ImportShapeMatched | src/cloner/core.ts:106 | every text that starts in that shape is matched, with exactly that length |
| CssRewrite.ImportReplacement | src/cloner/core.ts:106-116 | the callback of the `@import` pass: the first `url(...)` call in the match, else the quoted form, else the match itself |
| CssRewrite.ReplaceImports | src/cloner/core.ts:106-116 | the global `@import` replace, scanning left to right and resuming after each match |
| CssRewrite.ImportGaps | src/cloner/core.ts:106 | the text between the `@import` matches: one gap more than there are matches |
| CssRewrite.ImportTextWoven | src/cloner/core.ts:106 | the gaps and the matches, glued in turn, give the text back |
| CssRewrite.ImportPassWoven | src/cloner/core.ts:106-116 | the pass keeps every gap between matches and replaces each match by the callback's text for it |
| CssRewrite.NoImportsKept | src/cloner/core.ts:106-116 | text without `@import` comes through the `@import` pass unchanged |
| CssRewrite.QuotedImportMatched | src/cloner/core.ts:106-109 | both `@import` patterns accept a quoted target closed by its own quote, and capture that quote and target |
| CssRewrite.QuotedImportRewritten | src/cloner/core.ts:109-114 | a quoted `@import` keeps its quote character, its target goes through the callback, and the white space becomes one space |
| CssRewrite.UrlImportRewritten | src/cloner/core.ts:106-108 | `@import url(t)` is matched whole and becomes `@import url(f(t))` |
| CssRewrite.UrlCallOf | src/cloner/core.ts:105 | `url(t)` is matched whole when `t` is non-empty and holds no `)` |
| CssRewrite.UrlCallFoundAfter | src/cloner/core.ts:107 | after text without `(`, the first match is the call that follows |
| CssRewrite.PlainPrefixKept | src/cloner/core.ts:105 | text without `(` before a call comes through the `url(...)` pass unchanged |
| CssRewrite.UrlCallBefore | src/cloner/core.ts:105 | a call whose token is non-empty and holds no `)` is matched up to its own `)`, whatever follows |
| CssRewrite.NoParenKept | src/cloner/core.ts:105 | text without `(` comes through the `url(...)` pass unchanged |
| CssRewrite.CallThenPlainText | src/cloner/core.ts:105 | such a call followed by text without `(` becomes the rewritten call followed by that same text |
| CssRewrite.WholeUrlCall | src/cloner/core.ts:105 | a text that is one call becomes that call with its token rewritten |
| CssRewrite.LiteralPass | src/cloner/core.ts:83-87 | the loop over `mapping.entries()`: each URL found in the text is replaced everywhere by its local path |
| CssRewrite.LiteralPassAbsent | src/cloner/core.ts:83-87 | a stylesheet in which no manifest URL occurs comes through the literal pass unchanged |
| CssRewrite.LiteralStep | src/cloner/core.ts:84-86 | one step cuts the text at every occurrence of the URL and glues the pieces back with the local path |
| CssRewrite.ReplaceManifestUrls | src/cloner/core.ts:83-87 | the loop over the manifest's entries applies them one by one in insertion order |
| CssRewrite.RewriteCssText | src/cloner/core.ts:81-116 | the text written back: the literal pass, then the `url(...)` pass, then the `@import` pass |
| CssRewrite.UntouchedStylesheet | src/cloner/core.ts:81-117 | a stylesheet with no manifest URL, no `@import` and only `data:` tokens is written back exactly as it was |
| CssRewrite.CssRewriteFrame | src/cloner/core.ts:75-120 | the walk changes only the `.css` files below `assets`, each to its three-pass rewrite; no file or directory is added or removed |
| CssRewrite.RewrittenSoFarFrame | src/cloner/core.ts:76-119 | rewriting some stylesheets changes exactly those files' bytes |
| CssRewrite.RewrittenOneMore | src/cloner/core.ts:80-118 | rewriting one more stylesheet is one `writeFileSync` of its rewritten original bytes |
| CssRewrite.RewriteStylesheet | src/cloner/core.ts:80-118 | one stylesheet is read, passed through the three passes and written back; nothing else changes |
| CssRewrite.Walk | src/cloner/core.ts:75-120 | `walk(dir)` leaves the disk as `CssRewritten` says |
| CssRewrite.RewriteEach | src/cloner/core.ts:76-119 | rewriting a set of stylesheets one at a time rewrites each once from its original bytes, in any order |
| CssRewrite.RewriteCssInOutput | src/cloner/core.ts:72-122 | with no `assets` nothing happens; with an `assets` directory its stylesheets are rewritten; with an `assets` file the call throws before writing |
| Driver.LookupName | src/agent/driver.ts:6-11 | `TOOL_MAP` holds exactly the four tool names, each for its own tool |
| Driver.MarkSetsOne | src/agent/driver.ts:151-154 | marking a tool sets its flag and leaves the other three as they were |
| Driver.NextToolFirstPending | src/agent/driver.ts:129-135 | the fallback is the first of checkLegal, analyzeWebsite, cloneWebsite, validateClone whose flag is unset, and none when all are set |
| Driver.NextTool | src/agent/driver.ts:131-134 | the tool a TOOL step without `tool_name` falls back to; `NextToolFirstPending` states which |
| Driver.ClosingFenceFrom | src/agent/driver.ts:92 | the closing fence is the leftmost "```" from the given index on that only white space follows, and there is none only when no such position exists |
| Driver.StripFence | src/agent/driver.ts:89-93 | the reply text with a leading "```json" and its white space, and a closing "```" and its white space, removed, then trimmed |
| Driver.Parse | src/agent/driver.ts:97-104 | `JSON.parse`, and on failure `JSON.parse` of the text with every backslash doubled |
| Driver.ChooseTool | src/agent/driver.ts:128-135 | the `tool_name` when truthy, else the name of the next pending tool, else none |
| Driver.UnfencedReplyTrimmed | src/agent/driver.ts:90-93 | a reply without a backquote is only trimmed |
| Driver.FencedReplyStripped | src/agent/driver.ts:89-93 | a reply fenced as "```json" (any letter case) ... "```" comes out as its trimmed body |
| Driver.RepairDoublesBackslashes | src/agent/driver.ts:102 | the repair doubles the number of backslashes |
| Driver.RepairKeepsPlainText | src/agent/driver.ts:102 | text without a backslash comes through the repair unchanged |
| Driver.EmptyReplySkipped | src/agent/driver.ts:89-94 | a reply that is empty after stripping uses up the iteration and changes nothing |
| Driver.UnparsedReplyKept | src/agent/driver.ts:96-104 | a reply that parses neither as is nor repaired is appended as assistant text; no flag changes |
| Driver.Turn | src/agent/driver.ts:83-195 | one iteration on the stripped reply: skip an empty one, keep an unparsed one as assistant text, else echo and dispatch |
| Driver.Dispatch | src/agent/driver.ts:105-186 | the branch on the step: START, THINK with its nudge from iteration 3, TOOL, OUTPUT with its OBSERVE test; a `null` reply throws into the `catch` |
| Driver.CallTool | src/agent/driver.ts:127-165 | the TOOL branch: choose the tool, report an unknown one, else run it, set its flag and append its OBSERVE; a throw goes to the `catch` |
| Driver.Loop | src/agent/driver.ts:70-196 | the `while` loop from iteration `n`: at most fifty iterations, stopping at the first answer |
| Driver.RunFrom | src/agent/driver.ts:63-200 | `run`: append the goal, loop, and return the answer or the termination message |
| Driver.TurnDispatches | src/agent/driver.ts:105-108 | a parsed reply is echoed into the history before the dispatch on its step |
| Driver.ThinkNudgesFromThirdIteration | src/agent/driver.ts:110-125 | START appends only the echo; THINK appends the "Proceed to TOOL step" nudge exactly from iteration 3 on |
| Driver.FallbackToPendingTool | src/agent/driver.ts:128-135 | without a truthy `tool_name`, the tool is the first one not yet done; with all done it stays undefined |
| Driver.UnknownToolObserved | src/agent/driver.ts:136-146 | a missing or unknown tool appends exactly one OBSERVE naming it and changes no flag |
| Driver.ToolCallObserved | src/agent/driver.ts:148-164 | a tool call that returns sets exactly that tool's flag and appends exactly its OBSERVE |
| Driver.ToolFailureKept | src/agent/driver.ts:149-195 | a tool that throws leaves the reply text in the history and sets no flag |
| Driver.OutputNeedsObserve | src/agent/driver.ts:167-186 | OUTPUT returns its content exactly when an OBSERVE is already in the history, and otherwise appends the corrective user message |
| Driver.CallToolAppendsOnly | src/agent/driver.ts:127-165 | the TOOL branch only appends, and sets at most one flag, together with an OBSERVE |
| Driver.DispatchAppendsOnly | src/agent/driver.ts:110-186 | every branch of the dispatch only appends to the history and only sets flags |
| Driver.TurnAppendsOnly | src/agent/driver.ts:83-195 | an iteration only appends to the history, never resets a flag, sets a flag only with an OBSERVE, and answers only after an OBSERVE |
| Driver.LoopAppendsOnly | src/agent/driver.ts:70-196 | the loop keeps the history as a prefix and never resets a flag; an answer comes with an OBSERVE in the history |
| Driver.LoopReadsFiftyReplies | src/agent/driver.ts:67-74 | the run reads at most fifty replies: models that agree on iterations 1 to 50 give the same run |
| Driver.NoOutputNoAnswer | src/agent/driver.ts:70-196 | without an OUTPUT reply in the remaining iterations the loop ends without an answer |
| Driver.RunAppendsGoal | src/agent/driver.ts:63-64 | `run` appends the goal as a user message after what was there, keeps every flag set, and returns anything but the termination message only after an OBSERVE |
| Driver.RunWithoutOutputTerminates | src/agent/driver.ts:198-199 | a run whose model never answers OUTPUT returns exactly "Process terminated: Maximum iterations reached" |
| Driver.CoTDriver.constructor | src/agent/driver.ts:23-61 | the history starts as the one system message and no tool is done |
| Driver.CoTDriver.Step | src/agent/driver.ts:83-195 | the loop body changes the fields and answers exactly as `Turn` on the stripped reply |
| Driver.CoTDriver.ParseReply | src/agent/driver.ts:97-104 | `JSON.parse` of the text, and on failure of the repaired text |
| Driver.CoTDriver.Respond | src/agent/driver.ts:105-186 | the echo, then the dispatch on the step, exactly as `Dispatch` |
| Driver.CoTDriver.UseTool | src/agent/driver.ts:127-165 | the TOOL branch changes the fields exactly as `CallTool` |
| Driver.CoTDriver.SelectTool | src/agent/driver.ts:128-135 | `toolToCall` is the model's `tool_name`, or the next pending tool |
| Driver.CoTDriver.MarkProgress | src/agent/driver.ts:150-154 | exactly the called tool's flag is set |
| Driver.CoTDriver.Iterate | src/agent/driver.ts:70-196 | one iteration advances the loop by one step of `Loop` |
| Driver.CoTDriver.Run | src/agent/driver.ts:63-200 | `run` leaves the fields and returns exactly as `RunFrom` |
| Validate.Found | src/agent/tools/validateClone.ts:17-18 | `existsSync` of the reference joined onto the clone path |
| Validate.MissingRefs | src/agent/tools/validateClone.ts:13-20 | the references pushed onto `missing`, in document order |
| Validate.MissingRefsExactly | src/agent/tools/validateClone.ts:13-20 | every missing reference comes from a checked element whose local reference is not on disk, and every such element contributes its reference |
| Validate.MissingRefsAppend | src/agent/tools/validateClone.ts:14-19 | the array is filled element by element, duplicates counted |
| Validate.CheckElement | src/agent/tools/validateClone.ts:15-18 | an element pushes its reference (`href`, else `src`) exactly when it is checked, local and not on disk |
| Validate.CollectMissing | src/agent/tools/validateClone.ts:13-20 | the `.each` fills `missing` exactly as `MissingRefs` |
| Validate.ValidateClone | src/agent/tools/validateClone.ts:5-26 | without `index.html` the result is the failure message; otherwise the warning with the number of missing references, or the success message when there are none; an `index.html` that is a directory makes the read throw |
| Validate.ValidatedIff | src/agent/tools/validateClone.ts:22-25 | the clone validates exactly when every checked local reference is on disk |
| Validate.OutcomesDistinct | src/agent/tools/validateClone.ts:8-25 | the three results are different strings |
| Clone.Attempt | src/agent/tools/cloneWebsite.ts:41-47 | the `try` block: save, rewrite the page, write `index.html`, rewrite the stylesheets, report the manifest size; a throw at any step ends it |
| Clone.Fallback | src/agent/tools/cloneWebsite.ts:48-51 | the `catch` block: write the raw markup as `index.html` and report the fallback status, or throw when that write fails |
| Clone.PostCapture | src/agent/tools/cloneWebsite.ts:38-52 | `mkdirSync` of the output directory, then the `try` and on a throw the `catch` |
| Clone.FinishClone | src/agent/tools/cloneWebsite.ts:38-52 | the composition leaves the disk and returns the status exactly as `PostCapture` says; a failed capture throws before anything is written |
| Clone.CloneWebsite | src/agent/tools/cloneWebsite.ts:38-52 | the composition as written, with the CSS pass run without a base |
| Clone.CloneWebsiteWithCssBase | src/agent/tools/cloneWebsite.ts:46 | the composition with the page URL passed on as the base of the CSS pass |
| Clone.StatusesDistinct | src/agent/tools/cloneWebsite.ts:47-51 | the two statuses are different strings |
| Clone.IndexPathIsChild | src/agent/tools/cloneWebsite.ts:44 | `index.html` is written directly inside the output directory |
| Clone.CssPassKeepsIndex | src/agent/tools/cloneWebsite.ts:44-46 | the CSS pass over `assets` leaves `index.html` as it was |
| Clone.AttemptOutcome | src/agent/tools/cloneWebsite.ts:41-47 | a successful `try` reports a manifest with one entry per captured resource and leaves the rewritten page in `index.html` |
| Clone.CloneOutcome | src/agent/tools/cloneWebsite.ts:38-52 | the tool returns one of its two statuses or throws; "complete" counts every captured resource and leaves the rewritten page; the fallback leaves the raw markup |
| Clone.UnwritableOutputThrows | src/agent/tools/cloneWebsite.ts:39 | when `mkdirSync(outputDir)` throws, the tool throws and nothing is written |
| Clone.OneCallSheet | src/cloner/core.ts:83-116 | a stylesheet of one `url(...)` call between runs of plain text (no `(`, no `@`), holding no manifest URL, comes out with just that call's token rewritten |
| Clone.UrlPassOnSheet | src/cloner/core.ts:105 | on such a stylesheet the `url(...)` pass rewrites just that call's token |
| Clone.RelativeCssTokenKeptAsWritten | src/agent/tools/cloneWebsite.ts:46 | as written, such a stylesheet whose token `new URL` accepts only against a base is written back unchanged, whatever the manifest holds for the token |
| Clone.RelativeCssTokenRewrittenWithBase | src/agent/tools/cloneWebsite.ts:46 | with the page URL as base, the same stylesheet has the token replaced by its manifest path in its own quote, the text around it kept |

## Left out

- The browser capture (`src/agent/tools/cloneWebsite.ts:8-37`) is not modelled: Puppeteer, the response listener, the settle delay and `page.content()`. The capture is an input, the page markup plus the captured resources. A failed launch or navigation is `None`.
- The OpenAI request (`src/agent/driver.ts:74-81`) becomes the reply function. The joining of array-shaped message content (lines 84-88) is part of that function's result.
- `JSON.parse` and `JSON.stringify` are not modelled. An echoed reply is recorded as the `Reply` it was parsed into: `Nullish`, or a `Decision` holding its step, content, tool name and input.
- Driver.ChooseTool: `tool_name` is taken to be a string or absent (`undefined`/`null`, both `None`). The source takes any JSON value (`src/agent/driver.ts:128`), and a falsy non-string such as `false` or `0` also falls back to the first pending tool. Once all four tools are done it is printed as itself, so the OBSERVE reads "There is no such tool as false" where the model has "undefined" (`src/agent/driver.ts:136-142`).
- Driver.CallTool: a non-string `tool_name` that the `in` test converts to a tool name, such as `["checkLegal"]`, runs that tool and appends its OBSERVE, but the `===` tests at `src/agent/driver.ts:151-154` set no flag. The model has no such value, so every call it makes sets the called tool's flag.
- Driver.RunFrom: `content` and `input` are taken to be strings. An OUTPUT without a string `content` makes the source return `undefined` or that value (`src/agent/driver.ts:185`); the model always returns a string.
- The logger has no effect on state and is left out.
- The `in` test on `TOOL_MAP` (`src/agent/driver.ts:136`) also accepts inherited names such as `toString`. The model dispatches on the four tool names plus "unknown".
- Async scheduling, concurrency and streaming are left out. The model runs one session sequentially.
- Errors from `statSync` and `readFileSync`, symbolic links and file permissions are left out. The disk is a map, so reading an existing file cannot fail.
- The order in which `readdirSync` lists a directory is left out. The walk rewrites a set of files, each from its own bytes, so the order cannot change the result.
- Text.ToLowerAscii: lower-cases ASCII letters only. That decides the `.css` suffix test exactly, because no other character lower-cases to `.`, `c` or `s`.
- Paths.Resolve: its contract states only that the result stays normalised. What it computes is its definition, and the lemmas about `JoinName` and `AssetPath` use that definition.
- HtmlRewrite.SrcsetKeepsCandidateCount: assumes no local path in the manifest contains a comma. A path with a comma would add candidates.
- The regular expressions are modelled as scanners over characters that match them left to right, the way a global `replace` does. The regex engine itself is left out.
- cheerio's parser and serialiser are parameters. The selectors are predicates on tag and attributes, and `rel` is compared ASCII case-insensitively.
- `src/agent/tools/schemas.ts`, `checkLegal`, `analyzeWebsite`, the API routes, the UI components and the generated clone pages are not part of this model.

## Findings

| source | as written | input that shows it | evidently intended | confidence | as-written member | corrected member |
|---|---|---|---|---|---|---|
| src/agent/tools/cloneWebsite.ts:46 | `rewriteCssInOutput(outputDir, mapping)` is called without its third parameter `baseUrl`. So `new URL(token, undefined)` throws for every relative or root-relative `url(...)` token, and the token is kept | a saved stylesheet `a{background:url(/img/b.png)}` from page `https://ex.com/`, whose manifest maps `https://ex.com/img/b.png` to `./assets/b.png`: the stylesheet is written back unchanged | the page URL is passed as `baseUrl`, so the token becomes `url(./assets/b.png)` | not executed | Clone.RelativeCssTokenKeptAsWritten | Clone.RelativeCssTokenRewrittenWithBase |
