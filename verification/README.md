# Omnibus, verified

A Dafny model of the hardest logic of Omnibus: its fake Kobo device (`mock-kobo`), its database layer (`db`), its
web client (`frontend-js`) and its MCP client (`mcp`). `dafny verify dfyconfig.toml` checks everything.

Code that works by changing things is a method or a class, proved against functions on values; the laws are lemmas
about those functions. Protocols are transition systems: every critical section is one atomic step, and the laws hold
of every interleaving.

| files | what they model |
|---|---|
| `Text`, `Utf16`, `KepubWords`, `KepubText`, `KepubPassages`, `KepubHighlight`, `KepubProofs` | splitting a chapter's koboSpans into words, finding a passage, building a highlight's text and range |
| `SpanLocation`, `KepubCovered` | the stored form of a highlight's range, and resolving it back to words |
| `KepubParsing` | the streaming parser from XML events to koboSpans |
| `KepubProgress` | percents of a book's words, both ways |
| `Reading`, `Device`, `DeviceView`, `DeviceRules`, `LibrarySync`, `SyncOutcome` | reading states, the device's library, the part of it a server decides, and paged sync with a resume token: what it leaves and what it answers |
| `Control`, `ControlRuns`, `ControlProgress`, `StateFile` | the running device under concurrent callers, its start, and its crash-safe state file |
| `SearchQuery`, `FtsPhrases`, `QueryTerms`, `Facets`, `SingleFacet` | the server's search-query grammar, the expression it makes of it and what that asks, and the client's printer and reader of facets |
| `Decimals`, `NaturalOrder`, `Fixed`, `FixedDoubles` | natural sort of comic pages, and ties-to-even formatting on top of `toFixed`, also at actual floats |
| `BookPosition` | prefix sums of a book's characters, fractions and percents |
| `SessionTracker` | reading sessions from start, stop, suspend, resume and rollover calls |
| `Login` | one shared bearer token, many requests, one login at a time |
| `Cleanup`, `CleanupRules` | duplicate detection over taxonomy rows |

Where the code falls short of what its names and comments promise, the lemma states exactly when it does not, and a
concrete case is given:

- A found passage's highlight carries the passage only if no glued word was joined across an empty span of another
  paragraph: `words_in` skips empty spans, the highlight's renderer does not (`KepubProofs.SeamExample`).
- Highlights resolve to their own words only if every span with a word is the first with its id
  (`KepubCovered.RepeatedIdExample`).
- A percent reads back as itself for every percent below 100 only in a book of at least 100 words: in a shorter one,
  99 does not (`KepubProgress.ShortBook`).
- A page of sync items that comes twice, as it can when it carried no token, changes a reading state if a state for a
  book not held yet comes before the book's entitlement and is stamped later than what follows
  (`DeviceView.EarlyPageChangesTwice`).
- A save that fails leaves the newest live state out of the file until a later save carries it, and so does a reset
  that cannot clear the books directory (`ControlRuns.FailedResetUnsaved`).
- The server's whitespace holds U+0085 and the client's does not, so an unquoted facet name with one is split
  (`Facets.NextLineSplits`).
- A query of several facets passes for a single one if the first and the last are printed in quotes
  (`SingleFacet.TwoFacetsValue`).
- A range that ends where it starts, or before, strictly inside a word, holds no text and still covers the word
  (`KepubCovered.EmptyRangeExample`).
- `fixed` prints one too low for a value past a tie over an even digit by less than half of 1e-100
  (`FixedDoubles.TinyPrintedWrong`). With the 0 to 2 digits the client asks for, no float lies there
  (`FixedDoubles.FewDigitsExact`).

## Model

| member | source | states |
|---|---|---|
| KepubWords.WordsIn | mock-kobo/src/kepub.rs:553-603 | the words of a chapter, span by span, each with its UTF-16 offsets and whether it is glued to the word before |
| KepubWords.ScanSpan | mock-kobo/src/kepub.rs:565-601 | one span's words, and whether a word is still running at its end; only a word opening the span can be glued |
| KepubWords.SpanWordBounds | mock-kobo/src/kepub.rs:569-596 | every word is a maximal run of non-whitespace of its span, with a known number of words before it |
| KepubWords.SpanCovered | mock-kobo/src/kepub.rs:569-596 | every non-whitespace character of a span lies in one of its words |
| KepubProofs.WordIsRun | mock-kobo/src/kepub.rs:553-603 | each word of a chapter is such a run at its own offsets, and overlaps no later word |
| KepubProofs.CharacterHasWord | mock-kobo/src/kepub.rs:553-603 | no non-whitespace character of a chapter is left out of its words |
| KepubPassages.ComparisonWords | mock-kobo/src/kepub.rs:531-544 | glued words merged into the tokens a copied passage shows, each with the word range it covers |
| KepubPassages.TokenTexts | mock-kobo/src/kepub.rs:531-544 | the tokens' texts are the words with each glued word run on into the one before |
| KepubPassages.TokenRange | mock-kobo/src/kepub.rs:531-544 | the words covered by a run of tokens, merged, are those tokens |
| KepubPassages.FindPassage | mock-kobo/src/kepub.rs:218-241 | the first run in spine order whose tokens read the passage; none only when no chapter's tokens hold it |
| KepubPassages.FirstRunOnce | mock-kobo/src/kepub.rs:218-241 | a chapter has only one first run of a passage |
| KepubPassages.AllMatch | mock-kobo/src/kepub.rs:229-232 | the window comparison holds exactly when every token matches its word |
| KepubHighlight.Render | mock-kobo/src/kepub.rs:81-102 | the raw text cut from the spans of a word range, a space put where a paragraph ends |
| KepubHighlight.Highlight | mock-kobo/src/kepub.rs:75-116 | the text and the KoboSpan range of a word range; read between the first spans with its two ids, cut at its two offsets, the range shows exactly the text, and no whitespace at either end |
| KepubHighlight.CutIsRange | mock-kobo/src/kepub.rs:84-102 | what a reader sees between two UTF-16 offsets at character boundaries is exactly the characters between, a space where a paragraph ends |
| KepubHighlight.RawIsRange | mock-kobo/src/kepub.rs:84-102 | the UTF-16 cuts fall on the words' character boundaries, so no character is lost or split |
| KepubHighlight.WordsOrdered | mock-kobo/src/kepub.rs:553-603 | words come in the order of (span, offset) and never overlap |
| KepubText.ProseTokens | mock-kobo/src/kepub.rs:75-116 | splitting rendered prose gives exactly the words, merged where the paragraph really runs on |
| KepubText.RangeSplits | mock-kobo/src/kepub.rs:75-116 | the same for the text of any word range that does not start inside a glue run |
| KepubProofs.StrictGlue | mock-kobo/src/kepub.rs:553-603 | a glued word is rendered glued exactly when no paragraph ends since the word before it |
| KepubProofs.HighlightReads | mock-kobo/src/kepub.rs:75-116 | a highlight reads as its words, merged where the paragraph really runs on |
| KepubProofs.FoundTextIsPassage | mock-kobo/src/kepub.rs:218-241 | the highlight over a found passage is the passage with whitespace collapsed if and only if no glued word in it was joined across another paragraph's (empty) span |
| KepubProofs.ContiguousFindsExactly | mock-kobo/src/kepub.rs:218-241 | with each paragraph's spans together, every found passage is carried exactly |
| KepubProofs.SeamExample | mock-kobo/src/kepub.rs:75-116 | the failing case, concretely: "ab" is found but its highlight reads "a b" |
| Text.CollapseKeepsWords | mock-kobo/src/kepub.rs:150-152 | collapsing whitespace keeps the words and is idempotent |
| Text.SplitJoin | mock-kobo/src/kepub.rs:150-152 | a list of words survives being joined and split |
| Utf16.DecodeEncode | mock-kobo/src/kepub.rs:90-101 | decoding an encoded string gives it back |
| Utf16.DecodeSlice | mock-kobo/src/kepub.rs:90-101 | a UTF-16 slice cut at character boundaries decodes to exactly those characters |
| SpanLocation.PathRoundTrip | mock-kobo/src/annotations.rs:144-151 | a span id survives escaping and unescaping, whatever dots and backslashes it holds |
| SpanLocation.LocationRoundTrip | mock-kobo/src/annotations.rs:109-142 | every location decodes to the range that was encoded |
| SpanLocation.WireForm | mock-kobo/src/annotations.rs:109-124 | what is written down of a location, key by key, each span id as `span#` and the id with its dots behind backslashes |
| KepubCovered.CoveredWords | mock-kobo/src/kepub.rs:122-141 | the first and last word a range overlaps, or nothing |
| KepubCovered.CoveredIsTouched | mock-kobo/src/kepub.rs:118-139 | a word counts as covered if and only if some of its text lies in the range; a range holding no text covers only a word both its ends lie strictly inside |
| KepubCovered.CoversTouched | mock-kobo/src/kepub.rs:122-141 | the words answered are exactly those the range touches, when it holds any text |
| KepubCovered.EmptyRangeExample | mock-kobo/src/kepub.rs:118-139 | the failing case, concretely: a range that ends where it starts, inside a word, covers that word |
| KepubCovered.RangeCovers | mock-kobo/src/kepub.rs:75-141 | with every span holding a word the first with its id, each word range resolves to itself |
| KepubCovered.StoredHighlightResolves | mock-kobo/src/kepub.rs:75-141 | building, encoding, decoding and resolving gives back exactly its words for every highlight of a chapter if and only if every span holding a word is the first with its id |
| KepubCovered.RepeatedIdExample | mock-kobo/src/kepub.rs:122-141 | the failing case, concretely: of two spans under one id, a highlight of the second word resolves to the first |
| KepubCovered.CoversOnce | mock-kobo/src/kepub.rs:122-141 | a range has only one answer |
| KepubParsing.ParseSpans | mock-kobo/src/kepub.rs:430-490 | the spans of an event stream, or an unreadable book |
| KepubParsing.SpanIds | mock-kobo/src/kepub.rs:492-504 | the span ids are exactly `kobo.<digits>.<digits>`, and the paragraph key drops the last part |
| KepubParsing.InsideSpan | mock-kobo/src/kepub.rs:430-490 | inside an open span only the text beneath counts, however deep the elements |
| KepubParsing.OutsideSpan | mock-kobo/src/kepub.rs:430-490 | outside any span, what a forest of elements adds is exactly its outermost koboSpans |
| KepubParsing.ParsesOutermost | mock-kobo/src/kepub.rs:430-490 | the spans parsed from a chapter are its outermost koboSpans, in document order, each with all text beneath it |
| KepubProgress.TotalWords | mock-kobo/src/kepub.rs:247-247 | the words of the book |
| KepubProgress.Bookmark | mock-kobo/src/kepub.rs:246-264 | the floored percent of the words before a span, and its source and value |
| KepubProgress.WordAtPercent | mock-kobo/src/kepub.rs:270-287 | the chapter and word of a percent: a real word whenever the book has one |
| KepubProgress.CountIsChapterWords | mock-kobo/src/kepub.rs:248-256 | the words before a span are those of the spans before it |
| KepubProgress.PercentEnds | mock-kobo/src/reading.rs:36-42 | nothing of nothing is 0 percent, everything or more is 100 |
| KepubProgress.BookmarkLands | mock-kobo/src/kepub.rs:246-287 | a bookmark's percent leads back to a word at or before the span, less than one percent of the book away |
| KepubProgress.LandsJustBefore | mock-kobo/src/reading.rs:36-42 | the same of any word position, with w <= b and 100(b - w) < t |
| KepubProgress.LaterPercentLaterWord | mock-kobo/src/kepub.rs:270-287 | a later percent never leads to an earlier word |
| KepubProgress.PercentReadsBack | mock-kobo/src/kepub.rs:246-287 | every percent below 100 reads back as itself if and only if the book has at least 100 words |
| Reading.TwoRegisters | mock-kobo/src/reading.rs:90-111 | status and bookmark evolve apart, each as a last-writer-wins register |
| Reading.FirstOfLatest | mock-kobo/src/reading.rs:90-111 | a register ends as the first arrived among the offers of greatest stamp beating its own, or untouched |
| Reading.StampsRise | mock-kobo/src/reading.rs:90-125 | a register's stamp never falls |
| Reading.BookmarkAdopted | mock-kobo/src/reading.rs:100-110 | the bookmark adopted is that of the first of the latest states: its place, its stamp, and its percent when from 0 to 100 |
| Reading.StatusAdopted | mock-kobo/src/reading.rs:90-99 | likewise the status adopted |
| Reading.OrderFree | mock-kobo/src/reading.rs:90-125 | where equal stamps carry equal values, neither order nor redelivery matters to a register |
| Reading.EarlyStatesIff | mock-kobo/src/reading.rs:90-111 | a fresh reading given some states is left alone by earlier ones offered again with them if and only if each earlier stamp is met by one no earlier |
| Reading.AgainIsNothing | mock-kobo/src/reading.rs:90-111 | states delivered to a held book a second time change nothing |
| Reading.ReadingOrderFree | mock-kobo/src/reading.rs:90-111 | the same of the whole reading |
| KoboDevice.Device.New | mock-kobo/src/device.rs:119-130 | a device with an empty library and no sync token |
| KoboDevice.Device.Apply | mock-kobo/src/device.rs:267-313 | one sync item applied to library and download URLs |
| KoboDevice.Device.UpdateDownloadUrl | mock-kobo/src/device.rs:317-326 | the first offered URL is cached, or the cached one dropped |
| KoboDevice.Device.ForgetServer | mock-kobo/src/device.rs:148-160 | what is forgotten about a server, and when the sync token goes with it |
| KoboDevice.Device.ReceiveAnnotations | mock-kobo/src/device.rs:215-225 | served annotations replace a downloaded book's, and are only counted otherwise |
| KoboDevice.Device.RemoveDownload | mock-kobo/src/device.rs:163-171 | the book is no longer downloaded, or is not held |
| KoboDevice.Device.Read | mock-kobo/src/device.rs:174-196 | status and bookmark stamped now, for a downloaded book |
| KoboDevice.Device.Finish | mock-kobo/src/device.rs:199-207 | status stamped finished |
| KoboDevice.Device.Highlight | mock-kobo/src/device.rs:229-250 | an annotation added to a downloaded book, a blank note dropped |
| KoboDevice.Device.DeleteHighlight | mock-kobo/src/device.rs:253-264 | the annotation removed, or an error when none has the id |
| KoboDevice.HighlightUndone | mock-kobo/src/device.rs:229-264 | a highlight made under a new id and deleted leaves the device as it was |
| KoboDevice.ActionStaysPut | mock-kobo/src/device.rs:163-264 | an action that fails changes nothing, and one that succeeds touches its own book only |
| DeviceView.ActionInView | mock-kobo/src/device.rs:163-264 | of what the server decides, an action changes at most its own book's reading, by the mark it makes, and never the sync token |
| KoboDevice.ItemsKeep | mock-kobo/src/device.rs:267-371 | no run of sync items removes a book or touches its downloaded flag, problem, cover, annotations or drop count, nor moves its reading back |
| DeviceRules.EntitlementLists | mock-kobo/src/device.rs:271-290 | an entitlement lists a book under its metadata and URL, not archived; one not held before comes not downloaded and without annotations |
| DeviceRules.ChangesList | mock-kobo/src/device.rs:291-306 | a removal only archives a held book, new metadata only relists it |
| DeviceRules.ReadingStands | mock-kobo/src/device.rs:174-196 | what was read on the device stands through any sync whose states for the book are stamped no later, and only then does its status |
| DeviceRules.FinishStands | mock-kobo/src/device.rs:199-207 | so does a book finished on it; its bookmark is what it would have been anyway |
| DeviceRules.HighlightHeld | mock-kobo/src/device.rs:229-250 | a highlight is held last, under its id, with its text and colour, its note only if that says something, and a location that decodes to its range |
| DeviceRules.DeletedGone | mock-kobo/src/device.rs:253-264 | the annotation deleted goes, all others stay in order |
| DeviceRules.LastServedCounts | mock-kobo/src/device.rs:215-225 | annotations served last are all a downloaded book holds, and are only counted for another |
| DeviceRules.RemovedIsClosed | mock-kobo/src/device.rs:163-171 | a book whose download is removed can be neither read nor highlighted |
| DeviceView.ViewOfItems | mock-kobo/src/device.rs:267-371 | listings, download URLs and reading states evolve by the items alone: downloads, covers and annotations do not feed into them |
| DeviceView.ReadingOfItems | mock-kobo/src/device.rs:267-313 | a book's reading after a run of items is its own registers given exactly the states that reach it: all if it is held, else those from its entitlement on |
| DeviceView.RedeliveryHarmless | mock-kobo/src/device.rs:267-371 | items delivered twice in a row leave listings, URLs and readings as delivered once if and only if every state that comes before its not yet held book's entitlement is met by one stamped no earlier from the entitlement on |
| DeviceView.EarlyPageChangesTwice | mock-kobo/src/device.rs:271-313 | the failing case, concretely: such a page leaves the book in progress delivered once, and finished delivered twice |
| LibrarySync.ApplyAllItems | mock-kobo/src/session.rs:147-149 | a page's items applied in order |
| LibrarySync.SyncLibrary | mock-kobo/src/session.rs:129-159 | the paging loop: token echoed, kept after its page, stopped by the server, a failure or the cap |
| SyncOutcome.OutcomeIs | mock-kobo/src/session.rs:134-158 | a sync reports n pages if and only if requests 1 to n, 50 at most, were answered and page n is the first without more; a failure is that of the first request not answered with a page; it never ends if and only if 50 pages all said more |
| SyncOutcome.SyncGetsOn | mock-kobo/src/session.rs:129-159 | with a server that always answers with what comes next, one sync takes up to 50 pages; with no more left it succeeds, acknowledges everything and shows it |
| SyncOutcome.SyncsCatchUp | mock-kobo/src/session.rs:129-159 | one sync for every 50 pages left gets the whole of any library |
| LibrarySync.SyncInStep | mock-kobo/src/session.rs:129-159 | wherever it is cut off, a sync leaves listings, URLs and readings the fold of a log whose items are exactly the pages its token acknowledges, and keeps what is local |
| LibrarySync.ActionInStep | mock-kobo/src/device.rs:163-264 | an action enters the log as the mark it makes, and acknowledges nothing |
| LibrarySync.RunInStep | mock-kobo/src/control.rs:219-229 | over any run of syncs, actions, other local changes, saves and crashes the running and the saved device are each the fold of their own log, whose items are the pages their own token acknowledges |
| LibrarySync.RepeatsLeaveNoTrace | mock-kobo/src/session.rs:129-159 | pages delivered several times leave the listings and URLs of pages delivered once, and calm ones the same readings |
| LibrarySync.InterruptionsLeaveNoTrace | mock-kobo/src/session.rs:129-159 | a device that acknowledged every page shows the listings and URLs of an uninterrupted sync and, unless read on, its readings, if every page carried a token or every page is calm |
| LibrarySync.ReadingsAreRegisters | mock-kobo/src/reading.rs:90-111 | a device not read on holds, for each book, its registers given exactly the states the acknowledged pages offer it |
| LibrarySync.NewIsInStep | mock-kobo/src/device.rs:119-130 | a new device is in step with any ledger |
| LibrarySync.ForgottenIsInStep | mock-kobo/src/device.rs:148-160 | a device that forgot its token is in step from what it holds |
| Control.Live.constructor | mock-kobo/src/control.rs:129-143 | a running device is idle, with its storage set |
| Control.Live.BeginExchange | mock-kobo/src/control.rs:174-187 | busy, refused, or begun with the flag up and the device cloned |
| Control.Live.Commit | mock-kobo/src/control.rs:222-227 | the exchanged device replaces the live one, a sync sets the last result, requests are added |
| Control.Live.BeginReset | mock-kobo/src/control.rs:255-268 | a reset makes a new device under the same hardware id, unless busy |
| Control.Live.RemoveDownload | mock-kobo/src/control/actions.rs:49-67 | the locked section of removing a download, unless busy or not held |
| Control.Live.Retarget | mock-kobo/src/control.rs:285-315 | a retarget changes origin and token and forgets the server, unless busy, and tells whether a wire is needed |
| Control.Live.Release | mock-kobo/src/control.rs:449-454 | the guard's drop lowers the flag |
| Control.WarningIsRefusal | mock-kobo/src/control.rs:285-315 | a retarget warns exactly when the next exchange would be refused, and an exchange that begins has a token good for its origin |
| Control.RetargetedTo | mock-kobo/src/control.rs:285-315 | after a retarget the next exchange goes to the URL and with the token asked for, unless the token is wired elsewhere: then it is refused; what is forgotten is exactly what does not fit the new target |
| Control.ResetsTo | mock-kobo/src/control.rs:254-268 | a reset leaves who the device is and where it syncs, and nothing it holds; it is busy until that is saved |
| Control.RemovesAsDevice | mock-kobo/src/control/actions.rs:49-67 | removing a download is what the device itself makes of it, and is turned away for a book it does not hold |
| Control.ForgetsElsewhere | mock-kobo/src/device.rs:148-160 | sync token and download URLs are kept if and only if the token is the same and every URL lies under the new origin |
| Control.StartIsGood | mock-kobo/src/startup.rs:33-126 | whatever the arguments and the saved state, the started device is not refused, keeps no foreign download URL, and keeps its sync token only with its token |
| Control.GivenBeatsSaved | mock-kobo/src/startup.rs:33-126 | a URL or token given beats a saved one, a saved URL the dev server, that the default; a saved token counts unless wired for another origin |
| ControlRuns.StepKeeps | mock-kobo/src/control.rs:169-318 | every atomic step of sync, local action, reset, retarget, save and wait keeps one guard, undisturbed clones, one saver, ordered versions and no lost wake-up |
| ControlRuns.RunKeeps | mock-kobo/src/control.rs:169-318 | so does every interleaving |
| ControlRuns.FirstKeeps | mock-kobo/src/startup.rs:87-126 | every state a start can produce has them |
| ControlRuns.NoLostUpdate | mock-kobo/src/control.rs:197-234 | one guard holder at a time; a commit replaces exactly the device it cloned; origin and token unchanged meanwhile, the token good for the origin |
| ControlRuns.QuietFileIsLive | mock-kobo/src/control.rs:346-350 | with no save owed the file is the live state if and only if the newest version's own save did not fail or a later save carried it; exactly the versions past the file had theirs fail |
| ControlRuns.LandedFileIsLive | mock-kobo/src/control.rs:346-350 | if every save reaches the file, it is the live state whenever none is owed |
| ControlRuns.FailedResetUnsaved | mock-kobo/src/control.rs:254-275 | the failing case, concretely: a reset that cannot clear the books directory wipes the device and leaves the old library in the file |
| ControlRuns.FileMovesForward | mock-kobo/src/control.rs:346-350 | snapshots reach the file in the order the live state changed |
| ControlRuns.NoSleepPastTheEnd | mock-kobo/src/control.rs:237-248 | a waiter is never left asleep once the last exchange and its wake-up are over |
| ControlRuns.WaiterReturns | mock-kobo/src/control.rs:237-248 | whenever no exchange runs, any waiter can return within three steps that start nothing new |
| ControlProgress.ShowsWhatRan | mock-kobo/src/control.rs:197-275 | in every interleaving the request log and the last result are those of the exchanges since the last reset |
| ControlProgress.BusyEnds | mock-kobo/src/control.rs:169-318 | from every reachable state, whatever runs can end by steps that start nothing new, and leaves the device idle |
| ControlProgress.WaitsForIdle | mock-kobo/src/control.rs:237-248 | a caller that waits goes only on finding the device idle |
| StateFile.Disk.WriteSynced | mock-kobo/src/state.rs:137-145 | the new bytes reach a fresh file and the disk, or fail; what the state file can read as is the same throughout |
| StateFile.Disk.WriteAtomically | mock-kobo/src/state.rs:109-128 | over whatever is there, a crash between any two steps leaves what a crash before could have left or the new snapshot complete; success leaves only the new one; a failure before the rename changes nothing |
| StateFile.Disk.SaveAll | mock-kobo/src/state.rs:87-128 | over any run of saves, each with its own fault, a crash leaves what it could have before them or the whole of a snapshot handed to one; a last success leaves only its own |
| StateFile.Untouched | mock-kobo/src/state.rs:109-128 | a step that leaves what the path may name alone, and those files, changes nothing it can read as |
| SearchQuery.SplitQueryTokens | db/src/helpers.rs:253-297 | the quote-aware scan, character by character |
| SearchQuery.SortTokens | db/src/helpers.rs:360-395 | each token goes to one of five lists by its prefix, or is dropped when its value is empty |
| QueryTerms.LineAsks | db/src/helpers.rs:353-417 | what a line of terms asks, read off its expression: of authors and of series exactly the terms so prefixed, in any ASCII case, of all columns the whole of those whose prefix names no place; `tag:` and `genre:` values as facets |
| QueryTerms.PrefixedAsks | db/src/helpers.rs:360-395 | a value under a prefix, plain or quoted: `author:` asks the authors for it, `series:` the series, `tag:` and `genre:` are facets, any other prefix is part of the word |
| QueryTerms.PlainAsks | db/src/helpers.rs:360-395 | a value without a prefix is asked of titles, authors and series |
| QueryTerms.UnclosedAsks | db/src/helpers.rs:253-301 | a quote left open at the end asks what it asks once closed |
| SearchQuery.SanitizeQueryTokens | db/src/helpers.rs:439-465 | escaped phrases, the last a prefix match unless it was quoted |
| SearchQuery.BuildSearchQuery | db/src/helpers.rs:353-417 | the FTS expression and the facets of a raw query |
| FtsPhrases.ReadsDoubled | db/src/helpers.rs:446-455 | reading an escaped phrase up to its closing quote gives the token back |
| FtsPhrases.SanitizedReadsBack | db/src/helpers.rs:417-465 | read by the grammar of FTS5 phrases, a list's expression is always well formed and says exactly the non-empty tokens in order, the last a prefix unless the last token was quoted; there is none only without such tokens |
| FtsPhrases.QueryReadsBack | db/src/helpers.rs:353-417 | the whole expression of any query reads back as its column filters, each asking for exactly the non-empty tokens sorted to it |
| Facets.ScanConcat | db/src/helpers.rs:253-297 | scanning resumes where it stopped, unless the cut parts two quotes |
| Facets.ScanQuoted | db/src/helpers.rs:265-285 | inside quotes an escaped text and its closing quote add exactly that text |
| Facets.ScanPlain | db/src/helpers.rs:253-297 | text without quotes scans as its whitespace-separated words |
| Facets.ScanPrinted | frontend-js/src/format.ts:59-66 | a printed list of facets scans as the tokens of each facet in order |
| Facets.PrintedFacetsReadBack | frontend-js/src/format.ts:59-66 | searching for printed non-blank facets asks for exactly their trimmed names, in order, and no free text, if and only if each name is quoted when printed or has no character the server splits at |
| Facets.NextLineSplits | frontend-js/src/format.ts:59-66 | the failing case, concretely: an unquoted U+0085 splits a name, since only the server takes it for whitespace |
| Facets.SingleFacetReadBack | frontend-js/src/format.ts:71-83 | a single printed facet gives its trimmed name back, or nothing when blank |
| SingleFacet.SeveralFacetsValue | frontend-js/src/format.ts:71-83 | several printed facets have no single value if and only if the first and the last are not both printed in quotes |
| SingleFacet.TwoFacetsValue | frontend-js/src/format.ts:71-83 | the failing case, concretely: the query for a tag "a b" and a genre "c d" passes for one facet, under a name that is neither |
| SingleFacet.TwoWordsNoValue | frontend-js/src/format.ts:71-83 | a value that does not open with a quote and holds two words is no single facet's |
| NaturalOrder.TakeDigits | db/src/comic.rs:440-450 | the maximal digit run at a position |
| NaturalOrder.NaturalCmp | db/src/comic.rs:404-438 | the two-iterator comparison is the lexicographic order of token lists: digit runs by value then length, other characters without ASCII case |
| NaturalOrder.RunsCompareByValue | db/src/comic.rs:418-429 | stripping zeros, then length, then text, then full length compares digit runs by value, then by length |
| NaturalOrder.TextIsNumeric | db/src/comic.rs:418-429 | digit runs of one length compare as texts as they do as numbers |
| NaturalOrder.TotalPreorder | db/src/comic.rs:404-438 | the order is total, turns round with its arguments, is transitive, and calls names equal exactly when they match up to ASCII case |
| NaturalOrder.FirstDifferenceDecides | db/src/comic.rs:404-438 | the first two characters that differ decide, a capital counting as its small letter; a name that ends comes first |
| NaturalOrder.NumbersDecide | db/src/comic.rs:412-430 | the first two numbers that differ in value decide however they are written, equal ones by written length |
| Text.LowerIsCase | db/src/comic.rs:431-436 | lowering makes two texts alike if and only if they differ by the case of ASCII letters at most |
| NaturalOrder.OneReadingOrder | db/src/comic.rs:261-261 | however the archive lists its pages, sorting gives one reading order, up to ASCII case |
| Fixed.NearestIsClosest | frontend-js/src/format.ts:219-221 | the rounding `toFixed` is specified by: the closest integer, the larger of two |
| Fixed.HalfEvenIsClosest | frontend-js/src/format.ts:216-216 | the rounding promised: the closest integer, the even one of two |
| Fixed.Truncation | frontend-js/src/format.ts:222-226 | slicing the long expansion gives the digits of the number without its last places, and those places |
| Fixed.FiveZerosIsHalf | frontend-js/src/format.ts:227-227 | the rest matches a five and zeros exactly when it is half of its power of ten |
| Fixed.HalfWindow | frontend-js/src/format.ts:223-227 | the long expansion looks like a tie exactly in a small window around one |
| Fixed.PrintsNumber | frontend-js/src/format.ts:217-229 | what is printed: the floor's digits in the window over an even floor, else `toFixed`'s |
| Fixed.FixedRoundsHalfEven | frontend-js/src/format.ts:216-229 | the text is the half-to-even rounding, sign included, if and only if the value is not past a tie over an even digit by less than half of 1e-100 |
| FixedDoubles.FewDigitsExact | frontend-js/src/format.ts:216-229 | with two digits or fewer every 64-bit float is printed rounded half to even |
| FixedDoubles.TinyPrintedWrong | frontend-js/src/format.ts:222-228 | the failing case, concretely: the float nine over two to the 333rd, to 99 digits, prints as zero instead of 1e-99 |
| BookPosition.StoreRows | db/src/epub_structure.rs:62-71 | each row stores the characters of the documents before it |
| BookPosition.StoredTiles | db/src/epub_structure.rs:62-71 | the stored rows lay the book out: no overlap, no gap, each document once |
| BookPosition.PositionIsFoundAgain | db/src/epub_structure.rs:149-186 | every character of the book is found again from its fraction |
| BookPosition.FractionIsFoundAgain | db/src/epub_structure.rs:149-186 | the fraction of the place a fraction leads to is below it by at most one character, by less unless it is the end |
| BookPosition.FurtherFractionFurtherPlace | db/src/epub_structure.rs:170-186 | a further fraction is never an earlier place |
| BookPosition.FurtherPlaceFurtherFraction | db/src/epub_structure.rs:149-196 | a further place is never an earlier fraction or percent |
| BookPosition.AnchorAgreesWithFraction | db/src/anchor.rs:206-238 | an annotation's percent is 100 times the fraction at its document's start, and floors to `percent_at`; there is none when the book measured empty |
| BookPosition.OpeningChapterIsFirst | db/src/anchor.rs:225-235 | the chapter named is the first of those at the highest spine step not past the anchor |
| BookPosition.AnchorIsPlaced | db/src/anchor.rs:206-238 | an anchor is told its step, the title of the first chapter at the highest step not past it, and a percent unless the book measured empty |
| BookPosition.EmptyBook | db/src/epub_structure.rs:149-196 | in a book that measured empty every place is at its start and no fraction leads anywhere |
| SessionTracking.SessionTracker.constructor | frontend-js/src/readingSession.ts:35-40 | a tracker starts idle |
| SessionTracking.SessionTracker.Start | frontend-js/src/readingSession.ts:43-49 | the same book is a no-op, another book ends the old segment |
| SessionTracking.SessionTracker.Stop | frontend-js/src/readingSession.ts:52-56 | the segment ends and the book is forgotten |
| SessionTracking.SessionTracker.Suspend | frontend-js/src/readingSession.ts:59-65 | the segment ends and the book is remembered |
| SessionTracking.SessionTracker.Resume | frontend-js/src/readingSession.ts:67-71 | a remembered book counts again |
| SessionTracking.SessionTracker.Rollover | frontend-js/src/readingSession.ts:74-81 | a running segment of at least five seconds is reported and restarted |
| SessionTracking.SessionTracker.Take | frontend-js/src/readingSession.ts:83-88 | the report of the running segment, if it is long enough |
| SessionTracking.PhaseShowsFront | frontend-js/src/readingSession.ts:34-89 | the phase follows the calls alone, whatever the times |
| SessionTracking.ReportIsActive | frontend-js/src/readingSession.ts:14-31 | a report is at least five seconds long, ends at its call, and its book was in front throughout |
| SessionTracking.ReportsDisjoint | frontend-js/src/readingSession.ts:34-89 | reports never overlap and come in the order of time |
| SessionTracking.ActiveTimeIsAccountedFor | frontend-js/src/readingSession.ts:34-89 | active time is reported, pending or lost, less than five seconds lost per stretch that ended unreported |
| SessionTracking.PendingIsShort | frontend-js/src/readingSession.ts:52-81 | a heartbeat leaves less than five seconds pending, a call that takes the book away none |
| Login.OmnibusClient.New | mcp/src/client.rs:186-199 | a client with credentials holds no token |
| Login.OmnibusClient.WithBearer | mcp/src/client.rs:206-220 | a fixed-bearer client holds the caller's token and no credentials |
| Login.OmnibusClient.CheckHeld | mcp/src/client.rs:267-275 | under the lock: use a token held meanwhile, log in, or give up |
| Login.OmnibusClient.Keep | mcp/src/client.rs:256-256 | the minted token becomes the held one |
| Login.StepKeeps | mcp/src/client.rs:229-323 | every atomic step of any number of requests keeps one login at a time and the history of tokens |
| Login.ReplacedOnlyWhenRejected | mcp/src/client.rs:229-275 | the token changes only in a store under the lock, after the server rejected the old one |
| Login.LoginsBounded | mcp/src/client.rs:229-323 | in every interleaving each token is held once at most and replaced only after its rejection; kept logins are at most one more than the rejected tokens |
| Login.FixedBearerStays | mcp/src/client.rs:206-233 | a fixed-bearer client never logs in and never changes its token |
| Login.RetryIsFresh | mcp/src/client.rs:304-323 | a retry never carries the token just rejected, and a second 401 ends the request |
| Login.RetryComes | mcp/src/client.rs:304-323 | a first 401 sends the request for another token; it ends before its second send only when a login fails, it is cancelled, or the client has nothing to log in with |
| Login.RequestGetsOn | mcp/src/client.rs:267-283 | wherever the requests of a client with credentials stand, one that has begun or wants the lock can get to send a token other than the one rejected, by its own steps and those of the lock's holder |
| Cleanup.PickCanonical | db/src/cleanup.rs:488-498 | the row with most books survives, ties to the lowest id |
| Cleanup.MergeSuggestion | db/src/cleanup.rs:500-553 | the suggestion is a function of the group as a set, its sources sorted by id |
| Cleanup.FuzzyMergeSuggestions | db/src/cleanup.rs:427-467 | each pair of singles with the same first word and similarity at least 0.85 is emitted exactly once, whatever order the buckets come in |
| Cleanup.KeyBuckets | db/src/cleanup.rs:391-396 | each key's bucket holds exactly the rows with that key |
| Cleanup.GroupsAndSingles | db/src/cleanup.rs:398-408 | each key with two rows or more gives one exact group, each with one a single |
| Cleanup.DetectMerges | db/src/cleanup.rs:384-412 | exactly the suggestions the set of rows calls for, each once |
| Cleanup.OrderDoesNotMatter | db/src/cleanup.rs:384-412 | two detections over the same rows agree, payloads included, whatever the order of rows and hash maps |
| Cleanup.GroupsAreSeparate | db/src/cleanup.rs:384-412 | a row is in one exact group at most and then in no fuzzy pair; no group is proposed twice |
| Cleanup.SuggestionNamesGroup | db/src/cleanup.rs:500-553 | different groups never give the same suggestion |
| CleanupRules.ProposedExactly | db/src/cleanup.rs:427-483 | two rows alone with their keys are proposed if and only if the keys share their first word and 17 times the words only one has is at most 3 times those they share; the score is the share in common |
| CleanupRules.GroupProposedExactly | db/src/cleanup.rs:384-412 | the rows under one key are proposed as one merge of score 1 if and only if there are two or more |
| CleanupRules.ScoreOne | db/src/cleanup.rs:477-483 | the score is 1 if and only if the two sets of words are equal and not empty |
| CleanupRules.ScoreFalls | db/src/cleanup.rs:477-483 | a word added to one side only makes a score fall |
| CleanupRules.SuggestionTells | db/src/cleanup.rs:488-553 | a suggestion tells who survives its group (most books, then lowest id), every other row under its own name, and how many books carry any of them |
| Cleanup.PayloadSorted | db/src/cleanup.rs:507-523 | a payload lists every source once by rising id, without the survivor |

## Left out

- KepubProgress.PercentReadsBack: word counts and percents are unbounded, so the width of `usize` is not modelled.
- KepubWords.ScanSpan: offsets are unbounded here; the source adds in 32 bits, which a 64 MiB chapter cannot overflow.
- KepubParsing.ParseSpans: lexing, attribute decoding and entity tables are abstract: an event carries its decoded text or nothing.
- Reading.FirstOfLatest: RFC 3339 parsing is abstract: a stamp is its seconds, or nothing when absent or unparseable.
- KepubHighlight.Highlight: taken on chapters whose offsets fit 32 bits; the source adds them in 32 bits unchecked, and reads at most 64 MiB of a chapter.
- LibrarySync.RunInStep: the server's pages carry the next items its token does not acknowledge; covers, downloads and reading-state uploads of a sync count as other local changes.
- ControlRuns.NoLostUpdate: callers of `reset`, `retarget` and `remove_download` are taken not to be cancelled; a panic is modelled only in an exchange.
- Control.Live.RemoveDownload: only the locked section and its save; deleting the file itself is not modelled.
- StateFile.Disk.WriteAtomically: creating the parent directory and naming the temp file are not modelled, and directory sync is the Unix one.
- SearchQuery.BuildSearchQuery: what SQLite answers for an FTS expression is not part of this model.
- Facets.PrintedFacetsReadBack: texts are sequences of Unicode scalars on both sides; a lone surrogate in a JavaScript string is not modelled.
- NaturalOrder.OneReadingOrder: the standard library's sort itself; the law is about any sorted arrangement. Which archive entries are pages is not modelled.
- Fixed.FixedRoundsHalfEven: numbers are exact reals below 1e21 in magnitude; above it `toFixed` prints an exponent form, and NaN, infinities and negative zero are not modelled.
- BookPosition.PositionIsFoundAgain: exact real arithmetic: the rounding of 64-bit floats and the saturation of 64-bit sums are not modelled.
- SessionTracking.ReportIsActive: the time zone fields of a report and the React hook around the tracker are not modelled; times are whole seconds, as the clock gives them.
- Login.LoginsBounded: logins whose request was cancelled before the token was stored are counted apart; the server is assumed never to mint a token twice. Statuses other than 401 are one case, and the write allowlist is not modelled.
- Cleanup.DetectMerges: rows come fetched and folded, each with its normalized key; name normalization and SQL are not part of this model. Similarity is an exact fraction, which 64-bit floats order alike at these sizes.
- `position_key`, the annotation sort key: only an easy lexicographic order.
- `read_entry`, OPF and container parsing, href resolution: archives and package files are not part of this model.
- Title cruft, junk authors and tag splitting: decided by regular expressions.
- Control API routing, command line, terminal interface, covers, thumbnails and error ring: plumbing.
