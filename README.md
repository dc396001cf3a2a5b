# VietNovel reading app — a verified model

This project models the core of a novel-reading web application in Dafny and
proves properties of that model. The application has a React client and an
Express/MongoDB server.

- **Offline layer of the client.**
  - `OfflineStore` models the IndexedDB store as a class with five keyed maps: novels, chapters keyed by (novel, chapter number), read positions, cached images, and an auto-increment sync queue. Each transaction is one method.
  - `ServiceWorker` models the worker's request router, its five fetch strategies (page, API, image, shell, external), the install and activate cache management, and the offline-store fallback for API requests. Cache Storage is a class holding a map of named caches.
  - `OfflineState` models the connectivity and update state machine, and the choice made by the offline banner.
  - `OfflineReader` models resuming, navigating and saving progress in the offline reader.
  - `DownloadModal` models the routine that downloads a novel into the store.
- **Secondary client cores.**
  - `ReaderView`: the text-to-speech sentence chunker and playback state.
  - `Services` and `ApiFallback`: the two API clients, with envelope decoding, error precedence and fallbacks.
  - `NovelFilters` and `HomePage`: the two filtering and sorting pipelines, which differ from each other.
  - `UseNovels` and `App`: list updates, handlers and reader navigation.
  - `EditProfile` and `AuthModal`: the two form validators.
  - `Helpers`: the formatters.
- **Server controllers.**
  - `ChapterController`, `NovelController`, `AdminController` and `AuthController` work over `ServerTypes.NovelCollection` and `ServerTypes.UserCollection`.
  - Each collection is a class whose map from unique id to document is what the handlers update.
  - Each handler is a method that states its reply (status and body, or status and error) and the exact new contents of the collection.
- **Shared modules.** `Wrappers`, `Text`, `Lists` and `Sorting` model the JavaScript built-ins the code relies on: `filter`, `findIndex`, `splice`, `sort`, `split`, `trim`, `toLowerCase` and decimal formatting.

The clock (`Date.now()`), the network, the browser and the speech synthesiser
are not modelled as I/O:

- The current time is a parameter.
- Each exchange's outcome is an input: a response, an error, or a time-out.
- A worker or browser event is a method call.

The user logged in on the client is a field of the screen state.

## Model

| member | source | states |
|---|---|---|
| OfflineStore.Stamped | client/src/services/indexedDBService.ts:150-154 | the stored novel is the given one with `savedAt` set to the save time and `fromCache` true, every other field unchanged |
| OfflineStore.StampedChapter | client/src/services/indexedDBService.ts:272-276 | the stored chapter is the given one with `savedAt` and `fromCache` set, under the same compound key |
| OfflineStore.LastWithKey | client/src/services/indexedDBService.ts:292-298 | the chapter a sequence of `put`s leaves under a key is the last chapter of the batch with that key: it is in the batch, has the key, and no later chapter of the batch has it; none means no chapter of the batch has the key |
| OfflineStore.PutChaptersLookup | client/src/services/indexedDBService.ts:292-298 | after putting a batch, a key is present iff it was before or some chapter of the batch has it, and it holds the last such chapter, stamped, else the old record |
| OfflineStore.SaveSameKeyTwice | client/src/services/indexedDBService.ts:267-284 | saving two chapters with the same `[novelId, chapterNumber]` key keeps only the later one |
| OfflineStore.ExpiredIds | client/src/services/indexedDBService.ts:549-562 | the ids `upperBound(cutoff)` on `savedAt` selects are exactly the novels saved at or before the cutoff |
| OfflineStore.Utf8Size | client/src/services/indexedDBService.ts:418 | the blob size of a string is between its length and four times its length |
| OfflineStore.AsciiSize | client/src/services/indexedDBService.ts:418 | an ASCII string (such as base64 image data) has a blob size equal to its length |
| OfflineStore.GetAllCount | client/src/services/indexedDBService.ts:202-216 | an index `getAll` returns as many records as there are keys whose record matches |
| OfflineStore.IndexGetAll | client/src/services/indexedDBService.ts:202-216 | an index `getAll` returns each matching key once, with its stored record, and misses none |
| OfflineStore.IndexedDBService.ChapterKeysAdd | client/src/services/indexedDBService.ts:528-532 | the chapter keys of a set of novels add up novel by novel, so the flattened count is their sum |
| OfflineStore.IndexedDBService.constructor | client/src/services/indexedDBService.ts:61-63 | a new service has no connection and five empty stores, and the sync key generator starts at 1 |
| OfflineStore.IndexedDBService.Init | client/src/services/indexedDBService.ts:68-139 | the first call opens the database; later calls return the cached connection or the cached failure without opening again |
| OfflineStore.IndexedDBService.SaveNovel | client/src/services/indexedDBService.ts:145-162 | the novels store maps the novel's id to the stamped novel and nothing else changes |
| OfflineStore.IndexedDBService.GetNovel | client/src/services/indexedDBService.ts:164-174 | the stored novel with that id, or none; after `SaveNovel` this is the input with only `savedAt` and `fromCache` changed |
| OfflineStore.IndexedDBService.GetAllNovels | client/src/services/indexedDBService.ts:176-186 | every stored novel exactly once |
| OfflineStore.IndexedDBService.DeleteNovel | client/src/services/indexedDBService.ts:188-225 | removes the novel, every chapter and every image of that novel, and keeps all other records unchanged |
| OfflineStore.IndexedDBService.DeleteImagesForNovel | client/src/services/indexedDBService.ts:209-217 | the images left are exactly the old images of other novels, unchanged |
| OfflineStore.IndexedDBService.SearchNovels | client/src/services/indexedDBService.ts:227-261 | with an author, the novels by that author (and of the genre if one is given); else with a genre, that genre; else all; each once |
| OfflineStore.IndexedDBService.SaveChapter | client/src/services/indexedDBService.ts:267-284 | the chapters store after one stamped `put` under the chapter's compound key |
| OfflineStore.IndexedDBService.SaveChapters | client/src/services/indexedDBService.ts:286-306 | the chapters store after stamped `put`s of the whole batch in order (a later duplicate key wins) |
| OfflineStore.IndexedDBService.GetChapter | client/src/services/indexedDBService.ts:308-321 | the chapter stored under `[novelId, chapterNumber]`, or none |
| OfflineStore.IndexedDBService.GetChaptersByNovel | client/src/services/indexedDBService.ts:323-340 | exactly the stored chapters of that novel, one per key, in ascending chapter number |
| OfflineStore.IndexedDBService.DeleteChaptersForNovel | client/src/services/indexedDBService.ts:342-365 | the cursor deletes every chapter of that novel and keeps every other chapter unchanged |
| OfflineStore.IndexedDBService.SaveReadPosition | client/src/services/indexedDBService.ts:371-387 | one position per novel, holding the given position with `readAt` set to the save time |
| OfflineStore.IndexedDBService.GetReadPosition | client/src/services/indexedDBService.ts:389-399 | the position stored for that novel, or none |
| OfflineStore.IndexedDBService.CacheImage | client/src/services/indexedDBService.ts:405-428 | the image record under its url holds the data, its blob size and the cache time |
| OfflineStore.IndexedDBService.GetCachedImage | client/src/services/indexedDBService.ts:430-440 | the data of the image under that url, or none |
| OfflineStore.IndexedDBService.GetImagesForNovel | client/src/services/indexedDBService.ts:442-453 | exactly the cached images of that novel, each once |
| OfflineStore.IndexedDBService.QueueSync | client/src/services/indexedDBService.ts:460-481 | adds a pending entry under a fresh key from the generator, which moves on by one |
| OfflineStore.IndexedDBService.GetSyncQueue | client/src/services/indexedDBService.ts:483-496 | exactly the pending entries, in ascending key order |
| OfflineStore.IndexedDBService.MarkSyncComplete | client/src/services/indexedDBService.ts:498-517 | a known entry becomes complete with the completion time; an unknown id changes nothing |
| OfflineStore.IndexedDBService.GetStorageInfo | client/src/services/indexedDBService.ts:523-545 | a failed estimate gives null; otherwise usage and quota as estimated, the number of novels, and the number of their chapters |
| OfflineStore.IndexedDBService.CleanupOldData | client/src/services/indexedDBService.ts:547-579 | deletes exactly the novels saved at or before the cutoff, returns how many, and leaves every chapter in place |
| OfflineStore.IndexedDBService.ClearAll | client/src/services/indexedDBService.ts:585-603 | empties all five stores while the sync key generator keeps counting |
| ServiceWorker.ServedOf | client/public/service-worker.js:233 | a cache lookup answers with the cached response when there is one and with `undefined` otherwise |
| ServiceWorker.Route | client/public/service-worker.js:154-197 | which handler a request reaches: non-GET and extension requests pass through; same-origin documents, `/api` paths, images and script/style/font each get their handler; everything else is external |
| ServiceWorker.FirstMatch | client/public/service-worker.js:227 | `caches.match` answers from the first cache, in creation order, that holds the key, and misses only when none does |
| ServiceWorker.KeepValidMembers | client/public/service-worker.js:132-142 | the caches that survive activation are exactly the old ones whose name is current |
| ServiceWorker.KeepValidAppend | client/public/service-worker.js:132-142 | keeping the current names of a joined list keeps them from each part, in order |
| ServiceWorker.ActivateStep | client/public/service-worker.js:135-141 | one step of activation: keeping a current name or deleting a stale one turns the names held before the step into those held after it |
| ServiceWorker.CacheStorage.constructor | client/public/service-worker.js:7-11 | a fresh cache storage holds no caches |
| ServiceWorker.CacheStorage.Open | client/public/service-worker.js:41 | opening an existing cache changes nothing; a new name is added last with an empty cache |
| ServiceWorker.CacheStorage.Put | client/public/service-worker.js:49 | the named cache exists afterwards and maps the key to the response; no other cache changes |
| ServiceWorker.CacheStorage.MatchAll | client/public/service-worker.js:227 | the loop over the caches returns the first match in creation order |
| ServiceWorker.CacheStorage.Delete | client/public/service-worker.js:140 | removes exactly the named cache; the other names keep their order |
| ServiceWorker.OfflinePage | client/public/service-worker.js:62-112 | the offline fallback page is a 200 HTML response |
| ServiceWorker.PutAssetsAt | client/public/service-worker.js:44-52 | after the parallel fetches an asset is cached iff its fetch succeeded with an ok status; other keys keep their old value |
| ServiceWorker.InstalledShellAt | client/public/service-worker.js:41-112 | after install `/offline.html` is the offline page, each other asset is cached iff its fetch was ok, and nothing else changes |
| ServiceWorker.AddAll | client/public/service-worker.js:44-52 | each asset is fetched on its own and stored when its response is OK; a failed or non-OK asset changes nothing and does not stop the others; no cache is created or deleted |
| ServiceWorker.Install | client/public/service-worker.js:35-121 | install opens the shell cache and leaves it in the state `InstalledShell` describes; no other cache changes |
| ServiceWorker.Activate | client/public/service-worker.js:127-148 | activation deletes every cache whose name is not current, keeps the others in their order, and keeps their contents |
| ServiceWorker.HandlePage | client/public/service-worker.js:207-242 | an ok network answer is cached in the shell cache and returned; otherwise an offline route gets its cached page or `/index.html`, and any other route gets `/offline.html` |
| ServiceWorker.OfflineApiResponse | client/public/service-worker.js:284-293 | the API offline error is a 503 JSON body with `offline: true` |
| ServiceWorker.HandleApi | client/public/service-worker.js:248-294 | an ok answer within the timeout is cached in the API cache and returned; otherwise the caches are unchanged and the reply is the first cached answer, else for `/novels` paths the answer of the corrected store fallback (`StoreFallbackReply`, see Findings), else the 503 JSON error; it always answers |
| ServiceWorker.PlaceholderImage | client/public/service-worker.js:325-335 | the placeholder is a 67-byte PNG response that starts with the PNG signature and ends with the IEND chunk |
| ServiceWorker.PlaceholderHeader | client/public/service-worker.js:327-329 | the placeholder's header chunk is a 13-byte IHDR chunk for a 1x1 image |
| ServiceWorker.HandleImage | client/public/service-worker.js:300-336 | cache first; on a miss an ok network answer is cached and returned, anything else gives the placeholder |
| ServiceWorker.HandleShell | client/public/service-worker.js:342-368 | cache first; on a miss an ok network answer is cached and returned; otherwise the second lookup misses too and the answer is `undefined` |
| ServiceWorker.HandleExternal | client/public/service-worker.js:374-381 | the network answer as it is, or a 503 "Offline" with the `text/plain;charset=UTF-8` type when the fetch throws |
| ServiceWorker.HandleFetch | client/public/service-worker.js:154-197 | the request is left to the browser, with the caches unchanged, exactly when `Route` says pass through; a page, API, image or shell request gets exactly the answer and cache effect its handler promises (`PageServed`, `ApiServed`, `ImageServed`, `ShellServed`); external requests get `HandleExternal` and leave the caches unchanged |
| ServiceWorker.Segment | client/public/service-worker.js:403 | the `[^/]+` capture: the longest slash-free prefix |
| ServiceWorker.NovelIdOf | client/public/service-worker.js:403-406 | a novel id parsed from a path is non-empty and has no slash |
| ServiceWorker.SegmentOf | client/public/service-worker.js:403 | the capture of a slash-free id followed by a slash or the end is that id |
| ServiceWorker.NovelIdRoundTrip | client/public/service-worker.js:403-406 | a path built as `/api/novels/` + id + a rest that starts with a slash parses back to that id |
| ServiceWorker.NovelFallback | client/public/service-worker.js:422-433 | the corrected novel fallback answers iff the store holds the novel, with that record in a success envelope |
| ServiceWorker.TryStoreFallback | client/public/service-worker.js:398-439 | corrected fallback: no id or a failed open gives null; a `/chapters` path lists exactly that novel's stored chapters, one per stored key, in chapter order; otherwise the stored novel or null |
| ServiceWorker.TryStoreFallbackAsWritten | client/public/service-worker.js:398-439 | as written, the awaited request objects make every parsed path with an open store answer 200 with an empty `data` object |
| ServiceWorker.AsWrittenAnswersForMissingNovel | client/public/service-worker.js:423-433 | with an empty store the code as written still answers for novel `n1` while the corrected fallback answers nothing |
| OfflineState.OfflineStateHook.constructor | client/src/hooks/useOfflineState.tsx:19-24 | online and support flags come from the browser; not ready, no update and no waiting worker |
| OfflineState.OfflineStateHook.HandleOnline | client/src/hooks/useOfflineState.tsx:94-104 | sets `isOnline` and posts `SYNC_PENDING` only when service workers exist and a controller is active |
| OfflineState.OfflineStateHook.HandleOffline | client/src/hooks/useOfflineState.tsx:106-109 | sets only `isOnline` to false |
| OfflineState.OfflineStateHook.RegisterSW | client/src/hooks/useOfflineState.tsx:29-83 | unsupported browsers and failed registrations change nothing; a registration sets `isReady`; a waiting worker also sets `needsUpdate` and is remembered |
| OfflineState.OfflineStateHook.OnWorkerStateChange | client/src/hooks/useOfflineState.tsx:61-77 | a new worker reaching `installed` raises the update flag only when a controller exists, so a first install raises none |
| OfflineState.OfflineStateHook.UpdateApp | client/src/hooks/useOfflineState.tsx:85-90 | posts `SKIP_WAITING` to the waiting worker and reloads only when one is known; otherwise nothing happens |
| OfflineState.Indicator | client/src/hooks/useOfflineState.tsx:134-182 | no banner exactly when online without an update; the offline banner whenever offline; the update banner only when online with an update |
| OfflineReader.FindIndex | client/src/components/OfflineReader.tsx:71-73 | the first chapter with the saved chapter number, or -1 exactly when none has it |
| OfflineReader.Progress | client/src/components/OfflineReader.tsx:47 | reading progress is above 0 and at most 100, and it is 100 exactly at the last chapter |
| OfflineReader.ResumeIndex | client/src/components/OfflineReader.tsx:68-77 | resumes at the saved chapter when it is still stored, otherwise at the first chapter, and always within the list |
| OfflineReader.ResumeAfterSave | client/src/components/OfflineReader.tsx:32-78 | with distinct chapter numbers, resuming from the position the save effect wrote returns the index it was written at |
| OfflineReader.Reader.constructor | client/src/components/OfflineReader.tsx:16-20 | a mounted reader has no novel or chapters, index 0, is loading and hides the chapter list |
| OfflineReader.Reader.CurrentView | client/src/components/OfflineReader.tsx:105-132 | the spinner while loading, the not-found screen when the novel or its chapters are missing, otherwise the current chapter |
| OfflineReader.Reader.SaveProgress | client/src/components/OfflineReader.tsx:32-50 | with a novel and chapters, stores the read position of the current chapter and the novel with its last chapter and progress, stamped; otherwise and elsewhere the store is unchanged |
| OfflineReader.Reader.LoadNovelData | client/src/components/OfflineReader.tsx:52-83 | an unknown novel leaves the reader empty; otherwise it holds the novel, exactly its stored chapters in chapter order, and the resume index, and the save effect has run for that chapter; loading ends either way, and chapters, images and the sync queue are untouched |
| OfflineReader.Reader.GoToPrevious | client/src/components/OfflineReader.tsx:85-90 | moves back one chapter only when not at the first; after a move the store holds the read position of the new chapter and the re-stamped novel (`SavedPositions`, `SavedNovels`); without a move nothing is saved; the other stores never change |
| OfflineReader.Reader.GoToNext | client/src/components/OfflineReader.tsx:92-97 | moves on one chapter only when not at the last; after a move the store holds the read position of the new chapter and the re-stamped novel; without a move nothing is saved; the other stores never change |
| OfflineReader.Reader.GoToChapter | client/src/components/OfflineReader.tsx:99-103 | jumps to the chosen chapter and closes the list; a changed index saves the new chapter's position and the re-stamped novel, choosing the current one saves nothing; the other stores never change |
| DownloadModal.OrDefault | client/src/components/DownloadNovelModal.tsx:67-70 | `value \|\| fallback` on an optional string: a missing or empty value takes the fallback |
| DownloadModal.BuildStoredNovel | client/src/components/DownloadNovelModal.tsx:63-77 | the stored novel copies id, title, description, cover and status; author, genre, counts and chapter total fall back to `Unknown`, `Khác` and 0; progress 0; stamped now |
| DownloadModal.ChapterRecord | client/src/components/DownloadNovelModal.tsx:94-102 | a stored chapter keeps the reference's id, number and title under this novel, with the fetched content or the empty string |
| DownloadModal.Collected | client/src/components/DownloadNovelModal.tsx:84-111 | the loop keeps at most one record per reference, all belonging to this novel; `CollectedAppend` fixes the order under any mix of outcomes |
| DownloadModal.CollectedAppend | client/src/components/DownloadNovelModal.tsx:84-111 | the records of a concatenated list are those of each part in turn, and a single chapter gives its record exactly when its fetch succeeded, so every succeeded chapter is kept in list order |
| DownloadModal.CollectedAllSucceed | client/src/components/DownloadNovelModal.tsx:86-104 | when every fetch succeeds, one record per reference, in order |
| DownloadModal.CollectedFromSucceeded | client/src/components/DownloadNovelModal.tsx:86-110 | every kept record comes from a reference whose fetch succeeded, so failed chapters are skipped |
| DownloadModal.Modal.constructor | client/src/components/DownloadNovelModal.tsx:29-32 | idle, nothing downloaded, no error, not marked downloaded |
| DownloadModal.Modal.CheckIfDownloaded | client/src/components/DownloadNovelModal.tsx:39-49 | marked downloaded exactly when the store holds the novel; back to idle |
| DownloadModal.Modal.HandleDownload | client/src/components/DownloadNovelModal.tsx:51-135 | a missing novel or a failed fetch ends in the error state with its message and no store change; otherwise the novel and the collected chapters are saved, the count is the number kept, and the state is complete |
| DownloadModal.Modal.CollectChapters | client/src/components/DownloadNovelModal.tsx:83-111 | the chapter loop builds exactly `Collected` and counts one per chapter kept |
| DownloadModal.Modal.HandleDelete | client/src/components/DownloadNovelModal.tsx:137-148 | without confirmation nothing changes; with it the novel, its chapters and its images are deleted, every other chapter and image is kept unchanged, and the counters reset |
| ReaderView.RunEnd | client/src/components/ReaderView.tsx:110 | the `[^.!?\n]+` part of the sentence pattern: the longest run with no punctuation or newline |
| ReaderView.PunctEnd | client/src/components/ReaderView.tsx:110 | the `[.!?]+` part: the longest run of sentence punctuation |
| ReaderView.Sentences | client/src/components/ReaderView.tsx:110 | every match of the sentence pattern is non-empty and starts with neither punctuation nor a newline |
| ReaderView.SentencesCover | client/src/components/ReaderView.tsx:110 | for a paragraph whose first character is not punctuation, the matches concatenate back to the paragraph |
| ReaderView.SentencesOf | client/src/components/ReaderView.tsx:108-110 | a paragraph yields no segments exactly when it is blank |
| ReaderView.LineTextKept | client/src/components/ReaderView.tsx:100-110 | the segments of each line, put back together, are the line, so no text is lost from display |
| ReaderView.ChunkParagraph | client/src/components/ReaderView.tsx:107-123 | a blank line gives an empty block and leaves the queue as it was; any other line gives a block holding its sentences, numbered on from the queue, whose trimmed texts are appended to the queue |
| ReaderView.NumberSentences | client/src/components/ReaderView.tsx:112-120 | each sentence gets the next global index and its trimmed text is appended to the audio queue, which keeps its prefix |
| ReaderView.BuildChunks | client/src/components/ReaderView.tsx:86-126 | empty content gives the one placeholder block and queue; otherwise one block per line, blank lines empty, segments numbered 1, 2, ... in order, queue entry k being segment k's trimmed text, and entry 0 the title |
| ReaderView.AllSegmentsAppend | client/src/components/ReaderView.tsx:107-123 | the segments of the blocks built so far grow by those of the new block |
| ReaderView.NumberedExtend | client/src/components/ReaderView.tsx:112-120 | appending a paragraph's numbered segments keeps the whole queue numbered consecutively |
| ReaderView.NextNonEmpty | client/src/components/ReaderView.tsx:135-148 | `speakChunk` skips forward over empty chunks to the first non-empty one, or past the end |
| ReaderView.FontDown | client/src/components/ReaderView.tsx:323 | `A-` lowers the size by 2, or gives exactly 14 when that would go below 14 |
| ReaderView.FontUp | client/src/components/ReaderView.tsx:329 | `A+` raises the size by 2, or gives exactly 24 when that would go above 24 |
| ReaderView.Player.constructor | client/src/components/ReaderView.tsx:48-59 | font 18, not speaking, not paused, no current chunk |
| ReaderView.Player.SpeakChunk | client/src/components/ReaderView.tsx:135-181 | past the end playback stops and clears the highlight; otherwise the next non-empty chunk becomes current and is spoken |
| ReaderView.Player.TogglePlay | client/src/components/ReaderView.tsx:183-196 | speaking pauses, paused resumes at the same chunk, and idle starts from the first non-empty chunk |
| ReaderView.Player.Stop | client/src/components/ReaderView.tsx:198-203 | playback stops and the highlight clears |
| ReaderView.Player.Restart | client/src/components/ReaderView.tsx:205-211 | playback restarts at the first non-empty chunk, or stops when there is none |
| ReaderView.Player.UpdateSettingsWhileSpeaking | client/src/components/ReaderView.tsx:213-218 | while speaking and not paused the current chunk is spoken again; otherwise nothing happens |
| ReaderView.Player.ChangeChapter | client/src/components/ReaderView.tsx:128-133 | a new chapter cancels playback and clears the highlight |
| ReaderView.Player.DecreaseFont | client/src/components/ReaderView.tsx:323 | the font size becomes `FontDown` of the old size |
| ReaderView.Player.IncreaseFont | client/src/components/ReaderView.tsx:329 | the font size becomes `FontUp` of the old size |
| Helpers.FormatDate | client/src/utils/cores/helpers.ts:8-14 | under a minute "Vừa xong", under an hour whole minutes ago, under a day whole hours ago, otherwise the locale date of the timestamp |
| Helpers.FormatDateRanges | client/src/utils/cores/helpers.ts:11-12 | the minute count shown is always 1 to 59 and the hour count 1 to 23 |
| Helpers.FormatNumber | client/src/utils/cores/helpers.ts:19-23 | a million and above is shown in M, a thousand and above in K, smaller numbers as they are |
| Helpers.FormatNumberQuotient | client/src/utils/cores/helpers.ts:20-21 | the K quotient lies in [1, 1000) and the M quotient is at least 1 |
| Helpers.TruncateText | client/src/utils/cores/helpers.ts:37-40 | text within the limit is unchanged; longer text keeps its first `maxLength` characters followed by "..." |
| Helpers.TruncateTextBound | client/src/utils/cores/helpers.ts:37-40 | the result is at most `maxLength + 3` long and truncating it again with the larger limit changes nothing |
| Helpers.HighlightSearch | client/src/utils/cores/helpers.ts:28-29 | a blank query yields the text as its only part |
| Services.Or | client/src/services/services.ts:35-39 | JavaScript `a \|\| b`: the first operand when it is truthy, else the second |
| Services.Unwrap | client/src/services/services.ts:25-30 | a `{success, data}` envelope yields its `data`; any other body is returned as it is |
| Services.UnwrapEnvelope | client/src/services/services.ts:25-26 | unwrapping the server's envelope gives back exactly the payload it wraps |
| Services.ErrorMessage | client/src/services/services.ts:35-39 | the thrown message is the response's `error`, else its `message`, else the transport message, else the call's default |
| Services.ErrorMessageChoice | client/src/services/services.ts:35-39 | the message is always one of those four candidates, and never empty when the default is not |
| Services.ApiCall | client/src/services/services.ts:16-44 | a response resolves to its unwrapped body and a failure rejects with `ErrorMessage` |
| Services.GetNovels | client/src/services/services.ts:161-186 | a failure gives the empty list; an envelope gives its `data` when that is an array; a bare array is returned; anything else gives the empty list |
| Services.GetNovelsIsApiCallThenArray | client/src/services/services.ts:161-186 | `getNovels` is `apiCall` followed by "array or empty", with every error swallowed |
| Services.OrFallback | client/src/services/services.ts:191-200 | the getters that catch: the call's value on success, the fixed fallback on failure |
| Services.NeverThrowingGetters | client/src/services/services.ts:191-262 | `getNovelById` gives null and `searchNovels` the empty list on failure; both give the unwrapped body otherwise |
| Services.FireAndForget | client/src/services/services.ts:331-348 | `incrementReadCount` and `toggleLike` always resolve, whatever the exchange |
| Services.Rethrowing | client/src/services/services.ts:241-248 | the delete calls reject exactly when the exchange fails, with the transport's own message |
| Services.CalculateTotalReads | client/src/services/services.ts:51-54 | a novel without chapters totals 0; otherwise the total is the sum of the chapters' read counts (`SumReads`), non-negative when the counts are |
| Services.CalculateTotalLikes | client/src/services/services.ts:59-62 | a novel without chapters totals 0; otherwise the total is the sum of the chapters' like counts with a missing count as 0 (`SumLikes`), non-negative when the counts are |
| Services.SumReadsNonNegative | client/src/services/services.ts:53 | summing non-negative read counts never goes below 0 |
| Services.SumLikesNonNegative | client/src/services/services.ts:61 | summing non-negative like counts never goes below 0 |
| Services.SumsAppend | client/src/services/services.ts:51-62 | the read and like totals of two chapter lists joined are the sums of their totals |
| Services.MissingLikesCountZero | client/src/services/services.ts:61 | chapters without a like count contribute nothing |
| Services.FormatNumber | client/src/services/services.ts:67-72 | 0 shows as "0"; a million and up in M; a thousand and up in K |
| Services.FormatNumbersAgree | client/src/services/services.ts:67-72 | this formatter gives the same text as the helper module's `formatNumber` for every number |
| ApiFallback.WithFallback | client/src/services/api.ts:17-31 | the response body on success; on failure the fallback value, or the fallback function's result |
| ApiFallback.LocalPart | client/src/services/api.ts:38 | `email.split("@")[0]`: the text before the first `@`, which itself holds no `@` |
| ApiFallback.Login | client/src/services/api.ts:35-41 | on failure the mock user with the given email and its local part as the name |
| ApiFallback.Register | client/src/services/api.ts:43-49 | on failure the mock user overwritten by every given field (the downloaded chapters included), with id "mock-" and the time |
| ApiFallback.UpdateUser | client/src/services/api.ts:51-57 | on failure the mock user overwritten by the given fields |
| ApiFallback.GetNovels | client/src/services/api.ts:60-66 | on failure the mock novels |
| ApiFallback.CreateNovel | client/src/services/api.ts:68-74 | on failure the novel that was sent |
| ApiFallback.UpdateNovelFallback | client/src/services/api.ts:79-83 | with no mock novel of that id the update alone |
| ApiFallback.UpdateNovelFallbackMerges | client/src/services/api.ts:81-82 | with a mock novel of that id the first such novel with the update spread over it |
| ApiFallback.UpdateNovel | client/src/services/api.ts:76-86 | on success the response body, on failure `UpdateNovelFallback` |
| ApiFallback.DeleteNovel | client/src/services/api.ts:88-94 | deleting always resolves, whether or not the server answered |
| ClientTypes.Merge | client/src/hooks/useNovels.ts:33 | `{...n, ...updates}`: each field the update carries replaces the novel's, every other field is kept |
| ClientTypes.MergeLaws | client/src/hooks/useNovels.ts:33 | merging nothing changes nothing, and merging the same update twice equals merging it once |
| NovelFilters.FilterSteps | client/src/hooks/useNovelFilters.ts:9-28 | the three successive filters (approved, then the search when the query is non-empty, then the genres when some are selected) keep exactly the novels satisfying all three conditions, in their order |
| NovelFilters.KeptMembers | client/src/hooks/useNovelFilters.ts:9-28 | a novel is kept if and only if it is in the list and passes every condition |
| NovelFilters.GetFilteredNovels | client/src/hooks/useNovelFilters.ts:9-36 | without the "updated" order the kept novels in list order; with it the same novels newest first, as a permutation, with ties in list order; either way exactly the novels that pass |
| HomePage.VisibleNovels | client/src/pages/HomePage.tsx:33-41 | the approved novels, each as often as in the list, newest update first, with ties in list order |
| HomePage.AllGenres | client/src/pages/HomePage.tsx:43-47 | every tag used by some novel, once each, in sorted order |
| HomePage.TaggedExtend | client/src/pages/HomePage.tsx:45 | adding one novel's tags to the set adds exactly those tags |
| HomePage.FilteredNovels | client/src/pages/HomePage.tsx:49-70 | the visible novels matching the search and carrying every selected genre; in list order for relevance, by total reads for popular, newest first for updated, with ties in list order; always a permutation of the matches |
| HomePage.MatchedMembers | client/src/pages/HomePage.tsx:50-57 | a visible novel is in the result if and only if it matches the title or author search and every selected genre |
| HomePage.NoFilterShowsAll | client/src/pages/HomePage.tsx:49-57 | an empty search with no genre selected shows every visible novel |
| HomePage.AllGenresStricterThanAny | client/src/pages/HomePage.tsx:55 | the page requires every selected genre where the shared hook requires any one: every page match is a hook match, and a novel with one of two genres separates them |
| HomePage.Toggled | client/src/pages/HomePage.tsx:72-78 | a selected genre is removed with all its copies, the others staying in order; an unselected one is appended |
| HomePage.WithoutGenre | client/src/pages/HomePage.tsx:75 | removing a genre keeps exactly the other genres |
| HomePage.WithoutGenreAppend | client/src/pages/HomePage.tsx:75 | removing a genre keeps the other genres in selection order: it removes from each part of a joined selection, and keeps a single genre exactly when it differs |
| HomePage.ToggleTwice | client/src/pages/HomePage.tsx:72-78 | toggling an unselected genre twice restores the selection |
| HomePage.HomeFilters.constructor | client/src/pages/HomePage.tsx:25-29 | no search, no genre, relevance order |
| HomePage.HomeFilters.ToggleGenre | client/src/pages/HomePage.tsx:72-78 | the selection becomes `Toggled` of the old one |
| UseNovels.ApplyUpdate | client/src/hooks/useNovels.ts:32-34 | the list keeps its length and every novel with the id gets the update merged in; the others stay |
| UseNovels.ApplyNoChanges | client/src/hooks/useNovels.ts:32-34 | an empty update leaves the list as it was |
| UseNovels.ApplyUpdateIdempotent | client/src/hooks/useNovels.ts:32-34 | applying the same update twice equals applying it once when it does not change ids |
| UseNovels.Without | client/src/hooks/useNovels.ts:68 | no novel with the id remains, every other novel remains, and nothing is added; `WithoutAppend` fixes the order |
| UseNovels.WithoutAppend | client/src/hooks/useNovels.ts:68 | deleting from a concatenation deletes from each part in order, and a single novel is kept exactly when its id differs |
| UseNovels.WithoutAbsent | client/src/hooks/useNovels.ts:68 | removing an id that no novel has leaves the list as it was |
| UseNovels.OrText | client/src/hooks/useNovels.ts:45-49 | a present non-empty text, else the default |
| UseNovels.PayloadDefaults | client/src/hooks/useNovels.ts:44-51 | every text field of the payload is non-empty; each is the novel's value when it has one and the stated default otherwise; tags default to ["Truyện"] |
| UseNovels.NovelsHook.constructor | client/src/hooks/useNovels.ts:7-8 | no novels, loading |
| UseNovels.NovelsHook.LoadNovels | client/src/hooks/useNovels.ts:10-23 | the fetched array, or the empty list when the result is not an array or the call threw; loading ends either way |
| UseNovels.NovelsHook.UpdateNovel | client/src/hooks/useNovels.ts:29-39 | on success the list becomes `ApplyUpdate` of the old one; on failure it is unchanged and the error propagates |
| UseNovels.NovelsHook.CreateNovel | client/src/hooks/useNovels.ts:41-63 | the payload sent is `CreatePayload` of the novel; on success the created novel is appended |
| UseNovels.NovelsHook.DeleteNovel | client/src/hooks/useNovels.ts:65-73 | on success the list becomes `Without` the id; on failure it is unchanged |
| App.ChapterIndexOfOwnId | client/src/App.tsx:55 | with distinct chapter ids, looking a chapter up by its own id finds its position |
| App.ReadChapters | client/src/App.tsx:55-61 | a chapter id that is present yields the list with that chapter's read count one higher and every other chapter unchanged; an absent id yields nothing |
| App.ReadAddsOne | client/src/App.tsx:57-61 | opening a chapter raises the novel's total reads by exactly one |
| App.SumReadsBump | client/src/App.tsx:57-61 | raising one chapter's count by one raises the sum by one |
| App.ReadKeepsIds | client/src/App.tsx:57-61 | counting a read changes no chapter id |
| App.ReadUpdate | client/src/App.tsx:53-61 | an update is sent exactly when someone is logged in and both the novel and the chapter exist |
| App.Commented | client/src/App.tsx:77-93 | the comment goes in front of the chapter's comments; an absent chapter yields nothing |
| App.CommentUpdate | client/src/App.tsx:71-93 | an update is sent exactly when a user is logged in, a novel and a chapter are open and both exist |
| App.NewChapterNumbering | client/src/App.tsx:147-158 | the added chapter is last, numbered one past the old count, titled "Chương n", empty and unread; the others and the total reads are unchanged |
| App.ReaderIndex | client/src/App.tsx:235-238 | a position other than -1 is a valid index into the open novel's chapters |
| App.UpdatedNovelFound | client/src/App.tsx:63 | after a chapters update the novel is at the same position and holds exactly the new chapters |
| App.LibraryNovels | client/src/App.tsx:243-245 | nobody logged in sees none; otherwise exactly the novels whose id is in the user's library |
| App.MyNovels | client/src/App.tsx:247-249 | nobody logged in sees none; otherwise exactly the novels the user wrote |
| App.PendingNovels | client/src/App.tsx:251 | exactly the novels waiting for review |
| App.AppState.constructor | client/src/App.tsx:18-23 | home tab, nothing open, no dialog |
| App.AppState.HandleTabChange | client/src/App.tsx:26-34 | a protected tab without a user opens the login dialog and stays; otherwise the tab changes and profile editing ends unless the tab is the profile |
| App.AppState.HandleReadChapter | client/src/App.tsx:49-69 | the chapter is opened, and the list becomes `AfterRead` of the old one: its read count is raised when `ReadUpdate` allows and the save succeeds |
| App.AppState.HandleAddComment | client/src/App.tsx:71-101 | the list takes `CommentUpdate` when there is one and the save succeeds; otherwise it is unchanged |
| App.AppState.HandleAddChapter | client/src/App.tsx:143-162 | an existing novel gets `NewChapter` appended when the save succeeds |
| App.AppState.HandleSubmitForReview | client/src/App.tsx:179-194 | refused for a missing novel or one without chapters; otherwise the novel becomes pending when the save succeeds |
| App.AppState.HandleApproveNovel | client/src/App.tsx:196-205 | the novel becomes approved when the save succeeds |
| App.AppState.HandleRejectNovel | client/src/App.tsx:207-216 | the novel becomes rejected when the save succeeds |
| App.AppState.Step | client/src/App.tsx:49-69 | opening an existing chapter of an existing novel puts the reader at that chapter's position, and the list is `AfterRead` of the old one |
| App.AfterRead | client/src/App.tsx:49-69 | the list after opening a chapter: only the opened novel can change, and nothing changes when there is nothing to write back or the save throws |
| App.AppState.OnPrev | client/src/App.tsx:272-283 | with a previous chapter the reader moves to it, one position back, and the list is `AfterRead` for that chapter; at the first chapter nothing changes |
| App.AppState.OnNext | client/src/App.tsx:277-283 | with a next chapter the reader moves to it, one position on, and the list is `AfterRead` for that chapter; at the last chapter nothing changes |
| EditProfile.Check | client/src/components/EditProfileForm.tsx:24-41 | a blank name is refused first; without password fields nothing else is checked; with one, a wrong old password and then a new one under 6 characters are refused |
| EditProfile.HandleSave | client/src/components/EditProfileForm.tsx:24-50 | refused exactly when `Check` finds a problem; otherwise the update holds the name, the avatar and the new password only when one was typed, and nothing else |
| EditProfile.SavedProfile | client/src/components/EditProfileForm.tsx:24-50 | a saved profile keeps id, email and role, has a non-blank name, and changes the password only after the old one was confirmed and to one of at least 6 characters |
| EditProfile.NoPasswordNoChecks | client/src/components/EditProfileForm.tsx:25-30 | with both password fields empty a save succeeds exactly when the name is not blank |
| AuthModal.Validate | client/src/components/AuthModal.tsx:37-60 | accepted exactly when email and password are not blank and, for registering, the name is not blank; a blank email or password gives the credentials message |
| AuthModal.ValidatedFieldsPresent | client/src/components/AuthModal.tsx:37-60 | an accepted form sends non-empty fields |
| AuthModal.AuthForm.constructor | client/src/components/AuthModal.tsx:14-20 | login mode, empty fields, no error, not loading |
| AuthModal.AuthForm.HandleAuth | client/src/components/AuthModal.tsx:34-78 | an invalid form shows its message and sends nothing; a valid one sends the login or the register request; success logs in and closes; a failure shows its message or the generic one; loading ends |
| AuthModal.AuthForm.SetMode | client/src/components/AuthModal.tsx:88-102 | switching mode clears the error |
| AuthModal.AuthForm.FillDemoAccount | client/src/components/AuthModal.tsx:22-32 | the admin or user demo email, with the password "password" |
| ServerTypes.NovelCollection.constructor | api/src/models/Novel.ts:33 | an empty collection, in which every novel is trivially stored under its own unique id |
| ServerTypes.NovelCollection.Select | api/src/controllers/adminController.ts:72 | `Novel.find(filter)`: exactly the stored novels that satisfy the filter, each once |
| ServerTypes.UserCollection.constructor | api/src/models/User.ts:6-7 | an empty collection, in which ids and emails are trivially unique |
| ChapterController.Locate | api/src/controllers/chapterController.ts:72-88 | "no novel" exactly when the id is not stored; "no chapter" only when no chapter has the id; otherwise the first chapter with the id |
| ChapterController.NotFound | api/src/controllers/chapterController.ts:72-88 | a 404 naming the novel or the chapter, whichever is missing |
| ChapterController.NewChapter | api/src/controllers/chapterController.ts:32-42 | the body's title, content and order, zero reads and likes, no comments, published now |
| ChapterController.UpdatedChapter | api/src/controllers/chapterController.ts:90-96 | each field the body carries replaces the chapter's; nothing else changes |
| ChapterController.CountedRead | api/src/controllers/chapterController.ts:219 | the read count, taken as 0 when missing, goes up by one and nothing else changes |
| ChapterController.Liked | api/src/controllers/chapterController.ts:262 | the like count, taken as 0 when missing, goes up by one and nothing else changes |
| ChapterController.ToggleTwiceAddsTwo | api/src/controllers/chapterController.ts:262 | "toggling" twice adds two likes: the handler never removes a like |
| ChapterController.CreateChapter | api/src/controllers/chapterController.ts:7-59 | missing fields give 400 before the novel is looked up; an unknown novel gives 404; otherwise the new chapter is appended to the novel and returned with 201 |
| ChapterController.UpdateChapter | api/src/controllers/chapterController.ts:61-110 | 404 for a missing novel or chapter; otherwise exactly that chapter is updated and returned |
| ChapterController.DeleteChapter | api/src/controllers/chapterController.ts:112-151 | 404 for a missing novel or chapter; otherwise exactly that chapter is removed |
| ChapterController.GetChapter | api/src/controllers/chapterController.ts:153-190 | 200 with a chapter of that id exactly when the novel has one, else 404 |
| ChapterController.IncrementReadCount | api/src/controllers/chapterController.ts:194-233 | 404 for a missing novel or chapter; otherwise only that chapter's read count goes up by one |
| ChapterController.ToggleLike | api/src/controllers/chapterController.ts:237-276 | 404 for a missing novel or chapter; otherwise only that chapter's like count goes up by one |
| ChapterController.ServerAppendsClientPrepends | api/src/controllers/chapterController.ts:318-327 | the server puts a new comment last, which differs from the client's newest-first order whenever there were other comments |
| ChapterController.AddComment | api/src/controllers/chapterController.ts:280-342 | missing fields give 400 first; a missing novel or chapter 404; otherwise the comment is appended to exactly that chapter and returned with 201 |
| ChapterController.DeleteComment | api/src/controllers/chapterController.ts:344-392 | 404 for a missing novel, chapter or comment; otherwise the first comment with the id is removed from that chapter |
| NovelController.Names | api/src/controllers/novelController.ts:35-40 | one body key per field, in the same order |
| NovelController.MissingFields | api/src/controllers/novelController.ts:34-40 | exactly the missing fields, each once; an empty description is not missing |
| NovelController.MissingFieldsInOrder | api/src/controllers/novelController.ts:34-40 | the missing fields come in the fixed order authorId, authorName, title, description, coverUrl |
| NovelController.CollectMissing | api/src/controllers/novelController.ts:34-40 | the pushes one by one build `MissingFields` |
| NovelController.EmptyDescriptionAccepted | api/src/controllers/novelController.ts:38 | an empty description passes the check while an empty title does not |
| NovelController.MissingMessageExample | api/src/controllers/novelController.ts:41-47 | the refusal names the missing keys joined by ", " after "Missing required fields: " |
| NovelController.ClientPayloadAccepted | api/src/controllers/novelController.ts:34-47 | every payload the client's `createNovel` builds passes the server's check |
| NovelController.NewNovel | api/src/controllers/novelController.ts:49-59 | id "novel-" and the time, a draft with no chapters, the body's fields, tags defaulting to none |
| NovelController.CreateNovel | api/src/controllers/novelController.ts:26-74 | missing fields give 400 with the message; a taken id gives 500; otherwise the draft is stored and returned with 201 |
| NovelController.GetNovels | api/src/controllers/novelController.ts:6-24 | every stored novel once, most recently updated first |
| NovelController.Patched | api/src/controllers/novelController.ts:84-91 | each field the update carries replaces the novel's; id, author and chapters are kept |
| NovelController.PatchedNothing | api/src/controllers/novelController.ts:84-91 | an update with no keys leaves the novel as it was |
| NovelController.UpdateNovel | api/src/controllers/novelController.ts:76-105 | 404 for an unknown id; otherwise only that novel is patched and returned |
| NovelController.DeleteNovel | api/src/controllers/novelController.ts:107-133 | 404 for an unknown id; otherwise exactly that novel is removed |
| AdminController.WithBan | api/src/controllers/adminController.ts:40-42 | the role becomes BANNED or USER as the flag says; nothing else changes |
| AdminController.UnbanDemotesAdmin | api/src/controllers/adminController.ts:40-42 | banning then unbanning an administrator leaves a plain user, and even unbanning alone demotes one |
| AdminController.BanUser | api/src/controllers/adminController.ts:27-56 | 404 for an unknown user; otherwise only that user's role changes |
| AdminController.StatusQueryIgnoresCase | api/src/controllers/adminController.ts:72 | the status query matches without regard to case |
| AdminController.ApprovedQuery | api/src/controllers/adminController.ts:72 | `?status=approved` selects exactly the approved novels |
| AdminController.GetNovelsByStatus | api/src/controllers/adminController.ts:61-84 | a missing or empty status gives 400; otherwise exactly the novels whose stored status is the upper-cased query, each once |
| AdminController.GetAllNovels | api/src/controllers/adminController.ts:89-104 | exactly the stored novels that are not drafts, each once |
| AdminController.SetStatus | api/src/controllers/adminController.ts:114-125 | 404 for an unknown id; otherwise only that novel's status changes |
| AdminController.ApproveNovel | api/src/controllers/adminController.ts:109-139 | 404 for an unknown id; otherwise the novel becomes approved and nothing else changes |
| AdminController.RejectNovel | api/src/controllers/adminController.ts:144-175 | 404 for an unknown id; otherwise the novel becomes rejected, the reason is not stored, and nothing else changes |
| AdminController.DeleteNovel | api/src/controllers/adminController.ts:180-203 | 404 for an unknown id; otherwise exactly that novel is removed |
| AuthController.NewUser | api/src/controllers/authController.ts:30-39 | id "user-" and the time, a plain user with the body's email, password and name, an empty library, and an avatar only when a non-empty one was given |
| AuthController.Register | api/src/controllers/authController.ts:6-54 | missing fields give 400; a taken email gives 400; a taken id gives 500; otherwise the user is stored and returned with 201, emails staying unique |
| AuthController.Login | api/src/controllers/authController.ts:56-92 | missing fields give 400; 200 with a stored user whose email and password both match exactly when one exists; otherwise 401 |
| AuthController.UpdatedUser | api/src/controllers/authController.ts:102-109 | each field the body carries replaces the user's; nothing else changes |
| AuthController.UpdateUser | api/src/controllers/authController.ts:94-123 | 404 for an unknown user; otherwise only that user is updated and returned |
| Lists.Filter | client/src/hooks/useNovelFilters.ts:10 | `Array.prototype.filter`: every kept element is in the list and passes, and every passing element is kept |
| Lists.FilterAppend | client/src/hooks/useNovelFilters.ts:10 | filtering a joined list is joining the filtered parts |
| Lists.FilterCompose | client/src/hooks/useNovelFilters.ts:10-28 | two successive filters equal one filter by the conjunction |
| Lists.FindIndex | client/src/App.tsx:55 | `findIndex`: the first index whose element passes, or -1 exactly when none does |
| Lists.RemoveAtKeepsRest | api/src/controllers/chapterController.ts:137 | `splice(k, 1)`: the elements before k stay, those after move down by one, and exactly one copy of the k-th is gone |
| Sorting.SortDesc | client/src/hooks/useNovelFilters.ts:31-33 | a descending comparator sort: ordered by the key, largest first, a permutation of its input, and stable: the elements of each key keep their input order |
| Sorting.SortDescAllTied | client/src/hooks/useNovelFilters.ts:32 | when every key is equal the comparator sort leaves the list as it was |
| Text.LexSort | client/src/pages/HomePage.tsx:46 | the default `Array.prototype.sort` on strings: ordered by code units, and a permutation of its input |
| Text.ToLower | client/src/hooks/useNovelFilters.ts:14 | `toLowerCase` on ASCII letters, character by character, same length |
| Text.TrimEmptyIffBlank | client/src/components/AuthModal.tsx:37 | `trim()` is empty exactly when the text is all white space |
| Text.SplitJoin | client/src/components/ReaderView.tsx:100 | `split` on a character: joining the parts back gives the text, and no part holds the separator |
| Text.NatToStringRoundTrip | api/src/controllers/novelController.ts:50 | the decimal text of a time stamp reads back as that number |
| Text.NatToStringInjective | api/src/controllers/novelController.ts:50 | different time stamps give different ids |

## Left out

- Real I/O is not modelled: IndexedDB engine errors, Cache Storage quota failures, network latency, `console` logging, `message` toasts and page reloads. A reload is recorded as a flag.
- Floating-point rendering is not modelled. `toFixed(1)` and `toLocaleDateString('vi-VN')` are kept as values (a quotient with its suffix, a date stamp), not as characters. The offline reader's `readProgress` is a real number, not an IEEE double.
- OfflineStore.IndexedDBService.GetStorageInfo: the floating-point `percentUsed` ratio is not part of the result. The usage, quota and counts are.
- Helpers.HighlightSearch: only the blank-query case is modelled. Splitting on a user-supplied regular expression is not.
- Helpers: `isMobile`, `getMobileOS`, the `localStorage` wrappers, `debounce` and `copyToClipboard` are not modelled. They are browser I/O, and the core does not use them.
- Text.ToLower and Text.ToUpper fold ASCII letters only. JavaScript's full Unicode case mapping, and code-unit string ordering for characters outside the Basic Multilingual Plane, are not modelled.
- ReaderView: the speech callbacks (`onend`, `onerror`), voice selection, rate and pitch are not modelled. The queue texts handed to the synthesiser are recorded in order. The date line of the view is not modelled, because it is rendering only.
- ReaderView.Player.TogglePlay: the stale-closure behaviour of React state inside speech callbacks is not modelled. State is read as current.
- HomePage.FilteredNovels: `new Date(x.updatedAt).getTime()` of a missing timestamp is NaN in JavaScript, and a comparator returning NaN leaves the order engine-dependent. The model takes a missing timestamp as 0, as `visibleNovels` does.
- UseNovels.NovelsHook.CreateNovel takes the novel the API resolved to as an input. The mock fallback that `api.createNovel` would supply is `ApiFallback.CreateNovel`.
- App: `handleCreateNovel`, `handleSaveChapterContent`, `handleDeleteNovel`, `handleLogin`, `handleLogout` and `handleToggleSaveToLibrary` are not modelled. They forward to hooks modelled elsewhere (`UseNovels`) or to the authentication hook, which is not part of this model.
- App.AppState.OnPrev and App.AppState.OnNext: the exact one-step move is proved only when the novel's chapter ids are distinct. The code looks the opened chapter up again by id, so a duplicate id would land on its first copy.
- OfflineReader: a change of the `novelId` prop while mounted, with a stale index, is not modelled. The reader is modelled for one load per mount.
- DownloadModal: the remote novel is described by the fields the code reads. These are `author?.name`, `genre`, `viewCount`, `rating` and `chapters[].chapterNumber`.
- OfflineStore.IndexedDBService.IndexGetAll: the order in which the engine returns records for string keys is not modelled. Results are specified as sets of records, plus sortedness where the code sorts.
- NovelController, ChapterController and AdminController: Mongoose's `timestamps` option bumps a novel's `updatedAt` on every `save` and `findOneAndUpdate`. The model sets `updatedAt` when the novel is created and never moves it afterwards, so `GetNovels` orders by creation time. The timestamps of users are not modelled.
- NovelController.CreateNovel: the schema's `required` validator on `description` is not modelled. That validator would reject an empty description at save time, which the handler's own check lets through.
- NovelController.UpdateNovel and AuthController.UpdateUser: `findOneAndUpdate` writes any extra keys of the request body, such as `chapters` sent by the client. Only the documented keys are modelled.
- Server controllers: a failing store operation (status 500 with the driver's message) is not modelled. The one exception is a second `Date.now()` in the same millisecond giving an id that is already taken, which is modelled as status 500 with "duplicate key".
- ChapterController.NewChapter and ChapterController.NewComment: the source reads `Date.now()` twice, for the id and for the timestamp. The model uses one `now` for both.
- AdminController: `getAllUsers` (a plain `find` with the password projected away) is not modelled.
- AuthController.Login: passwords are stored and compared in clear, as the code does. Hashing is not modelled.
- OfflineStore.IndexedDBService: every public method of the source awaits `init()` first and rejects once the open has failed. The model's store methods do not consult `initState`, so after `OpenFailed` they still read and write; the rejected calls are not modelled.
- ServiceWorker.HandleApi: the store tier uses the corrected `TryStoreFallback`, not the code as written. As written, an offline `/novels` request with a cache miss and an open store answers 200 with an empty `data` object (see Findings).
- Helpers.TruncateText: lengths and cut points count Unicode scalar values, while JavaScript's `length` and `substring` count UTF-16 code units. Text outside the Basic Multilingual Plane is cut at a different point.
- EditProfile.Check: the minimum password length counts Unicode scalar values, while JavaScript's `length` counts UTF-16 code units. A password of three characters outside the Basic Multilingual Plane is six code units, and the source accepts it where the model refuses it.
- App.NewComment and App.NewChapter: `App.tsx` reads `Date.now()` twice, once for the id and once for the timestamp. The model uses one `now` for both.
- ChapterController.UpdateChapter: the schema's `required` validator on a chapter's `title` and `content` is not modelled. An update to an empty title or content would fail at `save()` with status 500, where the model answers 200.
- DownloadModal.Modal.HandleDownload: `DownloadNovelModal.tsx` imports `novelAPI` and `chapterAPI` from `services/api`, which exports only `api`. The two objects are exported by `services/services.ts`, and the model assumes the download calls those.

## Findings

| source | as written | input that shows it | evidently intended | confidence | as-written member | corrected member |
|---|---|---|---|---|---|---|
| client/public/service-worker.js:398-439 | `tryIndexedDBFallback` awaits `IDBRequest` objects, which are not promises. So `chapters` and `novel` are the request objects themselves, the reply's `data` serialises to `{}`, and a novel always counts as found | GET `/api/novels/n1` while offline, with an empty offline store and no cached response | answer with the stored chapters, or with the stored novel or null, as the offline store holds them | not executed | ServiceWorker.TryStoreFallbackAsWritten, ServiceWorker.AsWrittenAnswersForMissingNovel | ServiceWorker.TryStoreFallback |
