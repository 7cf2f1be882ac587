# ImHex core: provider registry, editor stores, find/replace bookkeeping, langtool

A Dafny model of four parts of ImHex, with proofs of what they promise.

- **Provider registry** (`ImHexApi::Provider`). The registry holds an ordered
  list of open providers, a signed current index that starts at -1, and a list
  of providers being closed. Every mutator first asks the task manager how many
  tasks are running and does nothing while any are. `add` appends a provider
  and selects it when asked to or when it is the only one. `setCurrentProvider`
  switches only to an in-range, different index and posts ProviderChanged.
  `remove` asks the ProviderClosing subscribers, fixes the selection up in three
  branches, closes the provider, and queues a deferred half. The third branch
  of that fix-up is modelled in corrected form (see "## Findings"); the code's
  own version is `ProviderSpec.ReindexAsWritten`. The deferred half
  erases the provider, clamps the index and announces an empty registry.
  `ProviderSpec` states all of this as functions over a value `State` that
  holds an event log, the running-task count and the queue of deferred halves.
  `ProviderRegistry.Registry` is a class whose fields are updated in place.
  Each of its methods is proved to move the registry exactly as the matching
  `ProviderSpec` function says, so `Registry.Remove` runs the corrected
  fix-up too.
- **Hex editor stores** (`ImHexApi::HexEditor`). There are six maps keyed by
  u32: background and foreground highlights, their highlighting providers,
  tooltips and tooltip providers. Each has its own counter that is incremented
  before use. Highlight changes post HighlightingChanged; tooltip changes post
  nothing. Also `isSelectionValid`, `getInitArgument`/`addInitArgument`, the
  forward-event handler map, and the u16 glyph ranges handed to the font loader.
- **Pattern editor** (`ViewPatternEditor`). The 256-slot find and replace
  histories with `historyInsert` and arrow-key browsing, the match counter
  text, the counter bookkeeping after replace and replace-all, the console
  tokenizer and log-line prefixes, and (module `PlaceArray`) the element count
  of "place array".
- **langtool** (`dist/langtool.py`). It makes each translation file carry
  exactly the keys of the `en_US.json` template. A missing key is reported
  (check, exit status 2), asked for (translate) or filled with a marker
  (update). Keys the template lacks are removed.

Files: `wrappers.dfy` (Option), `machine_int.dfy` (u16/u32/u64 and wrap-around),
`provider_spec.dfy`, `provider_registry.dfy`, `provider_scenarios.dfy`, `hex_editor.dfy`, `system_api.dfy`,
`find_history.dfy`, `find_replace.dfy`, `console_log.dfy`, `place_array.dfy`, `langtool.dfy`.

Some behaviours of the code worth noting, all kept in the model:

- Providers A, B, C are open and C is current; closing A selects index 0, which
  is B after the erase, not C. The code takes the "first position" branch
  before it looks at the current index.
- Closing the first provider while another one is current posts two
  ProviderChanged events: one back to the first provider and one from it to the
  second provider (`ProviderScenarios.ScenarioSelectSecondCloseFirst`).
- A vetoed removal leaves its entry in the closing list. The entry is pushed
  before the subscribers answer, and nothing removes it.
- After the last provider is removed, the current index stays 0. It does not
  go back to -1, because the clamp requests index 0 and that request is refused
  on an empty list.

## Model

| member | source | states |
|---|---|---|
| `ProviderSpec.Ids` | lib/libimhex/source/api/imhex_api.cpp:253-260 | getProviders returns one identity per provider, in registry order |
| `ProviderSpec.Get` | lib/libimhex/source/api/imhex_api.cpp:246-251 | get() is null exactly when isValid() fails, and otherwise is the provider at the current index |
| `ProviderSpec.IsValid` | lib/libimhex/source/api/imhex_api.cpp:277-279 | isValid(): some provider is open and the current index is in range |
| `ProviderSpec.ValidIffNonEmpty` | lib/libimhex/source/api/imhex_api.cpp:277-279 | under the registry invariant, isValid() holds and get() is non-null exactly when some provider is open |
| `ProviderSpec.AnyDirty` | lib/libimhex/source/api/imhex_api.cpp:290-294 | isDirty() holds iff some provider is dirty |
| `ProviderSpec.IndexOf` | lib/libimhex/source/api/imhex_api.cpp:326-328 | find_if returns the first position holding that identity |
| `ProviderSpec.IndexOfUnique` | lib/libimhex/source/api/imhex_api.cpp:347-353 | with unique providers, searching for the provider at position k finds k |
| `ProviderSpec.Without` | lib/libimhex/source/api/imhex_api.cpp:372 | std::erase removes every occurrence of the provider from the closing list: membership, and the multiset loses exactly that value's copies |
| `ProviderSpec.WithoutConcat` | lib/libimhex/source/api/imhex_api.cpp:372 | std::erase keeps the order of what it keeps: erasing from a concatenation erases from each part |
| `ProviderSpec.Erase` | lib/libimhex/source/api/imhex_api.cpp:374 | erasing removes the provider's element and shifts the later ones down by one, keeping their order; an absent provider changes nothing |
| `ProviderSpec.EraseUnique` | lib/libimhex/source/api/imhex_api.cpp:374 | after the erase the providers stay unique, and the registered set loses exactly that provider |
| `ProviderSpec.SetCurrent` | lib/libimhex/source/api/imhex_api.cpp:262-271 | gated by running tasks; changes state iff the index is in range and differs from the current one; then sets it and posts ProviderChanged(old get(), new get()); keeps the invariant |
| `ProviderSpec.Add` | lib/libimhex/source/api/imhex_api.cpp:296-308 | gated: no change while tasks run; otherwise posts ProviderCreated first and appends the provider, with skipLoadInterface applied |
| `ProviderSpec.Appended` | lib/libimhex/source/api/imhex_api.cpp:300-304 | the first half of add(): the provider, with skipLoadInterface applied, is appended, ProviderCreated is posted, and nothing else changes |
| `ProviderSpec.AppendUnique` | lib/libimhex/source/api/imhex_api.cpp:304 | appending a provider that is not yet registered keeps identities unique |
| `ProviderSpec.AddPreservesInv` | lib/libimhex/source/api/imhex_api.cpp:296-308 | add keeps the registry invariant |
| `ProviderSpec.AddSelection` | lib/libimhex/source/api/imhex_api.cpp:303-307 | the new provider becomes current iff select is set or it is the only one; ProviderChanged follows ProviderCreated exactly when the index moves, so a stale index 0 posts no change |
| `ProviderSpec.MarkDirty` | lib/libimhex/source/api/imhex_api.cpp:281-283 | the current provider becomes dirty with its other fields unchanged; no other provider, the selection, the closing list, the events and the task state change; the invariant is kept; the caller must ensure a provider is current |
| `ProviderSpec.ClearDirty` | lib/libimhex/source/api/imhex_api.cpp:285-288 | every provider's dirty flag is cleared and nothing else about it changes |
| `ProviderSpec.ResetDirty` | lib/libimhex/source/api/imhex_api.cpp:285-288 | after resetDirty no provider is dirty and each provider is the old one with only its dirty flag cleared; selection, closing list, events and tasks are unchanged |
| `ProviderSpec.ReindexAsWritten` | lib/libimhex/source/api/imhex_api.cpp:333-364 | the three-branch fix-up as written leaves the providers alone, posts at most two ProviderChanged and nothing else, and keeps the invariant |
| `ProviderSpec.AsWrittenRequestsPrevious` | lib/libimhex/source/api/imhex_api.cpp:345-358 | in the third branch the current provider is always found at the current index, so current-1 is always requested |
| `ProviderSpec.Reindex` | lib/libimhex/source/api/imhex_api.cpp:333-364 | the corrected fix-up: same frame and event guarantees; agrees with the code in the first two branches |
| `ProviderSpec.SelectFirst` | lib/libimhex/source/api/imhex_api.cpp:335-340 | closing position 0: index 0 is requested through setCurrentProvider, and exactly when a second provider exists ProviderChanged(at(0), at(1)) is posted after it; providers untouched, invariant kept |
| `ProviderSpec.Relocate` | lib/libimhex/source/api/imhex_api.cpp:343-358 | the corrected third branch: only the selection and ProviderChanged events change, and the invariant is kept |
| `ProviderSpec.ReindexCurrent` | lib/libimhex/source/api/imhex_api.cpp:333-358 | with no task running and two or more providers, the fix-up (third branch corrected) selects 0 (first closed), k-1 (current closed), current-1 (an earlier one closed) or keeps current (a later one closed; the code selects current-1 here) |
| `ProviderSpec.Ask` | lib/libimhex/source/api/imhex_api.cpp:317-321 | unless noQuestions is set, the provider joins the closing list and ProviderClosing is posted, before the veto is known |
| `ProviderSpec.Remove` | lib/libimhex/source/api/imhex_api.cpp:310-369 | null or gated calls change nothing; a veto, or an unknown provider, leaves only the closing entry and the ProviderClosing event; a confirmed removal goes through `Close`, with the corrected fix-up; the invariant is kept |
| `ProviderSpec.RemoveConfirmed` | lib/libimhex/source/api/imhex_api.cpp:317-370 | a confirmed removal closes exactly that provider and touches no other one; it queues the deferred half; the events are ProviderClosing (if asked), at most two ProviderChanged, then one ProviderClosed and the window-title refresh |
| `ProviderSpec.VetoKeepsProvider` | lib/libimhex/source/api/imhex_api.cpp:317-323 | a vetoed removal keeps providers and selection, adds the closing entry and ProviderClosing only, and queues nothing |
| `ProviderSpec.Close` | lib/libimhex/source/api/imhex_api.cpp:333-370 | the confirmed part of remove(): the selection fix-up (third branch corrected), then the provider at k is closed, ProviderClosed and the title update are posted and its deferred half is queued; the invariant is kept |
| `ProviderSpec.FinishRemoval` | lib/libimhex/source/api/imhex_api.cpp:370-380 | the deferred half erases the provider from the registry and from every closing-list slot and dequeues itself; the index falls back to 0 exactly when it is past the end of a non-empty registry, and the events are ProviderDeleted, then ProviderChanged(null, first) for that fallback, then ProviderChanged(provider, null) exactly when the registry is now empty; the invariant is kept |
| `ProviderSpec.Dequeued` | lib/libimhex/source/api/imhex_api.cpp:370-374 | the deferred half's first steps: it dequeues itself, posts ProviderDeleted and erases the provider from the closing list and the registry |
| `ProviderSpec.Settled` | lib/libimhex/source/api/imhex_api.cpp:376-380 | after the erase the index falls back to 0 exactly when it is past the end of a non-empty registry (posting ProviderChanged(null, first)), and ProviderChanged(provider, null) is posted exactly when the registry is empty; the invariant is restored |
| `ProviderSpec.RemoveShape` | lib/libimhex/source/api/imhex_api.cpp:317-370 | a confirmed removal with no other in flight closes exactly the provider at its position, queues exactly its deferred half and keeps the invariant |
| `ProviderSpec.FinishRemovalErases` | lib/libimhex/source/api/imhex_api.cpp:370-380 | the deferred half erases the provider from the registry and the closing list, keeps every other provider, and for the last provider ends empty with ProviderChanged(provider, null) |
| `ProviderSpec.FinishRemovalKeepsIndex` | lib/libimhex/source/api/imhex_api.cpp:376-378 | an index that stays in range after the erase is kept, so the provider now at that index is current |
| `ProviderSpec.RemovalCompletes` | lib/libimhex/source/api/imhex_api.cpp:310-380 | a removal and its deferred half remove exactly that provider from the registry and the closing list and keep the invariant; removing the last provider leaves no current provider and ends with ProviderChanged(provider, null) |
| `ProviderSpec.RemovalSelection` | lib/libimhex/source/api/imhex_api.cpp:333-380 | with two or more providers, after a removal (third branch corrected) and its deferred half, the current provider is the old second one (first removed), the previous one (current removed) or the same one as before (any other removed) |
| `ProviderSpec.AsWrittenLosesSelection` | lib/libimhex/source/api/imhex_api.cpp:345-358 | as written, removing a provider after a current provider other than the first leaves a different provider selected after the erase |
| `ProviderSpec.AsWrittenCounterexample` | lib/libimhex/source/api/imhex_api.cpp:352-358 | providers 1, 2, 3 with 2 current: closing 3 as written ends with 1 selected; the corrected fix-up changes nothing |
| `ProviderScenarios.OpenFirst` | lib/libimhex/source/api/imhex_api.cpp:296-308 | opening the first provider without `select` still selects it and posts ProviderCreated then ProviderChanged(null, it) |
| `ProviderScenarios.OpenSecondUnselected` | lib/libimhex/source/api/imhex_api.cpp:296-308 | opening a second provider without `select` posts ProviderCreated only and keeps the selection |
| `ProviderScenarios.SelectSecond` | lib/libimhex/source/api/imhex_api.cpp:262-271 | selecting index 1 posts ProviderChanged(A, B) |
| `ProviderScenarios.ReselectFirstOfTwo` | lib/libimhex/source/api/imhex_api.cpp:335-340 | closing position 0 while B is current re-selects A and then announces A -> B |
| `ProviderScenarios.CloseFirstWhileSecondCurrent` | lib/libimhex/source/api/imhex_api.cpp:310-370 | closing A with questions while B is current: the exact closing list, events, selection and queued deferred half |
| `ProviderScenarios.FinishClosingFirstOfTwo` | lib/libimhex/source/api/imhex_api.cpp:370-380 | the deferred half of closing A leaves B alone at index 0 and posts ProviderDeleted(A) |
| `ProviderScenarios.OpenThreeSelected` | lib/libimhex/source/api/imhex_api.cpp:296-308 | opening A, B, C each with `select` leaves C current |
| `ProviderScenarios.CloseFirstWhileThirdCurrent` | lib/libimhex/source/api/imhex_api.cpp:333-340 | closing A without questions while C is current requests index 0 |
| `ProviderScenarios.FinishClosingFirstOfThree` | lib/libimhex/source/api/imhex_api.cpp:370-380 | after the deferred half B and C remain and index 0 is kept |
| `ProviderScenarios.ScenarioSelectSecondCloseFirst` | lib/libimhex/source/api/imhex_api.cpp:262-380 | open A, open B, select B, close A: the whole event sequence, with B alone and current at the end |
| `ProviderScenarios.ScenarioCloseFirstOfThree` | lib/libimhex/source/api/imhex_api.cpp:296-380 | open A, B, C (each selected), close A: B, not C, is current afterwards |
| `ProviderRegistry.TaskManager.constructor` | lib/libimhex/source/api/imhex_api.cpp:263-264 | no task running and no deferred work at start |
| `ProviderRegistry.TaskManager.TaskStarted` | lib/libimhex/source/api/imhex_api.cpp:263-264 | the running-task count the gates read goes up by one |
| `ProviderRegistry.TaskManager.TaskFinished` | lib/libimhex/source/api/imhex_api.cpp:263-264 | the running-task count goes down by one |
| `ProviderRegistry.TaskManager.RunWhenTasksFinished` | lib/libimhex/source/api/imhex_api.cpp:370 | the deferred half is queued behind earlier ones |
| `ProviderRegistry.TaskManager.TakeNext` | lib/libimhex/source/api/imhex_api.cpp:370-380 | the oldest deferred half is taken, only while no task runs |
| `ProviderRegistry.Registry.constructor` | lib/libimhex/source/api/imhex_api.cpp:230-235 | an empty registry with current index -1 and an empty closing list, satisfying the invariant |
| `ProviderRegistry.Registry.GetProviders` | lib/libimhex/source/api/imhex_api.cpp:253-260 | the copying loop returns `Ids` of the providers |
| `ProviderRegistry.Registry.IsDirty` | lib/libimhex/source/api/imhex_api.cpp:290-294 | the scan returns true iff some provider is dirty |
| `ProviderRegistry.Registry.Find` | lib/libimhex/source/api/imhex_api.cpp:326-331 | the search ends before the end iff the provider is registered, and then at its first position |
| `ProviderRegistry.Registry.SetCurrentProvider` | lib/libimhex/source/api/imhex_api.cpp:262-271 | moves the registry exactly as `ProviderSpec.SetCurrent` |
| `ProviderRegistry.Registry.Add` | lib/libimhex/source/api/imhex_api.cpp:296-308 | moves the registry exactly as `ProviderSpec.Add` and keeps the invariant |
| `ProviderRegistry.Registry.MarkDirty` | lib/libimhex/source/api/imhex_api.cpp:281-283 | moves the registry exactly as `ProviderSpec.MarkDirty`: the current provider becomes dirty and nothing else changes |
| `ProviderRegistry.Registry.ResetDirty` | lib/libimhex/source/api/imhex_api.cpp:285-288 | the loop clears every dirty flag, as `ProviderSpec.ResetDirty` |
| `ProviderRegistry.Registry.ResetClosingProviders` | lib/libimhex/source/api/imhex_api.cpp:236-238 | the closing list is emptied and nothing else changes |
| `ProviderRegistry.Registry.Remove` | lib/libimhex/source/api/imhex_api.cpp:310-370 | moves the registry exactly as `ProviderSpec.Remove`, so with the corrected third branch, and keeps the invariant |
| `ProviderRegistry.Registry.FixSelection` | lib/libimhex/source/api/imhex_api.cpp:333-364 | the three branches, the third one corrected, moving the registry as `ProviderSpec.Reindex` |
| `ProviderRegistry.Registry.CloseAt` | lib/libimhex/source/api/imhex_api.cpp:333-370 | moves the registry exactly as `ProviderSpec.Close` (third branch corrected) |
| `ProviderRegistry.Registry.SelectFirstProvider` | lib/libimhex/source/api/imhex_api.cpp:335-340 | moves the registry exactly as `ProviderSpec.SelectFirst`: index 0 requested, then ProviderChanged(at(0), at(1)) exactly when a second provider exists |
| `ProviderRegistry.Registry.RelocateCurrent` | lib/libimhex/source/api/imhex_api.cpp:343-358 | moves the registry exactly as the corrected `ProviderSpec.Relocate` |
| `ProviderRegistry.Registry.AppendProvider` | lib/libimhex/source/api/imhex_api.cpp:300-304 | moves the registry exactly as `ProviderSpec.Appended` |
| `ProviderRegistry.Registry.DeleteNext` | lib/libimhex/source/api/imhex_api.cpp:370-374 | takes the oldest deferred half and moves the registry exactly as `ProviderSpec.Dequeued` |
| `ProviderRegistry.Registry.SettleAfterDelete` | lib/libimhex/source/api/imhex_api.cpp:376-380 | moves the registry exactly as `ProviderSpec.Settled`: fallback to index 0 past the end, ProviderChanged(provider, null) exactly when empty |
| `ProviderRegistry.Registry.RunNextDeferred` | lib/libimhex/source/api/imhex_api.cpp:370-380 | the deferred half moves the registry exactly as `ProviderSpec.FinishRemoval` (erase, fallback to 0, null notification exactly when empty) and keeps the invariant |
| `ProviderRegistry.Registry.EraseAll` | lib/libimhex/source/api/imhex_api.cpp:372 | the filtering loop computes `ProviderSpec.Without` |
| `HexEditor.NextId` | lib/libimhex/source/api/imhex_api.cpp:78-80 | the u32 pre-increment: last+1, or 0 after 2^32-1 |
| `HexEditor.IssuedIds` | lib/libimhex/source/api/imhex_api.cpp:77-88 | n further additions hand out n ids; their values are stated by `HexEditor.IssuedIdsCount` and `HexEditor.IssuedIdsIncrease` |
| `HexEditor.IssuedIdsCount` | lib/libimhex/source/api/imhex_api.cpp:77-88 | before wrap-around the k-th further addition gets last+k+1 |
| `HexEditor.IssuedIdsIncrease` | lib/libimhex/source/api/imhex_api.cpp:153-158 | from a fresh counter the ids start at 1 and strictly increase |
| `HexEditor.Insert` | lib/libimhex/source/api/imhex_api.cpp:82-84 | std::map::insert adds a new key and never overwrites an existing one |
| `HexEditor.IdStore.constructor` | lib/libimhex/source/api/imhex_api.cpp:78 | an empty store with its counter at 0 |
| `HexEditor.IdStore.Add` | lib/libimhex/source/api/imhex_api.cpp:97-106 | increments the counter, inserts under the new id, returns it |
| `HexEditor.IdStore.Remove` | lib/libimhex/source/api/imhex_api.cpp:109-110 | erases exactly that key; the counter is kept |
| `HexEditor.Editor.constructor` | lib/libimhex/source/api/imhex_api.cpp:153-165 | six fresh stores, each empty with its counter at 0 (so the first id of each is 1); same-typed stores distinct; no event; no selection |
| `HexEditor.Editor.AddBackgroundHighlight` | lib/libimhex/source/api/imhex_api.cpp:77-89 | next id, inserted into the background map, HighlightingChanged posted once |
| `HexEditor.Editor.RemoveBackgroundHighlight` | lib/libimhex/source/api/imhex_api.cpp:91-95 | that id erased, HighlightingChanged posted once |
| `HexEditor.Editor.AddBackgroundHighlightingProvider` | lib/libimhex/source/api/imhex_api.cpp:97-107 | next id, callback inserted, HighlightingChanged posted once |
| `HexEditor.Editor.RemoveBackgroundHighlightingProvider` | lib/libimhex/source/api/imhex_api.cpp:109-113 | that id erased, HighlightingChanged posted once |
| `HexEditor.Editor.AddForegroundHighlight` | lib/libimhex/source/api/imhex_api.cpp:115-127 | next id, inserted into the foreground map, HighlightingChanged posted once |
| `HexEditor.Editor.RemoveForegroundHighlight` | lib/libimhex/source/api/imhex_api.cpp:129-133 | that id erased, HighlightingChanged posted once |
| `HexEditor.Editor.AddForegroundHighlightingProvider` | lib/libimhex/source/api/imhex_api.cpp:135-145 | next id, callback inserted, HighlightingChanged posted once |
| `HexEditor.Editor.RemoveForegroundHighlightingProvider` | lib/libimhex/source/api/imhex_api.cpp:147-151 | that id erased, HighlightingChanged posted once |
| `HexEditor.Editor.AddTooltip` | lib/libimhex/source/api/imhex_api.cpp:153-159 | next tooltip id, tooltip inserted, no event (only the tooltip store may change) |
| `HexEditor.Editor.RemoveTooltip` | lib/libimhex/source/api/imhex_api.cpp:161-163 | that id erased, no event |
| `HexEditor.Editor.AddTooltipProvider` | lib/libimhex/source/api/imhex_api.cpp:165-171 | next tooltip-provider id, callback inserted, no event |
| `HexEditor.Editor.RemoveTooltipProvider` | lib/libimhex/source/api/imhex_api.cpp:173-175 | that id erased, no event |
| `HexEditor.Editor.IsSelectionValid` | lib/libimhex/source/api/imhex_api.cpp:177-180 | returns `SelectionValid` of the stored selection |
| `HexEditor.SelectionValid` | lib/libimhex/source/api/imhex_api.cpp:177-180 | valid iff there is a selection and its provider is not null |
| `HexEditor.RemoveKeepsOthers` | lib/libimhex/source/api/imhex_api.cpp:91-92 | erase removes that id and keeps every other entry unchanged |
| `HexEditor.WrappedIdKeepsOlderEntry` | lib/libimhex/source/api/imhex_api.cpp:78-84 | once the counter wraps to 0, an id still in use is handed out again and the new value is dropped |
| `SystemApi.InitArgument` | lib/libimhex/source/api/imhex_api.cpp:550-555 | the stored value, or "" when the key is absent |
| `SystemApi.InitArgumentAfterAdd` | lib/libimhex/source/api/imhex_api.cpp:457-462 | a later addInitArgument overwrites the key and leaves others alone |
| `SystemApi.InitArguments.constructor` | lib/libimhex/source/api/imhex_api.cpp:456 | no init arguments at start |
| `SystemApi.InitArguments.Add` | lib/libimhex/source/api/imhex_api.cpp:457-462 | operator[] assignment: the key is bound to the new value |
| `SystemApi.InitArguments.Get` | lib/libimhex/source/api/imhex_api.cpp:550-555 | returns `InitArgument` of the stored map |
| `SystemApi.Register` | lib/libimhex/source/api/imhex_api.cpp:787-791 | registerHandler adds a new name and keeps an existing handler |
| `SystemApi.Run` | lib/libimhex/source/api/imhex_api.cpp:773-783 | runHandler reports "not found" iff no handler is registered, else calls that handler with the arguments |
| `SystemApi.FirstRegistrationWins` | lib/libimhex/source/api/imhex_api.cpp:787-791 | after any series of registrations a new name is bound to its earliest handler |
| `SystemApi.RegisteredStays` | lib/libimhex/source/api/imhex_api.cpp:787-791 | a registered name keeps its handler through further registrations |
| `SystemApi.Messaging.constructor` | lib/libimhex/source/api/imhex_api.cpp:787-791 | no handlers at start |
| `SystemApi.Messaging.RegisterHandler` | lib/libimhex/source/api/imhex_api.cpp:787-791 | updates the handler map as `Register` |
| `SystemApi.Messaging.RunHandler` | lib/libimhex/source/api/imhex_api.cpp:773-783 | returns the outcome `Run` describes |
| `SystemApi.Glyph` | lib/libimhex/source/api/imhex_api.cpp:838-843 | a one-code-point range holding the code point modulo 2^16 |
| `SystemApi.Range` | lib/libimhex/source/api/imhex_api.cpp:855-860 | both ends truncated to 16 bits |
| `SystemApi.GlyphDropsHighBits` | lib/libimhex/source/api/imhex_api.cpp:838-860 | code points 2^16 apart give the same range |
| `SystemApi.GlyphOutsideBmp` | lib/libimhex/source/api/imhex_api.cpp:838-843 | U+1F600 becomes the range U+F600..U+F600 |
| `FindHistory.OverwriteSlot` | plugins/builtin/source/content/views/view_pattern_editor.cpp:573 | (index-1) in u32, modulo 256: index 0 gives slot 255, index 1..256 gives index-1 |
| `FindHistory.AfterInsert` | plugins/builtin/source/content/views/view_pattern_editor.cpp:563-577 | historyInsert keeps 256 slots and a size of at most 256 |
| `FindHistory.InsertRecordedUnchanged` | plugins/builtin/source/content/views/view_pattern_editor.cpp:564-567 | a value among the first size entries changes nothing |
| `FindHistory.InsertAppends` | plugins/builtin/source/content/views/view_pattern_editor.cpp:569-571 | below 256 entries the value goes into slot size, size grows by one, index and other slots are untouched |
| `FindHistory.InsertOverwrites` | plugins/builtin/source/content/views/view_pattern_editor.cpp:572-576 | a full history overwrites slot (index-1) mod 256 only; size stays 256; an index below 256 is restored |
| `FindHistory.InsertRecords` | plugins/builtin/source/content/views/view_pattern_editor.cpp:563-577 | after historyInsert the value is among the first size entries |
| `FindHistory.InsertIdempotent` | plugins/builtin/source/content/views/view_pattern_editor.cpp:563-577 | inserting the same value twice equals inserting it once |
| `FindHistory.InsertKeepsEntries` | plugins/builtin/source/content/views/view_pattern_editor.cpp:569-571 | before the history is full no recorded value is lost |
| `FindHistory.InsertKeepsBounds` | plugins/builtin/source/content/views/view_pattern_editor.cpp:569-576 | index <= size <= 256 is preserved |
| `FindHistory.Up` | plugins/builtin/source/content/views/view_pattern_editor.cpp:653-654 | the up arrow keeps the index below the size |
| `FindHistory.Down` | plugins/builtin/source/content/views/view_pattern_editor.cpp:656-657 | the down arrow keeps the index below the size |
| `FindHistory.UpStep` | plugins/builtin/source/content/views/view_pattern_editor.cpp:653-654 | up moves to the previous entry, wrapping from the first to the last; from index size it moves to the newest |
| `FindHistory.DownStep` | plugins/builtin/source/content/views/view_pattern_editor.cpp:656-657 | down moves to the next entry, wrapping from the last to the first |
| `FindHistory.UpDownInverse` | plugins/builtin/source/content/views/view_pattern_editor.cpp:809-813 | up and down undo each other on every index in range |
| `FindHistory.History.constructor` | plugins/builtin/source/content/views/view_pattern_editor.cpp:563 | 256 empty slots, size 0, index 0 |
| `FindHistory.History.Insert` | plugins/builtin/source/content/views/view_pattern_editor.cpp:563-577 | the search loop and update compute `AfterInsert` on the array and keep the bounds |
| `FindHistory.History.Browse` | plugins/builtin/source/content/views/view_pattern_editor.cpp:651-660 | up, then down, then the word at the new index, which is within the size |
| `FindReplace.Decimal` | plugins/builtin/source/content/views/view_pattern_editor.cpp:727-734 | `{}` formatting gives at least one digit and no leading zero |
| `FindReplace.DecimalRoundTrip` | plugins/builtin/source/content/views/view_pattern_editor.cpp:727-734 | the formatted number reads back as itself |
| `FindReplace.CounterText` | plugins/builtin/source/content/views/view_pattern_editor.cpp:719-735 | the counter text: the no-results text, or the position ("?" above 1999), the "of" text and the count ("1999+" above 1999); its properties are the three Counter lemmas below |
| `FindReplace.CounterNoResults` | plugins/builtin/source/content/views/view_pattern_editor.cpp:722-723 | the counter is the no-results text iff count is 0 or position is the u64 maximum |
| `FindReplace.CounterShowsPosition` | plugins/builtin/source/content/views/view_pattern_editor.cpp:725-728 | the text starts with "?" above 1999, else with the position's digits and a space |
| `FindReplace.CounterShowsCount` | plugins/builtin/source/content/views/view_pattern_editor.cpp:730-733 | the text ends with "1999+" above 1999, else with a space and the count's digits |
| `FindReplace.Replaced` | plugins/builtin/source/content/views/view_pattern_editor.cpp:779-792 | a failed replacement changes nothing; a successful one asks for a counter update |
| `FindReplace.ReplacedCountsDown` | plugins/builtin/source/content/views/view_pattern_editor.cpp:781-788 | with matches left, count drops by one; position drops iff it was the old count; focus goes to find at zero, else to replace |
| `FindReplace.ReplacedKeepsPositionInRange` | plugins/builtin/source/content/views/view_pattern_editor.cpp:781-790 | position <= count is preserved |
| `FindReplace.ReplacingEveryMatch` | plugins/builtin/source/content/views/view_pattern_editor.cpp:781-790 | n replacements lower the count by n; replacing every match ends at zero with focus on find |
| `FindReplace.ReplacedAll` | plugins/builtin/source/content/views/view_pattern_editor.cpp:832-840 | replace-all sets count and position to 0, asks for focus on find and for a counter update |
| `FindReplace.ReplacedAllShowsNoResults` | plugins/builtin/source/content/views/view_pattern_editor.cpp:832-840 | after replace-all the counter reads "no results" |
| `FindReplace.Dialog.constructor` | plugins/builtin/source/content/views/view_pattern_editor.cpp:779-792 | no matches, no requests, empty counter text |
| `FindReplace.Dialog.RefreshCounter` | plugins/builtin/source/content/views/view_pattern_editor.cpp:719-735 | when an update is pending the text becomes `CounterText`, and the flag is cleared |
| `FindReplace.Dialog.AfterReplace` | plugins/builtin/source/content/views/view_pattern_editor.cpp:779-792 | updates the bookkeeping as `Replaced` |
| `FindReplace.Dialog.AfterReplaceAll` | plugins/builtin/source/content/views/view_pattern_editor.cpp:836-840 | updates the bookkeeping as `ReplacedAll` |
| `ConsoleLog.Classify` | plugins/builtin/source/content/views/view_pattern_editor.cpp:104-113 | the palette is Max iff the line starts with none of the four prefixes |
| `ConsoleLog.Prefix` | plugins/builtin/source/content/views/view_pattern_editor.cpp:1595-1598 | each level's prefix is a letter followed by ": " |
| `ConsoleLog.PrefixedLineClassifies` | plugins/builtin/source/content/views/view_pattern_editor.cpp:104-113 | a line logged at a level is coloured as that level (D→Comment, I→Default, W→Preprocessor, E→ErrorMarker) |
| `ConsoleLog.PrefixDeterminesLevel` | plugins/builtin/source/content/views/view_pattern_editor.cpp:1595-1598 | equal prefixed lines have equal levels |
| `ConsoleLog.PrefixedLines` | plugins/builtin/source/content/views/view_pattern_editor.cpp:1591-1602 | each line of the message is prefixed, in order |
| `ConsoleLog.Console.constructor` | plugins/builtin/source/content/views/view_pattern_editor.cpp:1602-1603 | an empty console with no pending update |
| `ConsoleLog.Console.Log` | plugins/builtin/source/content/views/view_pattern_editor.cpp:1588-1603 | the prefixed lines are appended, every appended line classifies as its level, and an update is requested iff a line was added |
| `PlaceArray.ArrayCountIsCeiling` | plugins/builtin/source/content/views/view_pattern_editor.cpp:1722 | without overflow the count is the ceiling of selection size over type size |
| `PlaceArray.ArrayCountWraps` | plugins/builtin/source/content/views/view_pattern_editor.cpp:1722 | whenever selection size + type size - 1 reaches 2^64, the size_t sum wraps below the type size and the count is 0 |
| `PlaceArray.ArrayCount` | plugins/builtin/source/content/views/view_pattern_editor.cpp:1722 | the element count in size_t arithmetic; it never exceeds the selection size, with or without wrap-around |
| `LangTool.ParseCommand` | dist/langtool.py:25-28 | only "check", "translate" and "update" are accepted |
| `LangTool.Assign` | dist/langtool.py:15 | `d[key] = value` binds the key and keeps the dictionary well formed |
| `LangTool.Without` | dist/langtool.py:77 | the key order without that key: membership, distinctness kept, unchanged when the key is absent |
| `LangTool.WithoutCutsOut` | dist/langtool.py:77 | popping a key cuts it out where it stood and keeps every other key in its order |
| `LangTool.Pop` | dist/langtool.py:77 | `pop` removes exactly that key |
| `LangTool.HandleMissing` | dist/langtool.py:8-18 | check stops (status 2) at that key; translate stores the typed answer; update stores the marker |
| `LangTool.Fill` | dist/langtool.py:67-69 | filling keeps the dictionary well formed and only check mode can stop |
| `LangTool.Unused` | dist/langtool.py:71-74 | the keys the template lacks, each once |
| `LangTool.RemoveAll` | dist/langtool.py:76-78 | popping the keys leaves every other key with its value |
| `LangTool.Sync` | dist/langtool.py:67-78 | processing one file keeps it well formed; only check mode fails |
| `LangTool.FillMissingStep` | dist/langtool.py:67-69 | adding one missing key and then the rest adds exactly the missing keys with their marker or answer |
| `LangTool.FillAddsMissingKeys` | dist/langtool.py:67-69 | exactly the missing template keys are added; existing values are kept; added keys hold the marker or the typed answer |
| `LangTool.FillStopsAtFirstMissing` | dist/langtool.py:9-11 | check stops iff a template key is missing, and then at the first one in template order |
| `LangTool.PruneKeepsTemplateKeys` | dist/langtool.py:71-78 | once a file holds every template key, removing its unused keys leaves exactly the template's keys with their values |
| `LangTool.SyncMatchesTemplate` | dist/langtool.py:67-78 | a processed file has exactly the template's keys; shared values are unchanged |
| `LangTool.SyncCheck` | dist/langtool.py:9-11 | in check mode a file fails iff it lacks a template key; a passing file only loses unused keys |
| `LangTool.SyncFile` | dist/langtool.py:64-82 | the three loops compute `Sync` |
| `LangTool.FillMissingKeys` | dist/langtool.py:67-69 | the loop computes `Fill` |
| `LangTool.CollectUnusedKeys` | dist/langtool.py:71-74 | the loop computes `Unused` |
| `LangTool.RemoveKeys` | dist/langtool.py:76-78 | the loop computes `RemoveAll` |
| `LangTool.Stem` | dist/langtool.py:56 | Path.stem of a "*.json" name: the name with ".json" dropped; any other name unchanged |
| `LangTool.Selected` | dist/langtool.py:55-59 | the file filter: the requested stem, if a language is given, and never a name starting with en_US |
| `LangTool.Process` | dist/langtool.py:55-82 | the file loop ends with status 0, or 2 only in check mode |
| `LangTool.RejectsBadInvocation` | dist/langtool.py:21-48 | too few arguments, an unknown command, a missing or non-folder path, or no template: status 1, nothing written |
| `LangTool.ProcessWritesSelected` | dist/langtool.py:55-60 | only selected files are written: not "en_US*", and only the requested stem |
| `LangTool.ProcessWritesTemplateKeys` | dist/langtool.py:67-82 | every file written has exactly the template's keys |
| `LangTool.ProcessCompletes` | dist/langtool.py:55-82 | translate and update write every selected file and end with status 0 |
| `LangTool.WrittenStays` | dist/langtool.py:80-82 | a file once written stays written |
| `LangTool.IncompleteSplit` | dist/langtool.py:54-59 | some selected file is incomplete iff the first one is or one of the rest is |
| `LangTool.CheckSkipStep` | dist/langtool.py:55-59 | a skipped file does not change whether check fails |
| `LangTool.CheckFileStep` | dist/langtool.py:9-11 | a selected file makes check fail iff it lacks a template key, and otherwise check fails iff a later file does |
| `LangTool.ProcessCheckFails` | dist/langtool.py:9-11 | check ends with status 2 iff some selected file lacks a template key |
| `LangTool.RunTool` | dist/langtool.py:20-82 | main's statements compute `RunLangTool` |

## Left out

- Provider objects are reduced to an identity and three flags. Their
  `close()`, `skipLoadInterface()` and data access are not modelled; a removed
  provider is only marked closed.
- `createProvider` posts a request to a subscriber this model cannot see, so it
  is not modelled.
- The event bus is an append-only log. Subscribers are not run, except that
  the ProviderClosing veto is a parameter of `remove`.
- The task manager is reduced to a running-task count and a queue of deferred
  removals. Its threads and other queued work are not modelled.
- The deferred removal captures a vector iterator. The model erases the
  provider by identity, so iterator invalidation is not captured.
- The System getters and setters (OS, architecture, portable flag, window
  handle and scale, frame time) are platform queries or plain stores.
- Fonts `loadFont` and the UTF-8 forms of `glyph` and `range` are not
  modelled: they read files or decode UTF-8 through ImGui.
- Mutexes (`addInitArgument`, the log callback) are not modelled; the model
  is sequential.
- Messaging handlers are opaque values; what a handler does with its
  arguments is not modelled, and neither is the "not found" log line.
- `ProviderSpec.Remove` and `ProviderRegistry.Registry.Remove` run the
  corrected third branch of the selection fix-up (`ProviderSpec.Relocate`),
  not the code's. When a provider after the current one is removed, the model
  keeps the selection where the code moves it back by one. The code's branch
  is `ProviderSpec.ReindexAsWritten`, and `ProviderSpec.AsWrittenLosesSelection`
  proves what it does.
- All ImGui drawing, layout and focus handling is left out. This includes the
  replace-history browse setting `requestFocusReplace`.
- Text-editor find and replace itself is left out. Whether a replacement
  happened is a parameter.
- The localised "no results" and "of" strings are parameters of the counter.
- `FindReplace.CounterNoResults`: the "iff" needs the no-results text not to
  end in a digit or '+'; otherwise it could equal a counter text.
- `FindHistory.UpStep`: stated only when index + size does not overflow u32.
  `FindHistory.UpDownInverse` needs index < size <= 256. Out-of-range indices
  are not covered.
- `PlaceArray.ArrayCountIsCeiling`: stated only when the size_t sum does not
  overflow; `PlaceArray.ArrayCountWraps` covers every overflowing input.
- appendArray's text formatting and `getSelection()` are not modelled. Only
  the element count is.
- The log callback's `splitString` is not modelled: `ConsoleLog.Console.Log`
  takes the message already split into lines.
- langtool's JSON parsing and writing are not modelled, and neither are seek,
  truncate, `sort_keys` and the printed messages. A file is its
  "translations" dictionary.
- The translate prompt `input()` is a function of the key and its template
  value.
- `LangTool.Stem` handles only names ending in ".json", which is all that
  `glob("*.json")` yields.
- The folder is a map from the path argument to a directory listing.
  Existence and "is a directory" are the two checks made.
- The `code` field of a translation file is used only in messages, so it is
  not modelled.

## Findings

| source | as written | input that shows it | evidently intended | confidence | as-written member | corrected member |
|---|---|---|---|---|---|---|
| lib/libimhex/source/api/imhex_api.cpp:345-358 | When neither the first nor the current provider is removed, the current provider is found at the current index, so `newIndex -= 1` always runs and current-1 is selected | providers 1, 2, 3 with 2 current; remove 3: current becomes 0, so provider 1 is selected once 3 is erased | keep the same provider selected: move the index down only when the removed provider lies before it | medium, not executed | `ProviderSpec.AsWrittenCounterexample` | `ProviderSpec.RemovalSelection` |
