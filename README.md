# Selected item info: a Dafny model

This project models the logic of the inventory page's "selected item info"
component (`SelectedItemInfo` in
`src/lib/components/inventory/selected_item_info.ts`). The component is injected
under the item description of a Steam inventory page. It shows the float and paint
seed of the selected skin, a button for the item's market listing, or a prompt
to list the item.

What is modelled:

- **Getters, as pure functions** (module `ItemInfoView`):
  - `asset` is `SelectedAsset`.
  - `inspectLink` is `InspectLink`. It uses a model of JavaScript's
    `String.prototype.replace` with a string pattern (module `JsStrings`). That
    replace changes only the first occurrence and expands the `$` patterns of
    GetSubstitution.
  - `stallListing` is `StallListing`. It is built on a first-match search
    (`FirstMatch`), like `Array.prototype.find`.
  - The branch that `render`, `renderFloatMarketListing` and
    `renderListOnCSGOFloat` take is `Render` and `ListCallToAction`.
- **The component's fields** `itemInfo`, `loading` and `stall` (module
  `SelectedItemInfo`):
  - A class `SelectedItemInfo` holds them. Its methods follow
    `processSelectChange`, the float-fetch resolution, `connectedCallback` and
    the stall resolution, statement by statement. Each method is proved against
    a pure transition function on a `State` value.
  - A fetch is split at its `await`. `SelectChange` is the synchronous part: it
    clears item info, may set `loading` and returns the link to fetch.
    `SettleFetch` is the resolution.
  - `Run` applies any sequence of events, so resolutions may arrive late or out
    of order. The lemmas on `Run` describe exactly what the fields hold after
    any such sequence.

External inputs are parameters:

- `Page` holds the page globals `g_ActiveInventory` and `g_steamID`.
- `isSkin` is the classification verdict for the selected asset.
- `FetchOutcome` says whether a fetch promise resolved (with its value) or
  rejected.

Notable behaviour of the code, which the model keeps:

- **No "latest fetch wins" guarantee.** Nothing checks whether a resolution
  belongs to the latest selection. A late resolution of an older fetch
  overwrites item info (`LateResolutionOverwritesNewer`,
  `ItemInfoIsLastResolution`). Its `finally` also clears `loading` while a
  newer fetch is still pending (`LoadingIffStartedSinceLastSettle`).
- **A non-fetchable selection does not always render Empty.** This holds only
  when no fetch is pending (`NonFetchableSelectionRendersEmpty`). An early
  return leaves `loading` as it was. A fetch still pending keeps the view on
  Loading. Its result is then shown under the non-skin selection
  (`PendingFetchOutlivesNonSkinSelection`).
- **The owner check in `inspectLink` only checks that `m_owner` exists.** A missing `strSteamId` (and likewise a missing
  `assetid`) is substituted as the text `undefined`, because of the `!`
  assertion and JavaScript's string conversion.
- **An empty link counts as no link.** An inspect link equal to the empty
  string is falsy, so `processSelectChange` returns early for it.
- **An empty owner id requests no stall.** The stall is requested only for a
  non-empty owner id.
- **Stall failures are not caught.** The stall promise has no rejection
  handler. A rejection leaves every field unchanged.

## Model

| member | source | states |
|---|---|---|
| `JsStrings.IndexOf` | src/lib/components/inventory/selected_item_info.ts:72-73 | The index `replace` searches for: the first index at or after `from` where the pattern occurs, with no occurrence before it. None when the pattern occurs nowhere at or after `from`. |
| `JsStrings.ToJsString` | src/lib/components/inventory/selected_item_info.ts:72-73 | A present id is substituted as is. An undefined `strSteamId`/`assetid` (asserted with `!`) becomes the text "undefined". |
| `JsStrings.Substitution` | src/lib/components/inventory/selected_item_info.ts:72-73 | `replace`'s GetSubstitution step for a string pattern: a replacement string with no `$` is inserted verbatim. |
| `JsStrings.ReplaceFirst` | src/lib/components/inventory/selected_item_info.ts:72-73 | `replace` with a string pattern returns the string unchanged when the pattern does not occur. Otherwise the text before the first occurrence and the text after it are both kept. |
| `JsStrings.ReplaceFirstAt` | src/lib/components/inventory/selected_item_info.ts:72-73 | `replace` with a `$`-free replacement changes only the first occurrence. Everything before and after it, including later occurrences, is kept. |
| `JsStrings.ReplaceFirstAbsent` | src/lib/components/inventory/selected_item_info.ts:72-73 | When the pattern occurs nowhere, `replace` returns the string unchanged. |
| `JsStrings.ReplaceFirstAfterPrefix` | src/lib/components/inventory/selected_item_info.ts:72-73 | In `prefix + pat + rest`, where `pat` does not start anywhere inside `prefix`, a `$`-free replacement lands exactly where `pat` was and `rest` is kept verbatim, later occurrences included. |
| `ItemInfoView.SelectedAsset` | src/lib/components/inventory/selected_item_info.ts:58-60 | The asset is present exactly when there is an active inventory with a selected item, and with an active inventory it is that inventory's `selectedItem`. |
| `ItemInfoView.OwnerSteamId` | src/lib/components/inventory/selected_item_info.ts:126-177 | `g_ActiveInventory?.m_owner?.strSteamId` (read at line 126 and again at line 177) is absent when the active inventory or its owner is missing. When both are present it is the owner's `strSteamId`, present or absent as that field is. |
| `ItemInfoView.InspectLink` | src/lib/components/inventory/selected_item_info.ts:62-74 | The link is absent exactly when there is no selected asset, or its actions are missing or empty, or the inventory has no owner. |
| `ItemInfoView.InspectLinkFillsTemplate` | src/lib/components/inventory/selected_item_info.ts:71-73 | For a template `prefix %owner_steamid% middle %assetid% suffix` where `%owner_steamid%` does not start inside `prefix`, `%assetid%` does not start before its own place once the owner id is in, and the ids hold no `$`: the link is the template with the owner id and then the asset id in place of the placeholders. The suffix is kept verbatim, so a later placeholder in it stays. |
| `ItemInfoView.InspectLinkForSteamTemplate` | src/lib/components/inventory/selected_item_info.ts:71-73 | For Steam's template shape `<app path>%20S%owner_steamid%A%assetid%D<rest>` (no `%` in the app path or the owner id, no `$` in the ids): the `%20` is not taken for a placeholder, and the link has the owner id after `S` and the asset id after `A`. |
| `ItemInfoView.TemplateSubstitution` | src/lib/components/inventory/selected_item_info.ts:71-73 | Replacing `%owner_steamid%` and then `%assetid%` in `prefix %owner_steamid% middle %assetid% suffix` yields `prefix owner middle asset suffix`. This holds when neither placeholder starts before the place shown and the ids hold no `$`. |
| `ItemInfoView.SteamTemplateSubstitution` | src/lib/components/inventory/selected_item_info.ts:71-73 | The two substitutions on `<app path>%20S%owner_steamid%A%assetid%D<rest>`, with no `%` in the app path or the owner id, put each id exactly where its placeholder was. |
| `ItemInfoView.InspectLinkWithoutPlaceholders` | src/lib/components/inventory/selected_item_info.ts:71-73 | A template without `%` is returned unchanged as the inspect link. |
| `ItemInfoView.MatchesSelection` | src/lib/components/inventory/selected_item_info.ts:81 | `e.item.asset_id === this.asset?.assetid`: a listing matches exactly when an asset id is selected and equals the listing's asset id. No listing matches when no id is selected. |
| `ItemInfoView.FirstMatch` | src/lib/components/inventory/selected_item_info.ts:81 | `find` returns the index of a listing whose asset id equals the selection's, with no matching listing before it. None exactly when no listing matches. |
| `ItemInfoView.StallListing` | src/lib/components/inventory/selected_item_info.ts:76-82 | Absent without a stored stall. Present exactly when some listing (a missing `listings` reads as empty) matches the selection, and then it is the first such listing. Matching is `MatchesSelection`: the listing's asset id equals the selected asset's `assetid`, and nothing matches when no id is selected. |
| `ItemInfoView.ListCallToAction` | src/lib/components/inventory/selected_item_info.ts:120-130 | The "list it" prompt is shown exactly when no stall listing matches the selection (as in `MatchesSelection`) and `OwnerSteamId` equals `g_steamID` (two undefined ids are equal). `OwnerSteamId` is the owner's `strSteamId` when the inventory and the owner exist, and undefined otherwise. |
| `ItemInfoView.Render` | src/lib/components/inventory/selected_item_info.ts:84-106 | Loading exactly when `loading`. Empty exactly when not loading and item info is absent. Otherwise populated with the item info, the stall listing as the market button and the list prompt, and the button and the prompt are never both shown. |
| `SelectedItemInfo.FloatRequest` | src/lib/components/inventory/selected_item_info.ts:145-150 | A selection change fetches nothing exactly when there is no asset, it is not a skin, or the inspect link is absent or empty. Otherwise it fetches exactly the inspect link. |
| `SelectedItemInfo.SelectChange` | src/lib/components/inventory/selected_item_info.ts:141-153 | Item info is always cleared and the stall is untouched. An early return leaves `loading` unchanged and requests nothing. The fetch path sets `loading` and requests the inspect link. |
| `SelectedItemInfo.SettleFetch` | src/lib/components/inventory/selected_item_info.ts:152-161 | On resolution item info is the fetched value. On rejection item info is unchanged. `loading` is false after both, and the stall is untouched. |
| `SelectedItemInfo.SelectChangeAwaited` | src/lib/components/inventory/selected_item_info.ts:141-161 | A select-change pass with nothing interleaved: item info ends as the fetched value only on the fetch path with a resolved fetch, and absent otherwise. `loading` ends false on the fetch path and unchanged on an early return. |
| `SelectedItemInfo.StallRequest` | src/lib/components/inventory/selected_item_info.ts:177-180 | The stall is requested exactly when `OwnerSteamId` is present and non-empty, and it is requested for that id. That is the owner's `strSteamId` when the inventory and the owner exist; otherwise nothing is requested. |
| `SelectedItemInfo.SettleStall` | src/lib/components/inventory/selected_item_info.ts:179-181 | A resolved stall is stored and a rejection changes nothing. Item info and `loading` are never touched. |
| `SelectedItemInfo.SelectedItemInfo.constructor` | src/lib/components/inventory/selected_item_info.ts:50-56 | A new component has no item info, is not loading and has no stall. |
| `SelectedItemInfo.SelectedItemInfo.ProcessSelectChange` | src/lib/components/inventory/selected_item_info.ts:141-153 | The fields after the synchronous part of `processSelectChange`, and the request it makes, are those of `SelectChange`. |
| `SelectedItemInfo.SelectedItemInfo.ResolveFloat` | src/lib/components/inventory/selected_item_info.ts:154-161 | The fields after the awaited float fetch settles are those of `SettleFetch`. |
| `SelectedItemInfo.SelectedItemInfo.ProcessSelectChangeAwaited` | src/lib/components/inventory/selected_item_info.ts:141-161 | A whole `processSelectChange` whose fetch settles immediately leaves the fields as `SelectChangeAwaited` says. |
| `SelectedItemInfo.SelectedItemInfo.ConnectedCallback` | src/lib/components/inventory/selected_item_info.ts:164-182 | Activation runs one select-change pass and requests the stall exactly as `StallRequest` says. It does not touch the stall field. |
| `SelectedItemInfo.SelectedItemInfo.ResolveStall` | src/lib/components/inventory/selected_item_info.ts:179-181 | The fields after the stall promise settles are those of `SettleStall`. |
| `SelectedItemInfo.Step` | src/lib/components/inventory/selected_item_info.ts:141-181 | One event on the fields. Only a selection change or a resolved float fetch assigns item info, and a selection change always clears it. A float settlement clears `loading` and a fetching selection sets it, and nothing else changes it. Only a stall settlement changes the stall. |
| `SelectedItemInfo.Run` | src/lib/components/inventory/selected_item_info.ts:141-181 | A sequence of events applied in order. Without stall settlements the stall is as it started. With only stall settlements, item info and `loading` are as they started. |
| `SelectedItemInfo.FetchStartedSinceSettleLast` | src/lib/components/inventory/selected_item_info.ts:152-161 | A fetch was started since the last float settlement exactly when the last event is not a settlement and either starts a fetch or one was started before it. |
| `SelectedItemInfo.LastItemInfoWriteIsLast` | src/lib/components/inventory/selected_item_info.ts:143-161 | The last item-info write was a resolution with `v` exactly when the last event, if it writes item info, resolves with `v`, or otherwise this already held before it. |
| `SelectedItemInfo.LastStallResolutionIsLast` | src/lib/components/inventory/selected_item_info.ts:177-181 | The last successful stall resolution delivered `st` exactly when the last event, if it stores a stall, stores `st`, or otherwise this already held before it. |
| `SelectedItemInfo.LoadingIffStartedSinceLastSettle` | src/lib/components/inventory/selected_item_info.ts:152-161 | After any sequence of events, `loading` is true exactly when a fetch was started after the last float settlement. An older fetch's settlement clears it while a newer fetch is pending. |
| `SelectedItemInfo.ItemInfoIsLastResolution` | src/lib/components/inventory/selected_item_info.ts:143-161 | After any sequence of events, item info is `v` exactly when the last event that assigned it (a selection change or a resolved fetch) was a fetch resolving with `v`. |
| `SelectedItemInfo.StallIsLastResolution` | src/lib/components/inventory/selected_item_info.ts:177-181 | After any sequence of events, the stall is `st` exactly when the last successful stall resolution delivered `st`. |
| `SelectedItemInfo.LateResolutionOverwritesNewer` | src/lib/components/inventory/selected_item_info.ts:152-161 | If the fetch for an earlier selection resolves after the fetch for the current one, its value is kept and `loading` is false. |
| `SelectedItemInfo.PendingFetchOutlivesNonSkinSelection` | src/lib/components/inventory/selected_item_info.ts:145-161 | A fetch pending when the selection moves to a non-skin keeps the view on Loading. Settling it with a value stores that value, and the non-skin selection then renders it as populated. |
| `SelectedItemInfo.NonFetchableSelectionRendersEmpty` | src/lib/components/inventory/selected_item_info.ts:141-150 | With no fetch pending, a selection change that fetches nothing renders Empty, whatever was shown before. |
| `SelectedItemInfo.FetchPathRendersLoadingThenResult` | src/lib/components/inventory/selected_item_info.ts:152-161 | A selection change that fetches renders Loading. After settling it renders the fetched value on success and Empty on failure. |

## Left out

- Lit templating, HTML markup and CSS (`styles`, the `html` templates): only the branch `render` takes is modelled.
- Floating-point formatting: the float with 14 decimals and the price in dollars with 2 decimals. The float is carried as an exact number and the price as integer cents, and neither is formatted.
- `formatSeed`, `renderClickableRank` and `isSkin` are foreign code. `isSkin` is an input verdict, and the other two only format the populated view.
- The `ItemInfo` record is reduced to a float value and a paint seed. The component only passes it on to the view.
- `Observe` and the `@CustomElement`/`@InjectAfter` decorators are event-loop and DOM plumbing whose source is not part of this model. Each change the observer reports is one `SelectionChanged` event. Each re-injection is a new component built by the constructor and activated by `ConnectedCallback`.
- `super.connectedCallback()` belongs to the base element, which is not part of this model.
- The float and stall fetchers' caching and network are not modelled. A fetch is a request (the inspect link or the owner id) followed, in some later event, by its outcome.
- The text logged by `console.error` on a failed float fetch is not modelled. Only the state it leaves is.
- `Render` is the view at the next render, not a statement about when one happens. `stall` (line 56) has no `@state()`, so the assignment in the stall promise's `.then` (line 181) triggers no re-render. The market button and the "list it" prompt appear only at the next render caused by a change of `itemInfo` or `loading`.
- The `catch` (lines 157-158) reads `this.asset.assetid` again. If nothing is selected by then, that read throws. `finally` still clears `loading`, and since `processSelectChange` is called without `await` (lines 168 and 173) its promise then rejects with no handler. The fields end as `SettleFetch` says for a rejection; only the unhandled rejection is not modelled.
- Promise scheduling is not modelled: the order of resolutions is arbitrary. Nothing pairs a settlement with the fetch that caused it. An event sequence may therefore contain a settlement with no pending fetch, which the real program cannot produce. The lemmas about `Run` hold for every sequence, so they also hold for the real ones.
- UTF-16 strings: a JavaScript string is a sequence of UTF-16 code units, but a Dafny `char` is a Unicode scalar value. Indices in the model count code points, not UTF-16 units, and lone surrogates are not represented. The placeholders and ids are ASCII, so `replace` gives the same string. `g_steamID` is an optional string.
