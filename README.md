# Loop Magic Popup Creator — a Dafny model of popup eligibility and display frequency

This project models the WordPress plugin "Loop Magic Popup Creator" (and the
stand-alone urn selection script it grew out of). It covers three parts of the plugin:

- **Server side.** The plugin stores any number of popup records. On each front-end
  request it keeps the enabled popups that have products and whose page-targeting rules
  match the request. It publishes a five-field projection of each one to the browser.
- **Browser side.** `popup.js` takes that list, or a single preview configuration, as
  its candidates and shows the first one that passes two gates. The device gate blocks
  viewports wider than 768 pixels unless `showOnDesktop` is set. The frequency gate uses
  a timestamp in `localStorage`. Every way of leaving the modal records the display.
- **Admin side.** The admin screens sanitise product lists, delete, duplicate and toggle
  popups, compute list statistics, load a popup for editing (or build the defaults for a
  new one), and maintain the product editor with its hidden JSON field and preview.

Modules, one per concern:

| module | file | models |
|---|---|---|
| `Wrappers`, `Text` | text.dfy | Option; PHP `trim`/`explode`/`empty`, JS `trim`, `parseInt`, integer printing, `sanitize_key` |
| `Records` | records.dfy | products, stored popup records, browser configurations |
| `Filtering` | filtering.dfy | the order-preserving filter and first-match search every loop here performs |
| `PageRules` | page_rules.dfy | `matches_page_rules`: wildcard-to-regex conversion and the rule loop |
| `ProductSanitizer` | products.dfy | `sanitize_products` and the settings-page save handler |
| `FrontendFilter` | frontend_filter.dfy | `enqueue_frontend_scripts`: the eligibility filter and projection |
| `PopupEngine` | popup_engine.dfy | `popup.js`: config source, selection loop, `shouldShowPopup`, grid and cards |
| `Modal` | modal.dfy | `showModal` / `closeModal` / `markAsShown` as a state machine and as a class |
| `LegacyPopup` | legacy_popup.dfy | `urn-selection-popup.js` |
| `PopupList` | popup_list.dfy | the list page: delete / duplicate / toggle, statistics, rule summary |
| `PopupEdit` | popup_edit.dfy | the edit page: edit-or-add, back-compat cast, defaults, products JSON |
| `AdminForm` | admin_form.dfy | `admin-scripts.js`: product editor, submit check, preview |
| `Pipeline` | pipeline.dfy | server and browser composed; show-once and re-display across an exit |

Inputs the code reads from its environment are parameters here:

- the request (`HTTPS`, `HTTP_HOST`, `REQUEST_URI`);
- the viewport width;
- `Date.now()` and `time()`;
- `localStorage`, as a `map<string, string>`;
- the stored option array.

## Model

| member | source | states |
|---|---|---|
| Text.Split | wp-plugin/loop-product-selector/loop-product-selector.php:178 | `explode("\n", …)` yields one piece more than there are separators, and no piece contains one |
| Text.JoinSplit | wp-plugin/loop-product-selector/loop-product-selector.php:178 | joining the pieces of a split with the separator gives back the original text |
| Text.TrimIdempotent | wp-plugin/loop-product-selector/loop-product-selector.php:178-181 | a trimmed string neither starts nor ends with a trimmed character, and trimming again changes nothing (which makes the loop's second `trim` a no-op) |
| Text.TrimEmptyIff | wp-plugin/loop-product-selector/loop-product-selector.php:171 | a text trims to "" exactly when every character is a trim character |
| Text.IntToString | wp-plugin/loop-product-selector/assets/js/popup.js:407 | the decimal text `Date.now().toString()` stores is never empty, so it always counts as "shown" |
| Text.ParseIntOfIntToString | wp-plugin/loop-product-selector/assets/js/popup.js:85 | `parseInt` of the stored timestamp text gives back the timestamp |
| Text.LeadingDigitsOfDigits | wp-plugin/loop-product-selector/assets/js/popup.js:85 | `parseInt` reads every digit of an all-digit string |
| Text.DigitsValueOfNatToString | wp-plugin/loop-product-selector/assets/js/popup.js:85 | reading the printed digits of n gives n |
| PageRules.FullUrl | wp-plugin/loop-product-selector/loop-product-selector.php:176 | the full URL is "https://" + host + URI exactly when `HTTPS` is "on", else "http://" + host + URI |
| PageRules.CompileIsAtoms | wp-plugin/loop-product-selector/loop-product-selector.php:188-193 | the regex built by the two `str_replace`s and anchoring reads back as the rule itself: each `*` is a run, each `.` any one character, everything else a literal |
| PageRules.RuleLines | wp-plugin/loop-product-selector/loop-product-selector.php:178 | `array_filter(array_map('trim', …))` keeps at most as many lines, each trimmed and not falsy |
| PageRules.RuleLinesMembers | wp-plugin/loop-product-selector/loop-product-selector.php:178 | a string is among the filtered lines exactly when it is not falsy and is the trim of some raw line |
| PageRules.RulesOf | wp-plugin/loop-product-selector/loop-product-selector.php:178 | every line the loop visits is trimmed and not falsy, and lies in the modelled pattern language when the text does |
| PageRules.AnyRuleMatches | wp-plugin/loop-product-selector/loop-product-selector.php:180-206 | the loop returns true exactly when some line, trimmed and not empty, matches by pattern or by equality |
| PageRules.BlankRulesMatchEverything | wp-plugin/loop-product-selector/loop-product-selector.php:170-173 | a rules text of nothing but whitespace matches every request |
| PageRules.MatchesIffSomeLine | wp-plugin/loop-product-selector/loop-product-selector.php:178-206 | when the trimmed text is not empty, the popup matches exactly when some raw line, once trimmed, is a non-empty rule that matches; the filtering step loses nothing |
| PageRules.MatchLiteral | wp-plugin/loop-product-selector/loop-product-selector.php:193 | a rule without `*` or `.` matches a string exactly when the two agree up to ASCII case (the `/i` flag) |
| PageRules.MatchRun | wp-plugin/loop-product-selector/loop-product-selector.php:189-190 | `.*` matches any run of characters that contains no newline |
| PageRules.ContainsRule | wp-plugin/loop-product-selector/loop-product-selector.php:188-196 | `*w*` matches a one-line string exactly when w occurs in it, ignoring ASCII case |
| PageRules.ExactRule | wp-plugin/loop-product-selector/loop-product-selector.php:196-203 | a literal rule matches exactly when it equals the path or the full URL up to ASCII case |
| PageRules.DotMatchesAnyChar | wp-plugin/loop-product-selector/loop-product-selector.php:188-192 | `.` in a rule is not escaped: "a.b" matches "a" + x + "b" for any single character x other than newline (a model character stands for one byte of the PHP string) |
| PageRules.FureverMatches | wp-plugin/loop-product-selector/admin/popup-edit.php:160 | the documented example `*furever*` matches /nl/product/furever/ |
| PageRules.EarthriseDoesNotMatch | wp-plugin/loop-product-selector/admin/popup-edit.php:160 | `*furever*` does not match /nl/product/earthrise/, by path or by full URL |
| Filtering.Positions | wp-plugin/loop-product-selector/loop-product-selector.php:219-243 | the indices of the kept records are in bounds, strictly increasing, and include every record that passes |
| Filtering.FilterMapAtPositions | wp-plugin/loop-product-selector/loop-product-selector.php:219-243 | the k-th output is the projection of the k-th kept input |
| Filtering.FilterMapMembers | wp-plugin/loop-product-selector/loop-product-selector.php:219-243 | an output value exists exactly when some kept input projects to it |
| Filtering.FilterMapEmptyIff | wp-plugin/loop-product-selector/loop-product-selector.php:245-248 | the output is empty exactly when no input passes |
| Filtering.FilterMapAllKept | wp-plugin/loop-product-selector/loop-product-selector.php:219-243 | when every input passes, the filter is a plain map of the same length |
| Filtering.FirstWhere | wp-plugin/loop-product-selector/assets/js/popup.js:34-52 | the search result passes the test and no earlier element does; None means none passes |
| Filtering.FirstAfterFilter | wp-plugin/loop-product-selector/assets/js/popup.js:34-52 | searching a filtered list finds the projection of the first input that is kept and passes |
| ProductSanitizer.SanitizeList | wp-plugin/loop-product-selector/loop-product-selector.php:129-141 | the loop produces exactly the cleaned complete items, in order |
| ProductSanitizer.SanitizeProducts | wp-plugin/loop-product-selector/loop-product-selector.php:122-144 | non-array input gives "[]"; otherwise the encoding of the cleaned complete items |
| ProductSanitizer.KeptSpec | wp-plugin/loop-product-selector/loop-product-selector.php:129-141 | no more records than items; each comes from a complete item, in order, with its fields sanitised and subtitle "" when absent |
| ProductSanitizer.KeptMembers | wp-plugin/loop-product-selector/admin/admin-page.php:27-36 | a product is kept exactly when it is the cleaned form of a complete item |
| ProductSanitizer.NoCompleteItemKeepsNothing | wp-plugin/loop-product-selector/admin/admin-page.php:26-37 | the kept list is empty exactly when no item has title, url and image |
| ProductSanitizer.Absint | wp-plugin/loop-product-selector/admin/admin-page.php:15-18 | `absint` never gives a negative number and keeps non-negative values |
| ProductSanitizer.SaveSettings | wp-plugin/loop-product-selector/admin/admin-page.php:12-40 | every option is written sanitised, the storage key through the same `sanitize_key` as the list page (Text.SanitizeKey); products are "[]" for non-array input, otherwise the encoding of the kept items; a missing field decodes as the empty array |
| FrontendFilter.Intval | wp-plugin/loop-product-selector/loop-product-selector.php:236-242 | `intval` of a missing field is 0, of an integer the integer |
| FrontendFilter.EnqueueFrontendScripts | wp-plugin/loop-product-selector/loop-product-selector.php:219-248 | the loop publishes exactly the projections of the enabled, non-empty, matching popups in stored order, and enqueues nothing when there are none |
| FrontendFilter.EmittedSpec | wp-plugin/loop-product-selector/loop-product-selector.php:219-243 | the k-th published entry is the projection of the k-th eligible stored popup, and every eligible popup is published |
| FrontendFilter.NothingEligibleNothingEnqueued | wp-plugin/loop-product-selector/loop-product-selector.php:245-248 | nothing is enqueued exactly when no stored popup is eligible |
| FrontendFilter.EmittedHaveProducts | wp-plugin/loop-product-selector/loop-product-selector.php:226-228 | every published entry has at least one product |
| FrontendFilter.ToJs | wp-plugin/loop-product-selector/loop-product-selector.php:236-242 | the browser sees exactly the five published fields, and `showOnDesktop` is undefined |
| PopupEngine.ConfigSource | wp-plugin/loop-product-selector/assets/js/popup.js:18-29 | an array of configs is the candidate list; otherwise a single config becomes a one-element list; otherwise the script stops |
| PopupEngine.WithDesktopDefault | wp-plugin/loop-product-selector/assets/js/popup.js:37-40 | a missing `showOnDesktop` becomes false, a present one and every other field are kept |
| PopupEngine.DesktopDefaultIsNeutral | wp-plugin/loop-product-selector/assets/js/popup.js:37-40 | the default changes neither the product check nor `shouldShowPopup` |
| PopupEngine.ShouldShowIffGates | wp-plugin/loop-product-selector/assets/js/popup.js:60-95 | `shouldShowPopup` holds exactly when both the device gate and the frequency gate pass |
| PopupEngine.DeviceGate | wp-plugin/loop-product-selector/assets/js/popup.js:68-73 | without `showOnDesktop`, a width over 768 is never shown, and at 768 or less only the frequency gate decides |
| PopupEngine.ShownOnceNeverAgain | wp-plugin/loop-product-selector/assets/js/popup.js:76-82 | any non-empty stored value blocks a config whose `redisplayDays` is 0 or missing |
| PopupEngine.NothingStoredPasses | wp-plugin/loop-product-selector/assets/js/popup.js:76-78 | an absent or empty key leaves only the device gate |
| PopupEngine.RedisplayAfterDays | wp-plugin/loop-product-selector/assets/js/popup.js:78-94 | with N days and stored timestamp T, the config shows exactly when the device gate passes and now − T ≥ N·86 400 000 |
| PopupEngine.UnreadableTimestampPasses | wp-plugin/loop-product-selector/assets/js/popup.js:85-91 | a stored value `parseInt` cannot read (NaN) never blocks a re-displaying config |
| PopupEngine.DaysComparison | wp-plugin/loop-product-selector/assets/js/popup.js:87-89 | the division by a day's milliseconds compared with N is the integer test elapsed < N·86 400 000 |
| PopupEngine.FirstQualifying | wp-plugin/loop-product-selector/assets/js/popup.js:34-52 | the selected index has products and passes `shouldShowPopup`, no earlier one does, and None means none does |
| PopupEngine.SelectConfig | wp-plugin/loop-product-selector/assets/js/popup.js:34-52 | the loop returns the first qualifying config, defaulted; it defaults `showOnDesktop` in place on every config up to it and leaves the later ones untouched |
| PopupEngine.EarlierWins | wp-plugin/loop-product-selector/assets/js/popup.js:48-51 | of two qualifying configs the earlier is chosen, or one before it |
| PopupEngine.Defaulted | wp-plugin/loop-product-selector/assets/js/popup.js:37-40 | the array after the loop's in-place default: the same length, each config defaulted |
| PopupEngine.GridTemplate | wp-plugin/loop-product-selector/assets/js/popup.js:99-103 | the grid-template-columns value: "1fr", "1fr 1fr" and "repeat(3, 1fr)" for one, two and three products, the 150px auto-fit layout for any other count |
| PopupEngine.Cards | wp-plugin/loop-product-selector/assets/js/popup.js:296-312 | one card per product, in order, whose `data-product-index` is its position, with a subtitle line exactly when the subtitle is non-empty |
| PopupEngine.SelectedRendersCards | wp-plugin/loop-product-selector/assets/js/popup.js:296-312 | the config the selection loop settles on renders at least one card, and its cards are its products in order, so the modal never opens empty |
| Modal.MarkValue | wp-plugin/loop-product-selector/assets/js/popup.js:405-408 | the value written is never empty: the timestamp text, or "true" for the legacy script |
| Modal.Initial | wp-plugin/loop-product-selector/assets/js/popup.js:339 | before `showModal` nothing is shown and storage is as loaded |
| Modal.StepPreservesInv | wp-plugin/loop-product-selector/assets/js/popup.js:339-402 | every event keeps the invariant: scroll locked exactly while open, a removal pending while closing, a clean state before showing |
| Modal.ExitWritesOnlyTheKey | wp-plugin/loop-product-selector/assets/js/popup.js:355-408 | a handled product click, close, overlay click or Escape sets `storage[storageKey]` to the mark and changes no other key; any other event leaves storage alone |
| Modal.ProductClickKeepsModal | wp-plugin/loop-product-selector/assets/js/popup.js:355-367 | a product click adds a loader and marks as shown, but the modal stays up and the page stays locked |
| Modal.ClosePathsKeepEscapeListener | wp-plugin/loop-product-selector/assets/js/popup.js:370-402 | close button and overlay click hide the modal, release the scroll lock, schedule removal, and leave the Escape listener registered |
| Modal.EscapeRemovesListener | wp-plugin/loop-product-selector/assets/js/popup.js:383-389 | Escape closes the modal and removes its own listener |
| Modal.RunPreservesInv | wp-plugin/loop-product-selector/assets/js/popup.js:339-402 | the invariant holds after any sequence of events |
| Modal.ReachableInv | wp-plugin/loop-product-selector/assets/js/popup.js:339-402 | every state reachable from page load satisfies the invariant |
| Modal.MarkPersists | wp-plugin/loop-product-selector/assets/js/popup.js:405-408 | once the key is marked, no later event clears or empties it |
| Modal.OtherKeysUntouched | wp-plugin/loop-product-selector/assets/js/popup.js:405-408 | no sequence of events changes any other storage key |
| Modal.RemovedStaysRemoved | wp-plugin/loop-product-selector/assets/js/popup.js:397-399 | once the overlay is removed it never comes back |
| Modal.ExitMarks | wp-plugin/loop-product-selector/assets/js/popup.js:355-408 | a trace with one handled exit leaves the key marked with a non-empty value |
| Modal.RunSplit | wp-plugin/loop-product-selector/assets/js/popup.js:339-408 | running a trace in two pieces gives the same state as running it at once |
| Modal.EscapeAfterCloseRewritesTimestamp | wp-plugin/loop-product-selector/assets/js/popup.js:370-402 | close at t1, removal, then Escape at t2: the modal is gone and the stored timestamp is t2, because the listener survived the close |
| Modal.ModalSession.constructor | wp-plugin/loop-product-selector/assets/js/popup.js:339 | the session starts in the initial state |
| Modal.ModalSession.Show | wp-plugin/loop-product-selector/assets/js/popup.js:339-390 | `showModal` moves the state as the ShowModal step says |
| Modal.ModalSession.AnimationFrame | wp-plugin/loop-product-selector/assets/js/popup.js:347-349 | the animation frame adds the visible class as the step says |
| Modal.ModalSession.MarkShown | wp-plugin/loop-product-selector/assets/js/popup.js:405-408 | `markAsShown` writes the mark under the key and changes nothing else |
| Modal.ModalSession.Close | wp-plugin/loop-product-selector/assets/js/popup.js:393-402 | `closeModal` hides, unlocks, schedules removal and marks |
| Modal.ModalSession.ClickProduct | wp-plugin/loop-product-selector/assets/js/popup.js:355-367 | the card handler updates the state as the ClickProduct step says |
| Modal.ModalSession.ClickClose | wp-plugin/loop-product-selector/assets/js/popup.js:370-373 | the close-button handler updates the state as the ClickClose step says |
| Modal.ModalSession.ClickOverlay | wp-plugin/loop-product-selector/assets/js/popup.js:375-380 | the overlay handler updates the state as the ClickOverlay step says |
| Modal.ModalSession.KeyDown | wp-plugin/loop-product-selector/assets/js/popup.js:382-389 | the keydown handler updates the state as the KeyDown step says |
| Modal.ModalSession.RemovalTimer | wp-plugin/loop-product-selector/assets/js/popup.js:397-399 | the 300 ms timer removes the overlay as the RemovalTimer step says |
| LegacyPopup.LegacyConfig | urn-selection-popup.js:13-30 | the fixed configuration has products, is show-once and not shown on desktop |
| LegacyPopup.LegacyIsEngineWithOneConfig | urn-selection-popup.js:33-45 | the legacy gate decides as the plugin engine on the one-element list holding its configuration |
| LegacyPopup.Init | urn-selection-popup.js:343-358 | when the gate fails, no styles are injected and no modal is scheduled; otherwise both happen |
| LegacyPopup.NeverAgainAfterExit | urn-selection-popup.js:288-340 | once any exit has run, the stored "true" blocks the popup for good at every width |
| PopupList.Without | wp-plugin/loop-product-selector/admin/popup-list.php:21 | after `unset`, the key list holds exactly the other keys |
| PopupList.Copy | wp-plugin/loop-product-selector/admin/popup-list.php:30-33 | the copy has the new id, the name with " (Copy)", storage key id + "_shown", and every other field copied |
| PopupList.DeleteSpec | wp-plugin/loop-product-selector/admin/popup-list.php:19-25 | delete removes exactly the given id and keeps every other record and their order; an unknown id changes nothing |
| PopupList.DuplicateSpec | wp-plugin/loop-product-selector/admin/popup-list.php:27-38 | duplicate stores the copy under "popup_" + time, overwriting in place or appending, and leaves every other record unchanged; an unknown id changes nothing |
| PopupList.ToggleSpec | wp-plugin/loop-product-selector/admin/popup-list.php:40-45 | toggle negates `enabled` of that record only |
| PopupList.ToggleTwice | wp-plugin/loop-product-selector/admin/popup-list.php:40-45 | toggling twice restores the stored array |
| Text.SanitizeKey | wp-plugin/loop-product-selector/admin/popup-list.php:16 | the sanitised id is no longer than the input and holds only lower-case letters, digits, `_` and `-` |
| Text.SanitizeKeyIdempotent | wp-plugin/loop-product-selector/admin/popup-list.php:16 | sanitising twice is sanitising once |
| PopupList.GeneratedIdsAreKeys | wp-plugin/loop-product-selector/admin/popup-list.php:15-29 | ids of the form "popup_" + time pass through `sanitize_key` unchanged, so the action links reach them |
| PopupList.EnabledCount | wp-plugin/loop-product-selector/admin/popup-list.php:64-66 | the active count never exceeds the total |
| PopupList.EnabledCountIsFilter | wp-plugin/loop-product-selector/admin/popup-list.php:65-66 | the active count is the number of records, in array order, that `array_filter` keeps for their `enabled` flag |
| PopupList.TotalProductsIsSum | wp-plugin/loop-product-selector/admin/popup-list.php:67 | the products count is `array_sum` of the per-record product counts `array_map` produces over the records |
| PopupList.SumsOverListed | wp-plugin/loop-product-selector/admin/popup-list.php:64-67 | for any list of stored keys, the recursive active and product sums equal the `array_filter` count and the `array_sum` of product counts over the listed records |
| PopupList.DeleteStats | wp-plugin/loop-product-selector/admin/popup-list.php:19-67 | deleting a popup lowers the total by one and the active and product totals by its own share |
| PopupList.DuplicateStats | wp-plugin/loop-product-selector/admin/popup-list.php:27-67 | duplicating under a fresh id adds one popup and the source's products and active share |
| PopupList.ToggleStats | wp-plugin/loop-product-selector/admin/popup-list.php:40-67 | toggling changes the active count by one and leaves the other cards alone |
| PopupList.RulesSummary | wp-plugin/loop-product-selector/admin/popup-list.php:140-146 | "All pages" appears exactly when the trimmed rules text is falsy, the condition of the matcher's match-all branch (a rule such as `*` also matches every one-line request but is summarised as "1 rule"); otherwise the count is the number of lines of the trimmed text, blank ones included |
| PopupList.PopupStore.constructor | wp-plugin/loop-product-selector/admin/popup-list.php:12 | the store holds the loaded array |
| PopupList.PopupStore.DeletePopup | wp-plugin/loop-product-selector/admin/popup-list.php:19-25 | the array after `unset` is the one DeleteSpec describes |
| PopupList.PopupStore.DuplicatePopup | wp-plugin/loop-product-selector/admin/popup-list.php:27-38 | the array after the copy is stored is the one DuplicateSpec describes |
| PopupList.PopupStore.TogglePopup | wp-plugin/loop-product-selector/admin/popup-list.php:40-45 | the array after the flip is the one ToggleSpec describes |
| PopupList.PopupStore.HandleAction | wp-plugin/loop-product-selector/admin/popup-list.php:15-46 | the switch applies the named action to the sanitised id; any other action changes nothing |
| PopupEdit.WithBoolDesktop | wp-plugin/loop-product-selector/admin/popup-edit.php:21-27 | a missing `show_on_desktop` becomes false, a present one its PHP truth value, and every other field is kept |
| PopupEdit.NewPopup | wp-plugin/loop-product-selector/admin/popup-edit.php:30-42 | id "popup_" + time, storage key id + "_shown", enabled, desktop off, re-display 0, empty name, rules and products, the default title |
| PopupEdit.ProductsJson | wp-plugin/loop-product-selector/admin/popup-edit.php:58 | an empty product list gives "[]", any other its encoding |
| PopupEdit.LoadForEdit | wp-plugin/loop-product-selector/admin/popup-edit.php:14-58 | edit mode holds exactly when a truthy sanitised id is given and stored; it then loads that record with the cast applied, and otherwise the defaults under a new id |
| PopupEdit.CastKeepsMeaning | wp-plugin/loop-product-selector/admin/popup-edit.php:21-27 | the cast keeps the checkbox state of the stored value, and casting again changes nothing |
| PopupEdit.EditLoadsStoredRecord | wp-plugin/loop-product-selector/admin/popup-edit.php:19-27 | in edit mode the loaded record differs from the stored one in `show_on_desktop` at most |
| PopupEdit.UnknownIdAddsNew | wp-plugin/loop-product-selector/admin/popup-edit.php:15-44 | without an id, or with an unknown one, the page adds a new popup whose products JSON is "[]" |
| PopupEdit.StorageKeySchemeShared | wp-plugin/loop-product-selector/admin/popup-edit.php:31-39 | a new popup and a duplicate made in the same second get the same id and storage key |
| PopupEdit.NewPopupNeverEmitted | wp-plugin/loop-product-selector/admin/popup-edit.php:41 | a defaulted new popup has no products, so the server never publishes it |
| AdminForm.GetProducts | wp-plugin/loop-product-selector/admin/admin-scripts.js:113-131 | the loop returns the trimmed products of the items whose title, url and image are non-empty, in DOM order |
| AdminForm.FilledProductsSpec | wp-plugin/loop-product-selector/admin/admin-scripts.js:113-131 | the k-th product is the trimmed k-th filled item; each has non-empty title, url and image; every filled item appears |
| AdminForm.SubmitCheck | wp-plugin/loop-product-selector/admin/admin-scripts.js:72-88 | submission is allowed exactly when some item is filled; the per-product required-field branch is unreachable |
| AdminForm.Renumbered | wp-plugin/loop-product-selector/admin/admin-scripts.js:107-111 | the i-th item (from 0) is labelled i + 1, nothing else changes |
| AdminForm.RenumberKeepsProducts | wp-plugin/loop-product-selector/admin/admin-scripts.js:107-131 | renumbering does not change the product list |
| AdminForm.BlankItemAddsNothing | wp-plugin/loop-product-selector/admin/admin-scripts.js:18-25 | an item added from an empty product contributes no product |
| AdminForm.ProductForm.Load | wp-plugin/loop-product-selector/admin/admin-scripts.js:12-20 | one item per saved product with indices 0, 1, …; when none was saved, exactly one blank item; the hidden field keeps the server's text |
| AdminForm.ProductForm.AddProduct | wp-plugin/loop-product-selector/admin/admin-scripts.js:91-105 | the new item gets the counter as index and the counter + 1 as number, the counter goes up by exactly one, and the index is above every earlier one |
| AdminForm.ProductForm.UpdateProductNumbers | wp-plugin/loop-product-selector/admin/admin-scripts.js:107-111 | the loop labels each item with its position + 1 and changes no product |
| AdminForm.ProductForm.UpdateHiddenField | wp-plugin/loop-product-selector/admin/admin-scripts.js:133-136 | the hidden field holds the serialisation of `getProducts` |
| AdminForm.ProductForm.RemoveAt | wp-plugin/loop-product-selector/admin/admin-scripts.js:28-32 | the item goes, the rest are renumbered, the counter is not decremented, and the hidden field is refreshed |
| AdminForm.ProductForm.EditField | wp-plugin/loop-product-selector/admin/admin-scripts.js:35-37 | an input event changes that field and refreshes the hidden field |
| AdminForm.PreviewWidth | wp-plugin/loop-product-selector/admin/admin-scripts.js:141 | `parseInt(…) \|\| 768`: a missing field, NaN and 0 all give 768, any other parsed width is used as read, and the result is never 0 |
| AdminForm.PreviewConfig | wp-plugin/loop-product-selector/admin/admin-scripts.js:138-155 | no products aborts the preview; otherwise storage key "preview_" + now, the form's products, title defaulting to "Product Selection", and no `redisplayDays` or `showOnDesktop` |
| AdminForm.PreviewKeepsGates | wp-plugin/loop-product-selector/admin/admin-scripts.js:155-163 | the preview is the single candidate and still goes through the gates: over 768 pixels it is not shown |
| Pipeline.Published | wp-plugin/loop-product-selector/loop-product-selector.php:236-242 | the browser's list is the published entries, one for one |
| Pipeline.SelectPopupIsFirstShown | wp-plugin/loop-product-selector/assets/js/popup.js:34-52 | for stored popups whose rules lie in the modelled pattern language, server and browser together show the first stored popup that is enabled, has products, matches the page and passes both gates, or nothing when there is none |
| Pipeline.PublishedIsFilterMap | wp-plugin/loop-product-selector/loop-product-selector.php:219-243 | the browser's list is a filter of the stored popups |
| Pipeline.FirstQualifyingIsFirstWhere | wp-plugin/loop-product-selector/assets/js/popup.js:34-52 | the selection loop is the generic first-match search with the browser's test |
| Pipeline.EarlierStoredWins | wp-plugin/loop-product-selector/assets/js/popup.js:48-51 | when a stored popup would be shown, one is, and it is that popup or an earlier one |
| Pipeline.NeverOnDesktop | wp-plugin/loop-product-selector/loop-product-selector.php:236-242 | since the server never publishes `showOnDesktop`, no plugin popup is shown on a viewport over 768 pixels |
| Pipeline.DesktopSettingIgnored | wp-plugin/loop-product-selector/loop-product-selector.php:236-242 | changing a popup's desktop setting does not change whether it is shown |
| Pipeline.ShowOnceAfterExit | wp-plugin/loop-product-selector/assets/js/popup.js:76-82 | after any exit from a popup with re-display 0, that popup is never shown again |
| Pipeline.RedisplayAfterClose | wp-plugin/loop-product-selector/assets/js/popup.js:84-91 | after a close at T, a popup with re-display N > 0 is shown again on a phone exactly when now − T ≥ N days |
| Pipeline.ExitsLeaveOtherPopupsAlone | wp-plugin/loop-product-selector/assets/js/popup.js:405-408 | exits from one popup do not change whether a popup with another storage key is shown |
| Pipeline.ShownCardsAreStoredProducts | wp-plugin/loop-product-selector/assets/js/popup.js:296-312 | the modal a visitor sees shows the products stored with the selected popup, and at least one of them |

## Left out

- DOM and CSS work is left out: style injection, HTML building, attributes and `escapeHtml`. Only the modal's observable state is kept, and the `requestAnimationFrame` and timer callbacks become events of a sequential trace.
- The browser event loop, the 500 ms and 300 ms delays as durations, and cross-tab storage races are not modelled; events happen one at a time.
- WordPress plumbing is left out: `get_option`/`update_option`, transients, nonces, capability checks, hooks, menus, script enqueueing, the AJAX preview endpoint, notices and form markup.
- `sanitize_text_field`, `esc_url_raw`, `sanitize_textarea_field`, `json_decode`, `wp_json_encode` and `JSON.stringify` are uninterpreted functions passed in as parameters. `JSON.parse` is represented by the product list it yields, and its failure on malformed text is not modelled.
- FrontendFilter.Eligible, Pipeline.SelectPopup: a popup whose rules use characters outside the modelled pattern language is treated as never eligible. The source may still publish it, for instance through the exact-match fallback for a rule such as `/shop?page=2`. SelectPopup and the lemmas about it therefore require every stored popup's rules to be in the modelled language.
- PageRules.RuleMatches: only rules without the PCRE metacharacters `? + ( ) [ ] { } \ ^ $ |` and without NUL are modelled (the `Supported` precondition). What such characters, or a malformed pattern, would do in PCRE is not captured.
- PageRules.Match: the pattern carries no `u` flag, so PCRE works byte by byte and `/i` folds ASCII letters only, which is what the model does.
- PageRules.Match, PageRules.DotMatchesAnyChar: a character of the model stands for one byte of the PHP string. Request text holding multibyte UTF-8 characters must be read as its bytes; read as Unicode characters, a `.` in a rule would consume a whole character where PCRE consumes one byte, and that reading is not captured.
- PopupEngine.DaysComparison: the floating-point day computation is replaced by the exact integer comparison. Rounding of very large millisecond values is not captured.
- Text.ParseInt: hexadecimal prefixes, `Infinity` and the float precision of very long digit strings are not modelled.
- ProductSanitizer.Absint: `absint` is applied to an integer. PHP's conversion of the posted string to an integer is not modelled.
- FrontendFilter.Eligible: stored records are assumed to have every field. A PHP record missing `enabled`, `products` or `page_rules` (a PHP notice) is not modelled, and `mobile_max_width` is the only optional integer.
- PopupEngine.Stored, Modal.MarkAsShown: `localStorage.getItem` and `setItem` are assumed to succeed. The code has no try/catch: a throwing read (storage disabled) aborts the whole script so that no popup is shown, and a throwing write (quota) leaves the modal closed with nothing recorded. Neither failure is modelled.
- ProductSanitizer.RawItem: the field values of a decoded product are strings. A number, boolean, null or nested array as a field value (a set `"title": 5` stored as "5", a `"subtitle": null` that `isset` treats as absent) is not represented; the admin form only ever posts strings.
- The media-library uploader is not modelled (it sets an image field and refreshes the hidden field, as an input event does). Nor are the Ctrl+Shift+D debug toggles, console logging, or jQuery template substitution.
- AdminForm.ProductForm.AddProduct: while the hidden field holds a serialisation, only empty products may be added. The page itself only ever adds saved products before the first serialisation, and empty ones afterwards.
- The settings page's own HTML, and the rendering of the list and edit pages beyond the values computed here, are not part of this model.

Where the plugin's documentation and its code disagree, the model follows the code:

- Rules are documented as plain wildcards, but only `*` and `/` are rewritten. A `.` in a rule therefore matches any one character (PageRules.DotMatchesAnyChar).
- The edit page has a "Show on Desktop" setting, but the server never publishes `showOnDesktop`. So `popup.js` always defaults it to false, and no plugin popup appears on viewports over 768 pixels (Pipeline.NeverOnDesktop).
- The preview's "always show" override is only a comment: the preview goes through the usual gates (AdminForm.PreviewKeepsGates).
- The edit page's help text says a re-display value of 0 means "always show". The code makes 0 mean "show once" (Pipeline.ShowOnceAfterExit).
- Closing by button or overlay leaves the Escape listener registered. A later Escape rewrites the timestamp (Modal.EscapeAfterCloseRewritesTimestamp).
- `popup.js` does not filter incomplete products itself; only the server-side sanitisers do.
- The list page's rule count counts blank lines, which the matcher skips.
- Storage failures are documented as harmless (a failed read counts as absent, a failed write is ignored). In the code a failing read throws and suppresses every popup on the page.
