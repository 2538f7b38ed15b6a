# selectorpass, modelled in Dafny

SelectorPass is a browser extension that fills login forms using CSS
selectors the user configures for each domain. This project models its
three core parts:

- **the options page's store handlers** (`options.js`): domain-name
  validation and the handlers that add, rename, edit and delete domains
  and that add, edit, delete and reorder the credentials of a domain;
- **the popup** (`popup.js`): the recency policy `shouldMoveToTop`, the
  promotion `moveCredentialToTop`, and the guard, promotion and message
  of `fillCredentials`;
- **the content script** (`content-script.js`): the page-side
  `fillCredentials` and the message listener `handleMessage`.

Layout, one module per file:

| file | module | contents |
|---|---|---|
| `wrappers.dfy` | `Wrappers` | `Option` |
| `text.dfy` | `Text` | `String.prototype.trim` over the exact JavaScript white-space and line-terminator set |
| `domain_name.dfy` | `DomainName` | `isValidDomain`, written as the scanner its regular expression denotes. It is proved equal to "split at dots, every label valid, at most 253 characters". |
| `credential_list.dfy` | `CredentialList` | `splice(i, 1)`, `splice(i, 0, x)`, and the move and move-to-front built from them, on sequences |
| `store.dfy` | `Store` | the stored records, the store invariant `WellFormed`, and the `Storage` class (`loadData`/`saveData`) |
| `options.dfy` | `Options` | the options-page handlers as methods on `Storage` |
| `messages.dfy` | `Messages` | the fill message |
| `popup.dfy` | `Popup` | recency policy, promotion, fill planning and the popup's fill |
| `page_filler.dfy` | `PageFiller` | the page as a `Page` class: a selector table, an array of element values, event and response logs |

State in the model:

- **The stored map.** Every options-page handler loads the whole map,
  changes it in memory and saves it back. `Storage.domains` is that map.
  `Storage.writes` counts `saveData` calls, so an early return can be told
  apart from a save of an unchanged map.
- **Handler outcomes.** Each handler ends with an `Outcome`: `Saved`, or
  the alert it shows or the early return it takes.
- **Preserved invariant.** Each handler is proved to preserve
  `WellFormed`: every key is a valid domain name, and selectors and
  credentials are trimmed and non-empty.
- **The page.** The content script changes a page's element values in
  place. The model keeps them in an `array<string>` owned by a `Page`
  object. That object also logs dispatched events and the responses
  sent back.

Behaviour of the code worth knowing before reading the contracts:

- **Label length.** Domain labels have 2 to 63 characters. The pattern
  needs an alphanumeric character at each end of every label, so `a.com`
  is rejected (options.js:338, `DomainName.SingleCharacterLabelRejected`).
- **`saveDomain`** always stores `autoSortRecent: true`. It keeps the
  credentials already stored under the same name (options.js:401-406).
- **The popup never reads the page's reply.** It closes whenever the
  send resolves, including on `{success: false}`. It shows its error only
  when the send itself rejects (popup.js:316-330).
- **Order of the content script's checks.** It first checks that a
  message and a sender are present ("Invalid message or sender"), then
  the sender id, then the action (content-script.js:85-110).
- **`addCredential` on a domain that is not stored** returns silently
  without saving (options.js:845-848; `NotFound` in the model).

## Model

| member | source | states |
|---|---|---|
| Text.Trim | options.js:370-372 | The result starts and ends with a non-space. It is never longer than the input. It is empty exactly when the input is all white space. An already-trimmed string is left unchanged. |
| Text.TrimRemovesOuterSpace | options.js:370-372 | The result is exactly the slice of the input that starts after its leading white space, with only white space after it. So `trim` removes outer white space and nothing else. |
| DomainName.IsValidDomain | options.js:335-340 | True exactly when the name has at most 253 characters and every dot-separated label is valid: 2–63 characters, alphanumeric at both ends, hyphens only inside. |
| DomainName.Step | options.js:338 | One character of the pattern. A dot closes a label exactly when the label has at least two characters and ends alphanumeric. A label never grows past 63 characters. Only letters, digits, hyphens and dots keep the scanner alive. |
| DomainName.Run | options.js:338 | A failed scan stays failed. A scan that survives a string has seen only letters, digits, hyphens and dots. |
| DomainName.RunFrom | options.js:338 | After a partial label, the scanner accepts the rest of the input exactly when the partial label completed by the rest's first piece is valid, and so is every later piece. |
| DomainName.ScanMatchesLabels | options.js:338 | The pattern accepts a string exactly when every label from splitting it at dots is valid. |
| DomainName.SplitDots | options.js:338 | Splitting at dots gives at least one piece. No piece contains a dot. Joining the pieces with dots gives back the input. |
| DomainName.SplitJoin | options.js:338 | Splitting a dot-joined list of dot-free labels gives back the list. |
| DomainName.ValidDomainLabels | options.js:335-340 | A valid name is non-empty, and each of its labels has 2 to 63 characters. |
| DomainName.LabelsFormValidDomain | options.js:335-340 | Valid labels joined with dots, 253 characters at most in total, always form a valid name. |
| DomainName.SingleCharacterLabelRejected | options.js:338 | `a.com` is rejected: a one-character label is not allowed. |
| DomainName.ExampleDomainAccepted | options.js:335-340 | `example.com` is accepted. |
| DomainName.HyphenEndedLabelRejected | options.js:338 | `-bad-.com` is rejected: a label may not start or end with a hyphen. |
| CredentialList.RemoveAt | options.js:983 | `splice(i, 1)`: the list is one shorter. Later entries shift down by one. The removed entry plus the rest is the same multiset as before. |
| CredentialList.InsertAt | options.js:1380 | `splice(i, 0, x)`: the list is one longer and `x` is at `i`. Earlier entries stay in place and later ones shift up by one. |
| CredentialList.RemoveInsertInverse | options.js:1377-1380 | Inserting an entry and then removing it at the same index gives back the list. |
| CredentialList.AppendThenRemoveRestores | options.js:854-858 | Appending a credential and then deleting the last index gives back the list. |
| CredentialList.Move | options.js:1377-1380 | Same length and same multiset. The moved entry lands at `to`. Every other entry keeps its relative order: it stays put outside the range between `from` and `to`, and shifts by one inside it. |
| CredentialList.MoveUndo | options.js:1360-1388 | Moving back from `to` to `from` undoes a reorder. |
| CredentialList.MoveToFront | popup.js:369-372 | `splice` then `unshift` equals a reorder to index 0. |
| CredentialList.MoveToFrontOfFirst | popup.js:369-372 | Moving the first entry to the front changes nothing. |
| CredentialList.MoveExample | options.js:1377-1380 | Moving index 2 of `[A, B, C, D]` to index 0 gives `[C, A, B, D]`. |
| Store.Storage.constructor | options.js:77-85 | Empty storage loads as an empty map, and nothing has been saved yet. |
| Store.Storage.Save | options.js:91-98 | `saveData` replaces the whole stored map and counts one write. |
| Options.DomainFormCheck | options.js:375-393 | Accepts exactly when the three trimmed fields are non-empty, the domain is valid and both selectors are valid. Empty fields are reported first. |
| Options.DomainFormCheckOrder | options.js:375-393 | After the empty-field check, an invalid domain is reported before either selector, and the username selector is judged before the password selector. |
| Store.CredentialsOf | options.js:405 | `domains[domain]?.credentials`, or an empty list: an unknown domain gives an empty list. From a well-formed store, every entry is a valid credential. |
| Options.CredentialFormCheck | options.js:832-840 | Accepts exactly when both values are non-empty and at most 100 characters. An empty value is reported as missing, not as too long. |
| Options.SaveDomain | options.js:358-420 | On a failed check nothing is written. Otherwise exactly one key changes. It gets the trimmed selectors, `autoSortRecent: true` and its previous credentials. `WellFormed` is preserved. |
| Options.RenameFrame | options.js:1091-1097 | The map `saveDomainEdit` saves. The new name holds the new config. The old name is gone when it differs. Every other key is unchanged, and the store invariant survives a valid name and config. |
| Options.SaveDomainEdit | options.js:1037-1105 | Every alert path leaves the store unwritten. A rename onto another stored name is refused. Otherwise the new name gets the old name's credentials with the new selectors and flag. A different old name is removed. Nothing else changes, and `WellFormed` is preserved. |
| Options.DeleteDomain | options.js:1390-1415 | Cancelled: nothing is written. Confirmed: exactly that key is gone, nothing else changes, and the map is saved. |
| Options.AddCredential | options.js:819-872 | A valid pair is appended to a stored domain's list. Everything else stays as it was. Invalid input or an unknown domain writes nothing. |
| Options.SaveCredential | options.js:1176-1226 | The entry at `index` is replaced by the trimmed pair. All other entries and fields are kept. An unknown domain or index writes nothing. |
| Options.DeleteCredential | options.js:967-995 | Confirmed on an existing entry: exactly that entry is removed and order is kept. Otherwise nothing is written. |
| Options.ReorderCredentials | options.js:1360-1388 | Both indices in range: the list becomes `Move(list, from, to)`, a permutation. Otherwise nothing is written. |
| Options.DomainTakenAsWritten | options.js:1077 | The truthiness test `domains[newDomain]`. It holds for every stored key, and otherwise only for names inherited from `Object.prototype`. |
| Options.EditOutcomeAsWritten | options.js:1060-1080 | The outcome of `saveDomainEdit` as written. "Domain already exists" is reported exactly when the form checks pass, the name changes, and the truthiness test holds. |
| Options.InheritedNameReportedTaken | options.js:1077-1080 | `constructor` is a valid domain name that is not stored. Yet a rename to it with valid selectors ends, as written, in "Domain already exists". The own-key test of `SaveDomainEdit` lets it through. |
| Popup.ShouldMoveToTop | popup.js:343-346 | Never promote when auto-sort is explicitly off. When it is on or absent, promote exactly when the entry is not already first. |
| Popup.Promoted | popup.js:353-379 | With the domain stored and the index in range, the chosen entry becomes first. The rest keeps its order, and other fields and domains are unchanged. Otherwise the map is unchanged. |
| Popup.PromoteFirstIsIdentity | popup.js:343-346 | Promoting the first entry changes nothing. So the `credIndex > 0` test only saves a write. |
| Popup.PromoteKeepsWellFormed | popup.js:353-379 | Promotion preserves `WellFormed`. |
| Popup.MoveCredentialToTop | popup.js:353-379 | The stored map becomes `Promoted(old map)`. It is written exactly when the guard holds, and `WellFormed` is preserved. |
| Popup.FillAllowed | popup.js:272-291 | The guard chain. When it passes, there is a config and the index is in range. For a config that meets the store invariant, it passes exactly when the domain is non-empty and the index is in range. |
| Popup.PlanFill | popup.js:269-323 | Nothing happens unless every guard holds. Otherwise the popup promotes per `shouldMoveToTop` and sends a `fillCredentials` message with the trimmed selectors and credential. |
| Popup.StoredCredentialDispatchesExactly | popup.js:269-323 | For a config from a well-formed store and an index in range, the message carries exactly the stored values. All four are non-empty, so the page filler accepts them. |
| Popup.FillCredentials | popup.js:269-334 | The effects come in source order: the promotion is saved before the message is sent. Then the popup closes if the send resolves, or shows an error if it rejects. Without a tab, nothing is sent. The store changes only by the promotion, and it is written exactly when a promotion finds its entry. |
| Popup.TwoCredentialScenario | popup.js:294-323 | With `[alice, bob]` and auto-sort on, filling bob sends bob's values and stores `[bob, alice]`. |
| PageFiller.Page.Query | content-script.js:32-33 | `document.querySelector`: a selector missing from the page's table matches nothing, and a found element exists on the page. |
| PageFiller.Page.FromThisExtension | content-script.js:92 | The sender passes only when its id is present and equals `chrome.runtime.id`. When the runtime id is non-empty, this is exactly id equality. |
| PageFiller.Page.FillSucceeds | content-script.js:23-74 | True exactly when all four parameters are present, neither selector throws, and at least one field is found. |
| PageFiller.Page.ValuesAfterFill | content-script.js:32-60 | A found username field holds the username and a found password field holds the password. When both selectors find the same element, the password wins. No other element changes, and a refused fill changes nothing. |
| PageFiller.Page.EventsOfFill | content-script.js:38-57 | `input` then `change`, both bubbling, on each found field, username first. Nothing is dispatched for a refused fill. |
| PageFiller.Page.FillCredentials | content-script.js:23-74 | Returns `FillSucceeds`. The page's values become `ValuesAfterFill(old values)` and the events `EventsOfFill` are appended. |
| PageFiller.Page.HandleMessage | content-script.js:82-119 | Exactly one response per message. Missing message or sender, a foreign or absent sender id, or an unknown action each get their own error, and the page is not touched. A fill from this extension gets `{success}` and fills the page. |
| PageFiller.SuccessIffFieldFilled | content-script.js:62-68 | A fill reports success exactly when it dispatched events. After a success, some element holds the username or the password. |
| PageFiller.NoMatchFillsNothing | content-script.js:32-68 | When neither selector matches, the fill fails and changes nothing. |
| PageFiller.PasswordOnlyFillSucceeds | content-script.js:51-65 | When only the password field matches, the fill succeeds and writes only the password. |

## Left out

- The DOM and UI are not modelled: rendering, collapsible sections and their saved state, dialogs, drag-and-drop plumbing, URL parameters and the settings button. A confirmation dialog is a `confirmed` flag.
- `isValidSelector` is a function parameter, because it asks the browser whether `querySelector` throws. `document.querySelector` is a fixed table from selector to match, no match or syntax error.
- Storage I/O failures are not modelled, and neither are interleavings between handlers or last-write-wins races. Also out are the `catch` blocks that only log or show a retry message, and console output.
- Lengths count characters, while JavaScript counts UTF-16 code units. The 100-character bound on usernames and passwords therefore differs for characters outside the Basic Multilingual Plane. The 253-character bound on domains does not, because it applies only to names the ASCII-only pattern has accepted.
- Indices are integers. Non-numeric indices (`NaN` from a dataset attribute) are not modelled.
- The popup's "credentials is not an array" guard and the `!credential` test cannot fail in the model, because every stored config holds a sequence of credentials.
- Options.SaveDomainEdit and Options.SaveCredential trim the already-trimmed values once, where the source trims them twice. `Text.Trim` leaves a trimmed string unchanged.
- PageFiller.Page.HandleMessage: the `'Failed to fill credentials'` and `'Message handling failed'` replies are not modelled. They answer exceptions that the modelled fill converts to `false` before they reach the listener.
- Popup.FillCredentials: script injection is not modelled. The tab query is the `activeTab` parameter and the send result is the `delivered` parameter. Promotion uses the map loaded at click time, not the popup's snapshot.
- A successful injection (popup.js:307-310) runs content-script.js again. Its `init` registers `handleMessage` once more, with no guard (content-script.js:129-142). After repeated fills on one page load, one message then runs the fill once per registered listener. The model's single response, and its two events per found field, hold per `handleMessage` call, not per message.
- The page's own `input` and `change` listeners are not modelled. `dispatchEvent` runs them synchronously (content-script.js:44-45, 55-56), and they may change the page. PageFiller.Page.ValuesAfterFill's "no other element changes" holds only because those listeners are left out.
- `chrome.runtime.id` is the page's `runtimeId`. Registering the listener (`init`) is not modelled.

## Findings

| source | as written | input that shows it | evidently intended | confidence | as-written member | corrected member |
|---|---|---|---|---|---|---|
| options.js:1077-1080 | The duplicate check `domains[newDomain]` is also truthy for names every object inherits from `Object.prototype`. | Renaming a domain to `constructor` (a valid domain name) while nothing is stored under it is refused with "Domain already exists". | Refuse only when the new name is an own key of the stored map. | high (not executed) | Options.InheritedNameReportedTaken | Options.SaveDomainEdit |
