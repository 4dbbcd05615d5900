# Visitors screen rules

A model of the rule layer of the visitors screen of a pay-per-time venue dashboard. The
screen lists the day's visitors (active, paused or finished), lets the operator add a
visitor quickly by name, pause or resume a visitor, edit rows in a table whose name and
tariff columns are validated, and close the day. Closing archives the visitors into
history, and the screen allows it only when every visitor is finished.

The model has five modules:

- `Wrappers`: `Option`, used for JavaScript values that may be `undefined` and for lookups that can miss.
- `Visitors`: the records (visitor, time entry, tariff), the status codes and the action payloads. Status codes are active = 0, pause = 1, finished = 2.
- `Lowercase`: the `toLowerCase` used for name comparison.
- `VisitorRules`: the pure rules and the lemmas about them. These are the close-day gate `isPayedVisitors`, duplicate-name validation, the name and tariff column validators, the pause/resume choice, `visitors.find`, and the tariff lookup as a left fold.
- `VisitorsScreen`: the component as the class `VisitorsComponent`. Its props are `visitors`, `tariffs` and `defaultTariff`. `ReceiveVisitors` replaces `visitors` when the store passes a new list on a re-render. Its state is `fastVisitorName` and `fastVisitorNameInvalid`, and the ghost field `checkedAgainst` records the list the field was last checked against. `log` holds, in order, every action of the modelled handlers (add, event, history-put, opening the history modal). The methods change only what their `modifies` clauses name. Each method says exactly what it appends to `log`.

The store's reducers are outside the model, so dispatching an action only records it. `Date.now()` becomes the `now` parameter of `HandleTogglePause`.

## Model

| member | source | states |
|---|---|---|
| `Visitors.Status.Code` | src/screens/VisitorsScreen/VisitorsScreen.test.tsx:67-76 | a status is stored as a number below 3; 0 means active exactly, 2 means finished exactly, so pause is 1 |
| `Visitors.StatusFromCode` | src/screens/VisitorsScreen/VisitorsScreen.test.tsx:67-76 | a stored number is a status exactly when it is 0, 1 or 2, and it reads back to the status with that code |
| `Visitors.StatusCodeRoundTrip` | src/screens/VisitorsScreen/VisitorsScreen.test.tsx:67-76 | reading a status's code back gives the same status |
| `Lowercase.Lower` | src/screens/VisitorsScreen/VisitorsScreen.tsx:102 | lower-casing keeps the length and maps each character on its own |
| `Lowercase.LowerIdempotent` | src/screens/VisitorsScreen/VisitorsScreen.tsx:102 | lower-casing an already lower-cased name changes nothing |
| `Lowercase.LowerOfUpper` | src/screens/VisitorsScreen/VisitorsScreen.tsx:102 | a name and its upper-cased form lower-case to the same string |
| `VisitorRules.Unfinished` | src/screens/VisitorsScreen/VisitorsScreen.tsx:60-62 | the filter keeps exactly the visitors that are not finished: everything it keeps is a listed unfinished visitor, and every listed unfinished visitor is kept |
| `VisitorRules.UnfinishedEmpty` | src/screens/VisitorsScreen/VisitorsScreen.tsx:60-63 | filtering out the finished visitors leaves nothing exactly when every visitor is finished |
| `VisitorRules.IsPayedVisitors` | src/screens/VisitorsScreen/VisitorsScreen.tsx:59-64 | true exactly when every visitor's status is finished; true for an empty list |
| `VisitorRules.CloseDayAction` | src/screens/VisitorsScreen/VisitorsScreen.tsx:277-281 | close day dispatches history-put exactly when all visitors are finished, and otherwise opens the history reminder modal |
| `VisitorRules.LowerNames` | src/screens/VisitorsScreen/VisitorsScreen.tsx:102 | one lower-cased name per visitor; a string is among them exactly when some visitor's name lower-cases to it |
| `VisitorRules.ValidateVisitorName` | src/screens/VisitorsScreen/VisitorsScreen.tsx:101-103 | a name is taken exactly when some visitor's name equals it after both are lower-cased |
| `VisitorRules.ValidateIgnoresCase` | src/screens/VisitorsScreen/VisitorsScreen.tsx:101-103 | two names that lower-case alike get the same verdict |
| `VisitorRules.ValidateUnderCaseChange` | src/screens/VisitorsScreen/VisitorsScreen.tsx:101-103 | upper-casing or lower-casing a name does not change whether it is taken |
| `VisitorRules.ExistingNameTaken` | src/screens/VisitorsScreen/VisitorsScreen.tsx:101-103 | every listed visitor's own name counts as taken |
| `VisitorRules.Ids` | src/screens/VisitorsScreen/VisitorsScreen.tsx:146 | one id per visitor; an id is among them exactly when some visitor has it |
| `VisitorRules.IsExistingRow` | src/screens/VisitorsScreen/VisitorsScreen.tsx:146 | a row is an existing one exactly when its id is defined and some listed visitor has it |
| `VisitorRules.NameColumnError` | src/screens/VisitorsScreen/VisitorsScreen.tsx:142-152 | the duplicate-name error is returned exactly when the name is non-empty, is taken ignoring case, and the row's id is not a listed visitor's id; otherwise the empty string |
| `VisitorRules.EditedRowNeverFlagged` | src/screens/VisitorsScreen/VisitorsScreen.tsx:142-152 | a row carrying a listed visitor's id is never flagged, whatever name it holds |
| `VisitorRules.TariffColumnError` | src/screens/VisitorsScreen/VisitorsScreen.tsx:159-165 | 'Укажите тариф' exactly when the tariff id is undefined or 0, and the empty string otherwise |
| `VisitorRules.FindById` | src/screens/VisitorsScreen/VisitorsScreen.tsx:92 | finds a visitor exactly when one has the id, and then it is the first such visitor in the list |
| `VisitorRules.NextStatus` | src/screens/VisitorsScreen/VisitorsScreen.tsx:93-97 | the toggle never sends finished; it sends pause exactly when the visitor is active |
| `VisitorRules.ToggleTwice` | src/screens/VisitorsScreen/VisitorsScreen.tsx:91-98 | toggling an active or paused visitor twice brings it back to its status |
| `VisitorRules.TariffLookup` | src/screens/VisitorsScreen/VisitorsScreen.tsx:117-123 | the reduce as a left fold; every key is the id of some active tariff (the titles are stated by `TariffLookupTitle`) |
| `VisitorRules.TariffLookupOtherStep` | src/screens/VisitorsScreen/VisitorsScreen.tsx:119-121 | a tariff that is inactive, or has another id, leaves the entry for an id as it was |
| `VisitorRules.TariffLookupKeys` | src/screens/VisitorsScreen/VisitorsScreen.tsx:117-123 | the lookup's keys are exactly the ids of active tariffs, so an inactive tariff never appears on its own |
| `VisitorRules.TariffLookupTitle` | src/screens/VisitorsScreen/VisitorsScreen.tsx:117-123 | each key maps to the title of the last active tariff with that id |
| `VisitorsScreen.VisitorsComponent.constructor` | src/screens/VisitorsScreen/VisitorsScreen.tsx:99-100 | the component mounts with an empty quick-add field, the flag off and nothing dispatched |
| `VisitorsScreen.VisitorsComponent.Valid` | src/screens/VisitorsScreen/VisitorsScreen.tsx:99-116 | a raised invalid flag means the field's name is taken in the list it was last checked against; it also allows the field emptied by a submission or at mount, with the flag off |
| `VisitorsScreen.VisitorsComponent.ReceiveVisitors` | src/screens/VisitorsScreen/VisitorsScreen.tsx:314-316 | a re-render replaces the visitor list and keeps the quick-add field, its flag and the log |
| `VisitorsScreen.VisitorsComponent.HandleTogglePause` | src/screens/VisitorsScreen/VisitorsScreen.tsx:91-98 | for a listed id: exactly one event with the row's id, the given timestamp, and pause if the stored visitor is active, active otherwise; for an unlisted id the lookup throws and nothing is dispatched |
| `VisitorsScreen.VisitorsComponent.ChangeVisitorFast` | src/screens/VisitorsScreen/VisitorsScreen.tsx:104-108 | the field holds the typed text; the flag is its duplicate-name verdict against the current list, which becomes the list it was checked against; nothing is dispatched |
| `VisitorsScreen.VisitorsComponent.SubmitVisitorFast` | src/screens/VisitorsScreen/VisitorsScreen.tsx:109-116 | an empty or flagged field dispatches nothing and keeps its text; otherwise exactly one add with that name, the default tariff and discount 0, then the field is cleared; an added name was free in the list the field was last checked against, and so in the current list if that list has not changed since |
| `VisitorsScreen.VisitorsComponent.TariffsColumn` | src/screens/VisitorsScreen/VisitorsScreen.tsx:117-123 | the in-place reduce builds the same lookup as the left fold that `TariffLookupKeys` and `TariffLookupTitle` describe |
| `VisitorsScreen.VisitorsComponent.CloseDay` | src/screens/VisitorsScreen/VisitorsScreen.tsx:277-281 | appends one action: history-put exactly when all visitors are finished, otherwise the reminder modal toggle |

## Left out

- `Lowercase.Lower` lower-cases only A-Z and the Cyrillic capitals U+0400..U+042F. JavaScript's `toLowerCase` handles all of Unicode, including special cases, and that is not modelled. The rules use lower-casing only through a pointwise, idempotent map. `Lowercase.LowerOfUpper` and the upper-casing half of `VisitorRules.ValidateUnderCaseChange` hold for this modelled case map only. JavaScript's case mappings can change the length: `"ß".toUpperCase()` is `"SS"`. So with a listed "Straße", the source rejects "Straße" but accepts "STRASSE".
- VisitorsScreen.VisitorsComponent.SubmitVisitorFast: does not promise that an added name is free in the current list. The flag is only recomputed when the field is typed in, so after `ReceiveVisitors` brings in a list where the name is taken, a submission still adds it, as the source does. `StaleFlagScenario` walks through such a case: a table row is renamed to the name in the field, and the name is then added a second time.
- `tariffs` and `defaultTariff` are constant in the model. Only the visitor list is replaced on a re-render, because it is the only prop the modelled rules keep state against.
- The store's reducers (add, edit, delete, event, history-put, modal toggles) are not modelled, so an action only appends to `log`. The reducers live in `./reducer`, which is not part of this model. The same goes for the live set being emptied when the day is closed.
- `calculateDuration` and `calculateCostHelper` are not part of this model. The duration and cost columns, the "Рассчитать" pay action and the pay dialog only forward to them and to reducer actions, so they are left out too.
- The `setInterval` timer that dispatches `updateTimer(Date.now())` every minute is left out: it is a timed side effect with no rule in it.
- Left out as UI plumbing: the table configuration, row styling, icons, dialogs, the deep copy of the visitor list handed to the table, the row add/update/delete wiring and the `connect` mapping.
- `HandleTogglePause` resumes a finished visitor too (the `else` branch). The table shows the toggle button only for active and paused rows, so this does not arise in use. The model keeps the branch as written.
- The tariff status codes come from the tariffs screen's reducer, which is not part of this model. They are modelled as a two-valued enum.
