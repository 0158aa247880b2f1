# Zara stock-alert bot: a Dafny model of its checking and alerting core

The bot (`bot.py`) watches Zara product pages for Telegram users. A user sends
a link. The bot checks the page once with a headless browser and, if the check
did not crash, stores the product in an in-memory dict `tracked_products`.
Every few minutes a job rechecks every stored product. It sends a "back in
stock" message when a product goes from out of stock to in stock. Users can
list their products and delete them with inline buttons.

The model covers the three pieces of logic in that file. The browser and
Telegram are replaced by abstract inputs.

- `text.dfy` (module `Text`): the Python string operations the code branches
  on. These are `startswith`, the substring test `in`, and `replace(p, "")`.
- `stock_check.dfy` (module `StockCheck`): `check_zara_stock_selenium`. A page
  observation (`Page`) says whether navigation crashed, what the name and price
  lookups returned, and what the size step met:
  - the sold-out marker;
  - a timeout of the add button or of the size modal;
  - a list of size rows;
  - another crash.

  `CheckStock` builds the result record field by field, as the source does.
  `CollectSizes` is the loop that appends the labels of the purchasable rows.
  It is proved equal to the specification function `AvailableSizes`.
- `polling.dfy` (module `Polling`): the decision `periodic_check_job` makes for
  one product. It decides whether to alert and what `last_status` becomes. The
  module also proves the laws of a run of such steps: the edge trigger, the
  transparency of errors, no repeated alerts, and the retry after a failed send.
- `registry.dfy` (module `Tracking`): class `Registry` holds the dict (a `map`)
  and its insertion order (a `seq`). Its methods are `Add` (`add_url`),
  `Delete` (`callback_handler`), `RecordCheck` (one iteration of the periodic
  loop) and `PeriodicCheck` (the whole loop). The function `Listing` models
  `list_products`. The lemmas tie a series of cycles back to the per-product
  laws of `Polling`.

Some behaviours of `bot.py` that the model keeps as the code has them:
- A timeout of the add button or the size modal is a *successful*
  out-of-stock result, not an `'error'` result.
- A navigation timeout raised by `driver.get` is not inside the inner
  `TimeoutException` handler. It ends as status `'error'`.
- `add_url` does not check that its key is fresh. Storing under an existing
  key overwrites that record and keeps its position in the dict.
- The alert decision uses the record from the snapshot taken when the cycle
  starts (bot.py:227). A product deleted at any point after that snapshot is
  still checked in that cycle and can still be alerted. Writing its status
  afterwards raises `KeyError`, which is swallowed.

## Model

| member | source | states |
|---|---|---|
| `Text.StartsWith` | bot.py:219-220 | when `startswith` holds, the string is the prefix followed by the rest, which is what the `replace` decoding at bot.py:220 works on |
| `Text.StartsWithConcat` | bot.py:213-219 | any string built as `prefix + t` (the button data `"del_" + k`) passes `startswith(prefix)` |
| `Text.Contains` | bot.py:158 | the substring test `in` succeeds only when the needle is no longer than the string |
| `Text.ContainsHasOccurrence` | bot.py:114 | when the substring test succeeds, the needle occurs at some position of the string |
| `Text.OccurrenceIsContained` | bot.py:158 | every occurrence of the needle makes the substring test succeed, so `Contains` is Python's `in` |
| `Text.RemoveAll` | bot.py:220 | `replace(pat, "")` never lengthens the string, and it returns a string that does not contain `pat` unchanged |
| `Text.NoDelWithoutD` | bot.py:184-185 | a string without the letter `d` never contains `"del_"` |
| `StockCheck.Keeps` | bot.py:112-116 | a size row is kept when its `class` attribute was read and contains neither `is-disabled` nor `out-of-stock`, and its label text was read (a definition, without a contract of its own) |
| `StockCheck.AvailableSizes` | bot.py:111-118 | the size list has at most one entry per row; it is the specification the size loop is proved against |
| `StockCheck.CollectSizes` | bot.py:108-118 | the loop over the size rows returns exactly the labels of the kept rows, in row order (`AvailableSizes`) |
| `StockCheck.AvailableSizesAppend` | bot.py:111-118 | the size filter distributes over concatenation of row lists, so kept labels keep their relative order |
| `StockCheck.AvailableSizesSingle` | bot.py:112-116 | one row contributes its label exactly when its classes contain neither `is-disabled` nor `out-of-stock` and its label could be read; otherwise it contributes nothing |
| `StockCheck.AvailableSizesSound` | bot.py:111-118 | every reported size is the label of some kept row |
| `StockCheck.AvailableSizesEmptyIff` | bot.py:111-121 | the size list is empty exactly when no row is kept |
| `StockCheck.CheckStock` | bot.py:60-147 | status is `'error'` exactly on a crash, and then availability is out of stock with no sizes; the sold-out marker and a timeout give success, out of stock and no sizes; a size panel gives the kept labels; availability is in stock exactly when the size list is non-empty; name and price fall back to the placeholders, and the price is only taken when the name lookup succeeded |
| `Polling.Notifies` | bot.py:232 | an alert fires only on a successful check whose availability differs from the stored `last_status` |
| `Polling.Records` | bot.py:230-238 | an error result never reaches the write of `last_status`, and a write after the alert condition means the alert got through |
| `Polling.After` | bot.py:230-238 | after one step `last_status` is either unchanged or the new availability, and an error result leaves it unchanged |
| `Polling.Run` | bot.py:225-241 | after any run of checks the stored status is the registered one or the availability of some successful check of the run |
| `Polling.ErrorIsInert` | bot.py:229-230 | an error result sends no alert and leaves `last_status` unchanged |
| `Polling.SuccessRecords` | bot.py:232-238 | after a successful check with no failed send, `last_status` is the new availability |
| `Polling.FailedAlertIsRetried` | bot.py:232-240 | if the alert could not be sent, `last_status` is not updated, and the next successful in-stock result alerts again |
| `Polling.RunIsLastSuccess` | bot.py:227-238 | when every send succeeds, the stored status after any run of checks is the availability of the latest successful check (or the registered one); error results are transparent |
| `Polling.AlertIsRisingEdge` | bot.py:230-238 | when every send succeeds, step `i` alerts exactly when it is a successful in-stock check and the latest earlier successful check (or the registered status) was out of stock |
| `Polling.OutOfStockBetween` | bot.py:232-238 | if an in-stock success at `i` is followed by an out-of-stock latest success before `j`, a successful out-of-stock check lies strictly between them |
| `Polling.AlertsAreSeparated` | bot.py:232-238 | when every send succeeds, between any two alerts of a run there is a successful out-of-stock check, so consecutive in-stock results never alert twice and each return to stock alerts once |
| `Polling.TwoAlertsInCycle` | bot.py:232-238 | registered out of stock, then out, in, in, out, in: alerts fire at steps 1 and 4 only |
| `Tracking.MintKey` | bot.py:184-185 | the key is the user id, an underscore and the timestamp text, so the user id is a prefix and the timestamp is what follows the underscore |
| `Tracking.NewEntry` | bot.py:187-194 | the stored record: the link, the check's name and price, its availability as `last_status`, the user and the chat (a definition, without a contract of its own) |
| `Tracking.Without` | bot.py:222 | deleting a key keeps every other key, and no key twice; deleting an absent key leaves the order as it was |
| `Tracking.Listing` | bot.py:203 | a user's listing holds exactly the entries whose `user_id` is that user, with their records |
| `Tracking.ListingAfterInsert` | bot.py:187-203 | a fresh entry joins its owner's listing and no other user's listing changes |
| `Tracking.ListingAfterRemove` | bot.py:203-222 | deleting a key removes it from the listing that held it and changes nothing else |
| `Tracking.DeleteDataRoundTrip` | bot.py:213-220 | for a key without `"del_"`, the button data `"del_" + key` passes the prefix test and decodes back to the key |
| `Tracking.MintedKeyRoundTrip` | bot.py:184-220 | a key minted from a numeric user id and a numeric timestamp decodes back to itself from its delete button |
| `Tracking.Stepped` | bot.py:238 | one step changes at most an entry's `last_status`, and an error result changes nothing |
| `Tracking.AlertedKeys` | bot.py:227-237 | a cycle makes no more alert attempts than it visits keys (`AlertedKeysExact` says which keys) |
| `Tracking.AlertedKeysDistinct` | bot.py:227-237 | visiting distinct keys, a cycle tries to alert each key at most once |
| `Tracking.Polled` | bot.py:227-241 | a cycle keeps exactly the same keys |
| `Tracking.AlertedKeysEmpty` | bot.py:226 | an empty registry alerts nobody |
| `Tracking.AlertedKeysExact` | bot.py:227-237 | a cycle tries to alert exactly the stored entries whose `last_status` is out of stock and whose check is a successful in-stock result |
| `Tracking.PolledKeepsUnrecorded` | bot.py:230-240 | an error result, or a failed send, leaves that entry exactly as it was |
| `Tracking.PolledRecordsAvailability` | bot.py:238 | a successful check with no failed send sets that entry's `last_status` to the new availability and changes no other field |
| `Tracking.PolledManyFollowsRun` | bot.py:225-241 | over a series of cycles each entry keeps its other fields, and its `last_status` follows `Run` over its own results |
| `Tracking.CycleAlertIsAlertAt` | bot.py:225-241 | cycle `i` alerts an entry exactly when step `i` of that entry's own run alerts, so the edge-trigger laws hold per entry across cycles |
| `Tracking.Registry.constructor` | bot.py:36 | the registry starts empty |
| `Tracking.Registry.Add` | bot.py:156-194 | a text without `zara.com` or a check with status `'error'` changes nothing; otherwise the record (name, price, `last_status` = the check's availability, user, chat) is stored under `user_id + "_" + timestamp`; a fresh key is appended to the order |
| `Tracking.Registry.Delete` | bot.py:216-223 | deletes exactly the key decoded from `del_` button data when it is present; otherwise, including non-`del_` data, nothing changes |
| `Tracking.Registry.RecordCheck` | bot.py:228-240 | alerts exactly on out_of_stock→in_stock for a successful check; writes only `last_status`, only for a successful check whose send did not fail, and only if the key is still present |
| `Tracking.Registry.PeriodicCheck` | bot.py:225-241 | visits the keys in insertion order; the attempted alerts are `AlertedKeys` in that order; every entry ends as `Polled` says; the order is unchanged |

## Left out

- Driver construction and Chrome options (bot.py:38-58): these configure a foreign library.
- A failing `driver.quit` (bot.py:144-146): the exception it raises inside `finally` replaces the `return`, so the check raises instead of returning its result. `add_url` (bot.py:178) then stores nothing and sends no further reply. `periodic_check_job` (bot.py:239-240) swallows it, sends no alert and keeps `last_status`. `CheckStock` always returns a record; for the registry the effect is the same as an error result (`Add` gives `CheckFailed`, `RecordCheck` changes nothing), apart from the missing reply in `add_url`.
- Replies that raise before the registry changes: the "checking" reply in `add_url` (bot.py:162) and `query.answer()` in `callback_handler` (bot.py:218) end their handler before the check, the insertion or the deletion. `Add` and `Delete` assume these replies succeed.
- Navigation, waits, clicks and `asyncio.sleep` (bot.py:77-83, 101-108, 241): these are browser I/O and timing. They appear only as the `Page` observation the code branches on.
- Name and price scraping (bot.py:86-90): the page gives them as opaque optional strings.
- Screenshot capture and upload after a crash (bot.py:134-142): file and network I/O with no effect on the result.
- Telegram replies, message text, Markdown and inline keyboards (bot.py:154, 159, 162, 181, 196-199, 204-214, 218, 223, 233-237): UI rendering. A send's success or failure enters the model as `Observed.delivered`.
- The unused `run_sync` wrapper (bot.py:164-174), the handler registration and the job scheduling (bot.py:243-252): scheduling infrastructure. The handler's `Regex("zara.com")` pre-filter is also left out. It admits any character in place of the dot, and `add_url`'s own substring test then rejects those texts, so leaving it out changes nothing.
- Event-loop interleaving between the command handlers and the periodic job: concurrency. `PeriodicCheck` runs without interleaving. The effect of a deletion at any point after the cycle's snapshot (bot.py:227) is modelled per step by `RecordCheck`, whose decision uses the snapshot record and whose write is skipped when the key is gone.
- Environment and config loading (bot.py:29-31) and logging. The `ALLOWED_USERS` list is read but never used by the code.
- The wall-clock timestamp in the key (bot.py:185): it is a `stamp` parameter of `Add`.
