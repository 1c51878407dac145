# Clinic kiosk: presence debounce, child records and the card read

This project models the decision logic of a small clinic kiosk. An RFID
card identifies a child. A background loop reduces the reader's noisy
signal to one "current card" value. Request handlers look up, create or
edit the child's vaccination record in a document collection keyed by
card id.

Three pieces are modelled:

- **Card read** (`RfidReader`, for `read_rfid`). The two driver calls are
  inputs, each either a returned value or a raised exception. The result is
  `None` unless both statuses are OK. Otherwise it is the uid bytes
  rendered in decimal and joined without a separator.
- **Presence tracker** (`Presence`, for the `rfid_listener` loop). `Step`
  is one loop pass over the state (current uid, last seen). `Run` applies a
  sequence of passes. `Expected` is an independent description of where a
  run ends. `PresenceTracker` is the shared pair, updated in place, with a
  ghost history of the passes applied so far. Times are integer
  milliseconds, and a card is dropped once more than 3000 ms have passed
  since it was last seen (a strict `>`).
- **Record service** (`Records`, `Handlers`, `App`, for `home`, `save_new`
  and `update_vaccines`). The `children` collection is a map from card id
  to document. A document maps top-level fields to a string or a one-level
  string map. `set` replaces the whole document; `update` replaces only the
  named top-level fields. `Handlers` gives each handler as a function of
  the collection, the current card and the form. `App.ChildrenService`
  holds the collection and the snapshot cell and changes them in place.
  The submitted form (`Form`) is a sequence of (key, value) pairs read the
  way Flask's multi-valued form gives them: `form[key]` is the first value
  for that key, and iteration visits each key once, in the order it first
  appears.

Inputs the model takes as parameters: the uid the tracker holds when a
request arrives, the timestamp string a handler writes (opaque), the time
of each loop pass, and the driver's results.

Three behaviours of `app.py` are worth noting:
- `update_vaccines` accepts every form key that starts with `vaccine_`, not
  only recognised slot names. It derives the slot name with
  `replace("vaccine_", "")`, which removes every occurrence in one
  left-to-right pass, not just the prefix (`Text.RemoveAllAtFirst`,
  `Text.RemovesEveryOccurrence`, `Text.NoRescan`).
- A form key such as `vaccine_` leaves an empty slot name. The store
  refuses a map with an empty key, so that update raises and nothing is
  written (`Handlers.RefusedExactlyOnEmptySlot`).
- `home` reads the shared uid directly and never clears it.

## Model

| member | source | states |
|---|---|---|
| RfidReader.ReadRfid | rfid_reader.py:14-40 | The result is a string exactly when the request returned status OK and then the anticollision returned status OK; that string is the joined decimal rendering of the uid list; every raised exception and every other status gives `None` |
| RfidReader.AnticollOnlyAfterRequestOk | rfid_reader.py:22-26 | When the request raises or reports a status other than OK, the result is `None` whatever the anticollision call would have done, so it is never consulted |
| RfidReader.NatDecimal | rfid_reader.py:34 | `str(n)` of a non-negative integer is a non-empty string of decimal digits, with no leading zero except for 0 itself, one digit long exactly when n < 10 |
| RfidReader.Decimal | rfid_reader.py:34 | `str(x)` of a non-negative integer is all digits; of a negative one, a minus sign followed by digits |
| RfidReader.DecimalRoundTrip | rfid_reader.py:34 | Parsing the decimal rendering of n gives back n, so the rendering loses nothing |
| RfidReader.ByteDecimalWidth | rfid_reader.py:34 | A byte value renders as one to three decimal digits |
| RfidReader.JoinDecimal | rfid_reader.py:34 | No contract of its own: defines the separator-free join of the decimal renderings; `JoinAppend`, `JoinOfBytes` and `JoinIsNotInjective` state its behaviour |
| RfidReader.JoinAppend | rfid_reader.py:34 | The join is in order: rendering `a + b` is rendering `a` followed by rendering `b` |
| RfidReader.JoinOfBytes | rfid_reader.py:34 | For byte values the joined uid consists only of decimal digits, between one and three per byte, and is `""` exactly when the list is empty |
| RfidReader.JoinIsNotInjective | rfid_reader.py:34 | Without a separator, the different uid lists [1, 23] and [12, 3] both render as `"123"` |
| Presence.Present | app.py:48 | No contract of its own: the `if uid:` test, true only for a non-empty string; `EmptyUidReadsAsAbsent` and `UidIsLatestReading` state its consequences |
| Presence.Step | app.py:48-54 | No contract of its own: one pass of the loop body; `StepPresent` and `StepAbsent` state its behaviour |
| Presence.Run | app.py:45-56 | No contract of its own: the loop applying passes in order; `RunIsExpected`, `UidIsLatestReading` and `DebounceScenario` state its behaviour |
| Presence.StepPresent | app.py:48-50 | A truthy reading sets the uid to that reading and `last_seen` to now, whatever the state before |
| Presence.StepAbsent | app.py:51-54 | An absent or empty reading never changes `last_seen`; the uid is cleared exactly when now − last_seen > 3 s (or was already `None`), and is otherwise kept, including at exactly 3 s |
| Presence.RunIsExpected | app.py:45-56 | For every start state and every sequence of passes, the state reached equals `Expected`: the latest truthy reading and its time, cleared if some later pass came more than 3 s after it; with no truthy reading, the start state, cleared if some pass came more than 3 s after its `last_seen` |
| Presence.UidIsLatestReading | app.py:38-54 | From the initial state, after any passes, a non-`None` uid is the most recent truthy reading, is never `""`, and `last_seen` is that reading's time |
| Presence.DebounceScenario | app.py:48-54 | A card read at 0 s and absent afterwards is still present at 2.9 s and at exactly 3 s, and is gone at 3.1 s |
| Presence.EmptyUidReadsAsAbsent | app.py:46-54 | An empty uid list from the driver gives `""`, which the loop treats as no card: `last_seen` is not refreshed |
| Presence.PresenceTracker.constructor | app.py:38-39 | The shared state starts with no uid, `last_seen` 0 and an empty history |
| Presence.PresenceTracker.OnTick | app.py:48-54 | Updates the shared pair in place as `Step` does, appends the pass to the history, keeps `State == Run(Initial, history)`, and leaves a uid only when it is the latest truthy reading |
| Presence.PresenceTracker.Poll | app.py:46-54 | One loop pass: reads the card through `ReadRfid` and applies the result at the pass's time |
| Presence.PresenceTracker.Listen | app.py:42-56 | Running the loop over a finite sequence of passes leaves the state `Run(Initial, history)`, with exactly those readings appended to the history |
| Text.RemoveAll | app.py:150 | `str.replace(pat, "")` never makes a string longer and leaves a string without `pat` unchanged; `RemoveAllAtFirst` gives the rest of its meaning |
| Text.RemoveAllAtFirst | app.py:150 | One left-to-right pass: everything before the first occurrence is kept, that occurrence is deleted, and the pass continues after it. With the no-pattern case of `RemoveAll` this fixes the result for every input |
| Text.KeepUntil | app.py:150 | The pass started at position `k` keeps `s[k..i]` when no occurrence starts in between, then deletes the occurrence at `i` and continues after it |
| Text.NoRescan | app.py:150 | Text left behind by a deletion is not scanned again: `vaccine_vacvaccine_cine_BCG` becomes `vaccine_BCG` |
| Text.StartsWith | app.py:149 | No contract of its own: `str.startswith`; `StripPrefixAgrees` and `RemovePrefixRoundTrip` relate it to `RemoveAll` |
| Text.RemoveAllShortens | app.py:150 | A string containing the pattern comes out strictly shorter |
| Text.StripPrefixAgrees | app.py:149-150 | For a key starting with the pattern, removing every occurrence equals stripping the prefix exactly when the rest does not contain the pattern again |
| Text.RemovePrefixRoundTrip | app.py:149-150 | Prefixing a name that does not contain the pattern and removing the pattern gives back the name |
| Text.RemovesEveryOccurrence | app.py:150 | `"vaccine_BCGvaccine_"` is turned into `"BCG"`: later occurrences are removed too |
| Form.Get | app.py:88-95 | `request.form[key]` is defined exactly when the key was submitted, and is the first value submitted under it |
| Form.Keys | app.py:148 | Iterating the form visits exactly the submitted keys, each once |
| Form.FirstAtIsFirst | app.py:148 | `FirstAt` is the position of the first pair with the key, and lies inside the form exactly when the key was submitted |
| Form.KeysInFirstOrder | app.py:148 | Iteration lists the keys in the order of their first submitted pair |
| Form.GetFirst | app.py:88-95 | The value of the first pair with a given key is what `request.form[key]` returns |
| Records.KeyIsInjective | app.py:115-129 | Different fields are stored under different keys, so the field enumeration stands one to one for the stored names |
| Records.SetDocument | app.py:132 | `set` makes the document at the key exactly the given record and leaves every other document untouched |
| Records.UpdateDocument | app.py:153-157 | `update` keeps the set of documents, replaces each named top-level field wholesale, keeps every other field, and leaves other documents untouched |
| Records.TryUpdate | app.py:153-157 | The store's `update`: refused with nothing written exactly when the document is missing or a map value has an empty key; otherwise the merge, with every other document unchanged |
| Records.SetTwiceIsSetOnce | app.py:132 | Writing the same registration twice gives the same collection as writing it once |
| Records.PresetVaccines | app.py:98-112 | The preset vaccine map has exactly the thirteen slots BCG, DTP1-3, Hepatitis_B1-3, IPV1-3, MMR1, OPV0 and TD, each holding `"null"` |
| Records.SlotsAreDistinct | app.py:98-112 | The preset schedule lists thirteen different slot names |
| Records.NewChild | app.py:114-130 | The new record has every field; `card_id`, `clinic_id` and `nfc_id` all hold the submitted card id; name, dob and parent contacts are as submitted; the region is the three submitted parts; the vaccine map is the fresh preset schedule; the status is `pending`; `last_scan` is the given timestamp |
| Records.NewChildRegion | app.py:122-126 | The region map has exactly the keys state, district and panchayat, holding the submitted values |
| Handlers.Resolve | app.py:66-80 | No current uid: the waiting page and no write. The uid's document exists: the dashboard of the document as it was before the write. The document is missing: the registration page carrying the uid and no write. No document is ever created or removed |
| Handlers.ResolveTouchesOnlyLastScan | app.py:74-77 | Scanning a known card sets its `last_scan` to the new timestamp and changes no other field of it and no other document |
| Handlers.FirstMissing | app.py:88-95 | Finds the first required field, in reading order, that the form lacks; `None` exactly when all are present |
| Handlers.ParseRegistration | app.py:88-95 | Succeeds exactly when all eight fields are submitted, each taken as submitted; otherwise names a required field that is missing |
| Handlers.Register | app.py:87-130 | Fails exactly when a required field is missing; otherwise the record to write is the new record built from the submitted fields |
| Handlers.ParseFormOf | app.py:88-95 | Reading a complete registration form gives back exactly the eight values entered |
| Handlers.RegisterThenResolve | app.py:66-132 | Submitting a complete form builds the new record; after it is written under the submitted card id, scanning that card shows it, with all thirteen slots unset and status `pending` |
| Handlers.IsVaccineKey | app.py:149 | No contract of its own: the `startswith("vaccine_")` filter; `VaccinesFromSlots` and `VaccineUpdatesFromPrefixedKeys` state its effect |
| Handlers.SlotName | app.py:150 | No contract of its own: `replace("vaccine_", "")`; `VaccineUpdatesAreSubmittedSlots` and `LaterKeyForSlotWins` state its effect |
| Handlers.VaccinesFrom | app.py:147-151 | No contract of its own: the map after the loop has visited a list of keys; `VaccinesFromSlots` and `VaccinesFromValues` state its behaviour |
| Handlers.VaccineUpdates | app.py:147-151 | No contract of its own: the map built from all form keys; `VaccineUpdatesFromPrefixedKeys`, `VaccineUpdatesAreSubmittedSlots` and `CollectVaccines` state its behaviour |
| Handlers.VaccinesFromSlots | app.py:147-151 | After visiting a list of form keys, a slot is in the map exactly when some visited key starts with `vaccine_` and names that slot once `vaccine_` is removed |
| Handlers.VaccinesFromValues | app.py:147-151 | Each slot of the map holds the submitted value of the last visited key that names it |
| Handlers.VaccineUpdatesFromPrefixedKeys | app.py:147-151 | The map contains only entries from submitted keys starting with `vaccine_`, each holding that key's value; a form with no such key gives the empty map |
| Handlers.VaccineUpdatesAreSubmittedSlots | app.py:148-151 | When no slot name contains `vaccine_` again, a slot is in the map exactly when `vaccine_<slot>` was submitted, and it holds that field's value |
| Handlers.LaterKeyForSlotWins | app.py:147-151 | When `vaccine_BCG` and then `vaccine_vaccine_BCG` are submitted, both name `BCG` and the later one's value is kept |
| Handlers.CollectVaccines | app.py:147-151 | The loop over the form keys builds exactly the map `VaccineUpdates` describes, and every entry comes from a submitted `vaccine_` key |
| Handlers.ReviseVaccines | app.py:144-157 | Fails exactly when `card_id` is missing; otherwise it targets the submitted card and writes exactly three fields, `vaccines` (the collected map), `last_scan` and the status `updated` |
| Handlers.ReviseThenResolve | app.py:153-157 | After the update, the card's document holds the new vaccine map in place of the old one, not merged with it, and the status `updated`; every other field and every other document is unchanged, and scanning the card shows this document |
| Handlers.RefusedExactlyOnEmptySlot | app.py:148-157 | The store refuses the fields `update_vaccines` writes exactly when some submitted `vaccine_` key has an empty slot name |
| Handlers.BarePrefixIsRefused | app.py:148-157 | A form with `card_id` and a bare `vaccine_` field parses, but its update is refused: the slot name is empty |
| App.ChildrenService.Home | app.py:66-80 | Changes the collection as `Resolve` says and returns its page; without a current uid or with a missing document the collection is unchanged; the snapshot is never touched |
| App.ChildrenService.SaveNew | app.py:87-137 | A missing field is refused before any write; otherwise the document under the submitted card id is replaced by the new record and the snapshot becomes that same record |
| App.ChildrenService.UpdateVaccines | app.py:144-159 | A missing `card_id` is refused with no write; an update the store refuses (no document for the card, or an empty slot name) is a server error with no write; otherwise the card's document is updated with the fields `ReviseVaccines` gives; the snapshot is never touched |
| App.RegisterAndShow | app.py:66-137 | Starting from an empty collection, submitting a complete registration form and then calling `home` with its card shows the dashboard of exactly the new record, pending, with the fresh preset schedule |

## Left out

- The HTTP layer: routing, `render_template`, `redirect` and form parsing. Pages and replies are small datatypes; the form is a list of pairs.
- The document-store client and its credential setup (app.py:13-15). The collection is a map; remote errors, outages and retries are not modelled.
- Store errors: every exception the store raises during a request becomes the single reply `ServerError`; the error's kind and message are not modelled. Only two refusals are modelled, both for `update`: a missing document and an empty key inside a map value.
- Records.UpdateDocument: top-level field names are taken literally; the store's reading of dotted names as nested field paths is not modelled (no field name here contains a dot).
- Document contents: a document can hold only the eleven fields of a registered child, each a string or a flat string map. Documents with other fields or other kinds of values, which `home` would show and `update` would keep, cannot be represented.
- Document-id rules of the store (characters a card id may not contain) are not modelled.
- Threads and the unsynchronised sharing of `current_card` and `last_seen` between the loop and the handlers (app.py:43, 59): the handlers take the uid as a parameter.
- Presence.PresenceTracker.Listen: runs a finite sequence of passes, not the endless `while True`; the 0.2 s `sleep` between passes is left out.
- Time: the loop's float seconds from `time.time()` become integer milliseconds, so floating-point rounding is not modelled. `datetime.utcnow().isoformat()` becomes an opaque string parameter.
- The snapshot file: `save_cache` is a single overwritten cell; `load_cache` is never called by the handlers and is not modelled; JSON file I/O is left out.
- The MFRC522 driver: hardware access, the `REQIDL` request mode and the frames on the wire; `reader.OK` is taken as the status code 0. The `print` in the exception handler is left out.
- RfidReader.ReadRfid: uid elements are integers; a driver that returned other kinds of values (whose `str` differs) is not modelled.
