# nuist_selectbeds — a Dafny model of the dormitory bed-selection script

`main.py` is a console script that reserves a dormitory bed on the NUIST housing portal.
It runs in four steps, and each step must succeed before the next one starts:

1. **Profile** (`get_personal_info`). Read the student's name and college from the `<p>` texts of the
   profile page. The name is the first text stripped. The college is the second text with the
   label `学院：` deleted, then stripped.
2. **Selection context** (`get_selection_params`). Read the one-time `token` from the selection page's
   token input. Read `subId` and `buildingId` from the first match of `KEY\s*=\s*'([^']+)';` in
   the page text.
3. **Catalog** (`get_and_display_rooms`). Ask the floor-listing endpoint for the building's floors,
   then ask the same endpoint once per floor with `floorId` bound. Concatenate the returned floor
   records in listing order. Give up if the listing is refused or empty, if the concatenation is
   empty, or if no bed anywhere carries the marker `notCho`. The displayed listing shows, per
   room, its `notCho` beds.
4. **Selection** (`select_bed`). Strip the operator's room and bed answers. Scan floors, rooms and
   beds with early `break`s for the first free bed of that name in a room of that name. Stop unless the room
   id, bed id and floor id are all truthy. Build the eight-field reservation form. Ask for
   confirmation (`strip().lower() == "y"`). Post the form and read the reply's `status`.

The model has one module per step (`Profile`, `EntryPage`, `Aggregator`, `Submitter`). `Pipeline`
models `main`'s wiring. There are also four support modules:

- `Text`: Python's `strip`, `lower` and `replace`.
- `Housing`: the floor, room and bed records and the `notCho` filter.
- `Replies`: transport and JSON outcomes, plus the shared `success` and `未知错误` constants.
- `Seqs`, `Wrappers`: generic helpers.

Every remote request is a parameter of the model:

- a reply value for the profile page;
- a function from the student to the selection page;
- a function from the request URL to the floor-listing reply;
- a function from the form to the reservation reply.

Each console answer is also a parameter, as a string. The loops of the source are methods, each
proved equal to a specification function:

- the per-floor fetch loop: `Aggregator.Aggregate`;
- the availability display loop: `Aggregator.ListAvailable` and `Aggregator.FreeBedsOf`;
- the triple lookup loop with `break`s: `Submitter.Lookup`.

The properties are lemmas about those functions.

## Model

| member | source | states |
|---|---|---|
| Text.TrimStart | main.py:75 | the result is a suffix of the input; everything cut off is white space; it does not start with white space |
| Text.TrimEnd | main.py:75 | the result is a prefix of the input; everything cut off is white space; it does not end with white space |
| Text.Strip | main.py:75-76 | the result has no white space at either end and is the input with an all-white-space run removed in front and behind |
| Text.StripPadded | main.py:224-225 | stripping white space added around a trimmed text gives exactly that text back |
| Text.StripIdempotent | main.py:75 | a property of the strip model: stripping twice is the same as stripping once |
| Text.Lower | main.py:265 | the result has the input's length and no ASCII capital letter left; a text is returned unchanged exactly when it has no capital |
| Text.LowerIdempotent | main.py:265 | lower-casing twice is lower-casing once |
| Text.RemoveAll | main.py:76 | deleting every occurrence of the label never lengthens the text and changes nothing when the label does not occur |
| Text.NoOccurrenceBefore | main.py:76 | when a label without a border follows a label-free text, no occurrence of it starts inside that text |
| Text.RemoveAllPassesOver | main.py:76 | for a label without a border, deletion keeps a label-free text, removes the label that follows it and carries on with the rest: applied repeatedly, this gives the result for every input |
| Text.RemoveLeadingLabel | main.py:76 | a text that starts with the label and has no other occurrence of it is returned without the label |
| Housing.FreeBeds | main.py:191-196 | the kept beds are no more than the room's beds and every one of them is marked `notCho` |
| Housing.FreeBedsMembers | main.py:192 | a bed is kept exactly when it is one of the room's beds and its marker is exactly `notCho` |
| Housing.FreeBedsAppend | main.py:191-196 | filtering keeps the room's order: it distributes over concatenation |
| Housing.FreeBedsNonEmpty | main.py:197-198 | a room is displayed exactly when one of its beds is marked `notCho` |
| Profile.ReadProfile | main.py:61-86 | the profile is read exactly when the request succeeds, the block is on the page and it has at least two texts; name and college have no surrounding white space and are no longer than their texts |
| Profile.CollegeLabelUnbordered | main.py:76 | the label `学院：` has no border, so two of its occurrences never overlap |
| Profile.RemoveCollegeLabel | main.py:76 | removing `学院：` from a college text keeps the label-free part before the first label, drops that label and carries on after it |
| Profile.ReadProfileRecovers | main.py:74-76 | a first text that is a padded name and a second that is the college label followed by a padded college give exactly that name and college |
| EntryPage.MatchAtExact | main.py:115-116 | the scanner yields value `v` at a position exactly when `KEY\s*=\s*'v';` with `v` non-empty and quote-free occurs there, so the capture at a position is unique |
| EntryPage.FindValueIsLeftmostMatch | main.py:115-123 | the value found is the capture of the leftmost occurrence of the pattern, is non-empty and has no quote; nothing is found exactly when the pattern occurs nowhere |
| EntryPage.ReadContext | main.py:106-123 | the context is read exactly when the request succeeds, the token value is present and both keys are found; the token is the input's value and the routing ids are the values the first-match scan finds for `subId` and `buildingId` |
| EntryPage.ReadContextRoutingIds | main.py:113-123 | the routing ids are the captures of the leftmost occurrences of their patterns; a page without one of the two patterns fails with `MissingRoutingIds` even when the token is present |
| Aggregator.FloorShowUrlInjective | main.py:171 | with building and sub-process fixed, different floor ids give different request URLs |
| Aggregator.ListingIsNoFloorRequest | main.py:147-171 | the listing URL is the per-floor URL with an empty floor id, and so differs from the URL of any floor whose id renders non-empty |
| Aggregator.GatheredCharacterized | main.py:163-178 | gathering succeeds exactly when every per-floor request does, and then yields the in-order concatenation of the pages' floor lists; otherwise it fails as the first failing page does, all earlier ones having succeeded |
| Aggregator.GatheredFailureSticks | main.py:166-178 | once the requests for a prefix of the floors have failed, the whole gathering fails the same way |
| Aggregator.OffersNonEmpty | main.py:185-205 | something is displayed exactly when some bed of some room of some floor is marked `notCho` |
| Aggregator.OfferOrigin | main.py:186-201 | every displayed line is a room of the catalog, labelled with its floor's number and its name as `get` shows them (`未知楼层` / `未知房间` when missing, `None` when null), listing that room's `notCho` beds in order, at least one |
| Aggregator.ListAvailable | main.py:184-205 | the nested scan produces exactly the displayed lines, and its flag is set exactly when some bed is `notCho` |
| Aggregator.FreeBedsOf | main.py:190-196 | the bed loop collects exactly the room's `notCho` beds in order |
| Aggregator.AggregateSucceeds | main.py:146-208 | the step succeeds exactly when the listing is `success` with a non-empty `floorSelect`, every per-floor request succeeds, the concatenation is non-empty and has a `notCho` bed; it then returns the concatenation unchanged, occupied beds included |
| Aggregator.Aggregate | main.py:143-215 | the fetch loop returns what the step's specification says, error cases included |
| Submitter.FirstMatchFrom | main.py:235-240 | the index found is the first bed at or after the start whose name is the requested one and whose marker is `notCho`; none is found exactly when there is no such bed |
| Submitter.CandidateCharacterized | main.py:234-240 | a room records ids exactly when its name is the requested one and it holds an accepted bed; the ids are the room's id, the id of its first accepted bed (where the bed loop breaks) and the room's floor id |
| Submitter.CandidatesMembers | main.py:232-240 | the ids the scan may record are exactly the candidates of the catalog's rooms, over all floors |
| Submitter.SettleNoTruthy | main.py:237-244 | while no recorded bed id is truthy the scan keeps going, and each match overwrites the previous one |
| Submitter.SettleFirstTruthy | main.py:240-244 | the scan stops at the first match whose bed id is truthy and keeps its ids |
| Submitter.SettleIsSomeCandidate | main.py:227-244 | the scan ends with the initial empty ids or with the ids of some match |
| Submitter.LookupFirstRoom | main.py:232-244 | if no earlier room in floor-then-room order matches, a matching room with a truthy bed id is the lookup's result; same-named rooms without an accepted bed are skipped |
| Submitter.LookupNone | main.py:227-248 | when no room of that name has a free bed of that name, nothing is recorded and the lookup is not resolved |
| Submitter.Lookup | main.py:227-244 | the triple loop with its `break`s computes the lookup's specification |
| Submitter.FormFields | main.py:253-262 | the form lists the keys roomId, bedId, floorId, token, buildingId, studentName, deptName and subId, in that order |
| Submitter.FormRoundTrip | main.py:253-262 | reading the sent form back key by key gives the payload, so each of the eight fields reaches the server under its own key |
| Submitter.ConfirmedExactly | main.py:265-268 | the answer confirms exactly when, stripped, it is `y` or `Y` |
| Submitter.LowerIsY | main.py:265 | lower-casing gives `y` exactly for `y` and `Y` |
| Submitter.DecideCases | main.py:246-268 | a form is posted exactly when all three ids are truthy and the operator confirmed; unresolved ids end as `NotFound` whatever the answer and an unconfirmed choice as `Cancelled`; the posted form carries the ids and the five parameters verbatim |
| Submitter.PostsOnlyWhenResolvedAndConfirmed | main.py:224-274 | the same for the whole selection step: posting happens exactly when the lookup of the stripped answers is resolved and the answer confirms |
| Submitter.PostedFormOrigin | main.py:232-262 | a posted form holds the room id and floor id of a room named by the stripped room answer, and the id of a `notCho` bed of it named by the stripped bed answer; the other five fields come from the parameters |
| Submitter.DecideVerdict | main.py:278-282 | a decoded reply is a reservation exactly when its status is `success`, reporting its `data`; otherwise a refusal with its message, `未知错误` when the message is missing and `None` when it is null |
| Submitter.VerdictFollowsReply | main.py:278-282 | the same, for the whole selection step |
| Submitter.ScenarioReserves | main.py:224-282 | one free bed, answers that strip to its room name, its bed name and `y` or `Y`, and a `success` reply: exactly the bed's ids and the parameters are posted, and the outcome is a reservation |
| Submitter.ScenarioDecides | main.py:246-282 | the scenario after the answers are read: the ids `R1`/`B1`/`F3` are posted and the reply is taken as a reservation |
| Submitter.ScenarioLookup | main.py:232-244 | the scenario's lookup records the room's and bed's ids |
| Submitter.ScenarioTaken | main.py:232-248 | with the only bed already chosen nothing is posted, whatever the confirmation answer |
| Submitter.ScenarioTakenLookup | main.py:232-244 | with the only bed already chosen the lookup records nothing |
| Submitter.EmptyBedIdIsOverwritten | main.py:237-244 | a matching free bed with an empty id does not stop the scan, so a later room of the same name overwrites its ids |
| Submitter.SelectBed | main.py:218-289 | the selection step computes its specification: strip, look up, check, confirm, post, interpret |
| Submitter.Submit | main.py:246-289 | after the lookup: the check of the three ids, the confirmation, the post and the reading of the reply, error outcomes included |
| Pipeline.RunReachesSelection | main.py:312-322 | the run stops at the profile exactly when it yields no non-empty name and college; it reaches the selection step exactly when profile, context (all three values non-empty) and catalog succeed; a stopped run posts nothing |
| Pipeline.PostedFormProvenance | main.py:312-333 | a posted form carries the profile's name and college (as `deptName`), the token and routing ids of the selection page requested for that student, all non-empty, and the ids of a free bed of the gathered catalog named by the operator's stripped answers |
| Pipeline.RunPipeline | main.py:311-333 | `main`'s sequence of steps computes the whole run's specification |

## Left out

- HTTP sessions, headers, cookies and `raise_for_status`. Each request is a parameter, and its failure is the `TransportError` reply. Logging (`log_request`) is diagnostic output and is not modelled.
- HTML parsing. The profile page reaches the model as the list of `<p>` texts of the `personal_left` block, or `None` when the block is missing. The selection page reaches it as the token input's `value` (`None` when the element or attribute is missing) together with the raw page text.
- JSON decoding. A reply is `Malformed` or an already-decoded envelope. A missing `data`, `floorSelect`, `floor`, `room` or `bed` key reads as an empty list.
- A `null` `floorSelect` or `floor` takes the same branch as an empty list (main.py:159, 177), so the model's `[]` covers it. A `null` `data`, `room` or `bed` makes the source raise; that is not modelled.
- Ids, bed names, `choose`, `status` and `data` are `Option`s, read with `get` and no default. A missing key and a `null` value are both `None`; they compare, test for truth and print the same way. The fields read through `get(key, default)` are `JsonText`s, so a missing key shows the default and a `null` value shows `None`. These are `message`, the `floorSelect` entry's `no`, the floor's `no` and the room's `name`. Ids are strings: the portal's ids are only compared for truthiness and sent back.
- Uncaught exceptions are not modelled. Examples are a JSON reply that is not an object, or fields of unexpected types: the source crashes or, in `select_bed`, prints a generic error.
- Console output, `argparse` and `input()`. The three answers are parameters and printing is not modelled.
- Query-string URL encoding done by `requests`. The URLs are modelled as the plain concatenation the f-strings write. The profile's name and college are passed as the argument of the selection-page request.
- `bedPrice` is kept as opaque text. It is passed through for display only.
- Aggregator.AggregateSpec: the source returns `None` for every failure. The model keeps the failure reasons apart (`Refused`, `NoFloors`, `NoRooms`, `FullyBooked`, transport and JSON errors); only whether the step succeeded is compared with the source.
- Submitter.Outcome distinguishes not found, cancelled, transport and JSON failures, and the server's verdict. The source only prints these.
- Text.Lower: lower-cases the ASCII capital letters only, not all of Unicode. It is used only in the comparison with `y`, and `Y` is the only character that lower-cases to `y`, so `Submitter.ConfirmedExactly` is unaffected.
- Profile.ReadProfile: its contract bounds and trims the two values rather than stating them for every input. The exact values for padded, labelled texts are stated by `Profile.ReadProfileRecovers`.
- The per-floor replies are read without a status check, like the source (main.py:176). A page whose `floor` list is empty adds nothing.
- Each floor-listing POST is a call of a function of its URL, so within one run two requests with the same URL get the same reply. Two `floorSelect` entries with the same `floorId`, or one whose id is empty, which repeats the listing URL, are sent separately by the source (main.py:172) and may be answered differently.
- The reservation request is modelled as a deterministic function of the form. The model does not cover retries, timing or concurrent reservations by other students.
