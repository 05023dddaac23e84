# Windrose Tours site logic, in Dafny

A model of the logic beneath the browser glue of the Windrose Tours
travel-agency site (`script.js`):

- **Carousel** (`carousel.dfy`): the slide controller built by
  `initCarousel` and `setupCarouselFunctionality` as a class
  `SlideController` with the current index, the hover flag, a flag for the
  pending auto-advance timer, and the touch and mouse-drag start positions.
  Each event handler is a method. The index is a `SlideIndex`, which can
  also be NaN: `initCarousel` has no zero-slide guard, so on an empty track
  the first tick computes `(0 + 1) % 0`.
- **Validation** (`validation.dfy`): `validateBookingForm` and
  `validateQueryForm` as functions returning the first failing check. The
  travel date and the member count are datatypes with an "unparsable" case,
  because in the source a NaN comparison is false and such input passes.
- **Storage** (`storage.dfy`): local storage as a map from key to either a
  parsed array of records or malformed text. A class `LocalStore` holds it,
  together with a quota function that decides whether a write is accepted.
  `getFromLocalStorage`, `saveToLocalStorage` and `saveFormToLocalStorage`
  are modelled, including the fallback to a one-record array.
- **Forms** (`forms.dfy`): the two submit handlers. A submission is
  validated, then appended unread.
- **Dashboard** (`dashboard.dfy`): the unread/read split, newest first,
  shared by `displayBookings` and `displayQueries`. Also the counts of
  `updateStats`, and `markAsRead`.
- **ServiceEditor** (`services.dfy`): `handleServiceSubmit`,
  `processServiceCard`, `deleteService` and `moveService` on the
  `serviceCards` key.

Records of all three kinds are one datatype `Records.Record` (id,
timestamp, read flag, content). A service card has no `read` property in
storage. An absent property is falsy, so the model gives a card
`read == false`.

The in-place edits copy the loaded array into a Dafny `array`, change it
where the source does (`item.read = true`, the three field assignments,
the destructuring swap), and save `a[..]`. Each state-changing method is
specified by a pure function of the old storage, and the lemmas state the
properties of those functions.

Behaviour the model makes visible:

- The timer pause is tied to hovering, not to dragging. A mouse drag that
  leaves the carousel fires `mouseleave`, and that re-arms the timer
  mid-drag. `Carousel.DragThenLeave` walks through this.
- When the browser refuses the longer array in `saveFormToLocalStorage`
  but accepts a one-record array, the fallback overwrites the key: every
  earlier booking (or query) is lost and only the new one remains.
  `Storage.AppendFallbackDropsHistory` states this.
- `moveService` on an unknown id writes nothing. `processServiceCard` with
  an unknown id still saves the unchanged array. `deleteService` always
  saves.

## Model

| member | source | states |
|---|---|---|
| Carousel.Next | script.js:81-85 | advancing keeps the index in [0, total), moves to the next slide, and wraps from total-1 to 0; with no slides (or from NaN) the index is NaN |
| Carousel.Advances | script.js:166-175 | a swipe or drag advances exactly when start - end > 50; rightward gestures and displacements of 50 or less never advance |
| Carousel.AdvanceWithinCycle | script.js:82 | k ticks (k at most total) from slide n land on n+k, wrapped once past the last slide |
| Carousel.FullCycle | script.js:88-92 | after total ticks the carousel is back at the slide it started from |
| Carousel.EmptyCarouselTick | script.js:66-82 | on a track with no slides the index is NaN after the first tick and after every later one, from any starting index |
| Carousel.SlideController.constructor | script.js:69-73 | a new controller is at slide 0, not hovered, not dragging, with the timer started |
| Carousel.SlideController.Setup | script.js:1019-1031 | no controller for zero slides; otherwise one at slide 0 with touch support only |
| Carousel.SlideController.Init | script.js:53-67 | custom cards on the home page hand over to Setup; otherwise the default slides get a drag-enabled controller |
| Carousel.SlideController.StartAutoSlide | script.js:88-92 | arms the timer only when not hovered |
| Carousel.SlideController.StopAutoSlide | script.js:94-99 | disarms the timer and changes nothing else |
| Carousel.SlideController.ResetAutoSlide | script.js:101-106 | afterwards the timer is armed exactly when not hovered |
| Carousel.SlideController.NextSlide | script.js:1036-1040 | the index advances by Next and the timer is reset |
| Carousel.SlideController.Tick | script.js:90 | a firing timer advances the index and leaves the timer armed |
| Carousel.SlideController.MouseEnter | script.js:111-114 | hovering disarms the timer |
| Carousel.SlideController.MouseLeave | script.js:116-119 | leaving re-arms the timer |
| Carousel.SlideController.TouchStart | script.js:124-127 | records the start position and disarms the timer |
| Carousel.SlideController.TouchEnd | script.js:1085-1096 | advances once exactly on a leftward swipe of more than 50, otherwise keeps the index; then the timer is armed exactly when not hovered |
| Carousel.SlideController.MouseDown | script.js:139-143 | on a drag-enabled carousel starts a drag and disarms the timer; otherwise does nothing |
| Carousel.SlideController.MouseUp | script.js:150-163 | ends a drag, advancing once exactly on a leftward drag of more than 50; no effect when no drag is active |
| Records.FirstIndexOf | script.js:507 | the result is the first position holding the id, or None exactly when no record has it |
| Validation.AllDigits | script.js:334 | true exactly when every character is in '0'..'9' |
| Validation.ValidateQuery | script.js:371-388 | accepts exactly when name has 2+ characters, mobile is 10 digits and message has 10+ characters; otherwise the first failing check is the error |
| Validation.ValidateBooking | script.js:326-369 | accepts exactly when all seven checks pass; each error is returned exactly when the checks before it pass and its own fails |
| Validation.AcceptedBookingFields | script.js:354-366 | an accepted booking has a ten-ASCII-digit mobile, a date present and not before today when it parses, and a count of at least 1 when it parses |
| Validation.ContactChecksAgree | script.js:371-380 | bookings and queries with the same name and mobile fail on the same contact error |
| Validation.ShortMobileRejected | script.js:334-337 | a five-digit mobile is rejected with the mobile error |
| Storage.Load | script.js:667-674 | a missing key and text that does not parse both read as the empty array; a saved array reads back as itself |
| Storage.Put | script.js:659-674 | reading a key after writing it gives back the written array; other keys are untouched |
| Storage.Written | script.js:659-665 | an accepted write makes the key read back as the items; a refused write changes nothing; other keys are untouched either way |
| Storage.Appended | script.js:408-420 | the result is one of three outcomes: unchanged storage, the old array plus the new unread record, or the new unread record alone; no other key appears or disappears |
| Storage.WriteThenLoad | script.js:659-674 | an accepted saveToLocalStorage followed by getFromLocalStorage returns the saved array |
| Storage.AppendAddsOneUnread | script.js:408-413 | on readable storage an accepted append yields the old array plus one unread record at the end, earlier records unchanged |
| Storage.AppendOnMalformed | script.js:414-419 | when the stored text does not parse, the key ends up holding just the new unread record |
| Storage.AppendFallbackDropsHistory | script.js:413-419 | when the longer array is refused but the one-record array is accepted, every earlier submission under the key is replaced by the new one |
| Storage.AppendTouchesOnlyItsKey | script.js:408-420 | an append never changes another key |
| Storage.LocalStore.Save | script.js:659-665 | the write happens when the quota accepts it, and is a no-op otherwise |
| Storage.LocalStore.SaveSubmission | script.js:408-420 | storage afterwards is Appended: push and write, falling back to a one-record array |
| Forms.SubmitBooking | script.js:253-276 | a rejected booking leaves storage unchanged; an accepted one is appended unread to "bookings" |
| Forms.SubmitQuery | script.js:291-311 | a rejected query leaves storage unchanged; an accepted one is appended unread to "queries" |
| Forms.RejectShortMobile | script.js:270-276 | submitting a booking with mobile "12345" leaves the stored bookings unchanged |
| Dashboard.UnreadOf | script.js:534 | every listed record is unread and comes from the input |
| Dashboard.ReadOf | script.js:535 | every listed record is read and comes from the input |
| Dashboard.SplitIsPartition | script.js:533-535 | the unread and read lists together hold every record exactly as often as the input; their lengths sum to the total |
| Dashboard.InsertNewest | script.js:538 | inserting into a newest-first list keeps it newest first and adds exactly that record |
| Dashboard.SortNewestFirst | script.js:537-539 | the result is a permutation of the input, ordered by non-increasing timestamp |
| Dashboard.ListingOf | script.js:566-578 | both panels are newest first; unread holds only unread records, read only read ones; no record is in both; together they are the input |
| Dashboard.CountsOf | script.js:481-501 | total is the length; unread and read counts equal the lengths of the two listed panels, so read = total - unread |
| Dashboard.UpdateStats | script.js:481-501 | for each kind: the total is the array length, the unread count is the number of unread records (the length of the unread panel), the read count is the length of the read panel, and the two sum to the total |
| Dashboard.MarkedRead | script.js:507-510 | the array keeps its length and every id, and the first record with the id is read afterwards |
| Dashboard.MarkedReadChangesOnlyFirst | script.js:507-510 | only the first record with the id changes, and only its read flag becomes true; with no such record nothing changes |
| Dashboard.MarkedReadIdempotent | script.js:504-511 | marking twice gives the same records as marking once |
| Dashboard.MarkedReadMonotone | script.js:510 | read flags never go back to false; ids, timestamps and contents are kept |
| Dashboard.UnreadAfterUpdate | script.js:482 | replacing one record changes the unread count by the change in that record's flag |
| Dashboard.MarkReadMovesOneCount | script.js:509-523 | marking an unread record lowers the unread count by one and raises the read count by one |
| Dashboard.MarkedReadKeepsIdsUnique | script.js:510 | marking keeps ids unique |
| Dashboard.MarkAsReadOn | script.js:504-525 | when no record has the id, storage is unchanged |
| Dashboard.MarkAsReadTwice | script.js:504-525 | two markAsRead calls with the same id leave storage as one does |
| Dashboard.MarkAsRead | script.js:504-525 | storage afterwards is MarkAsReadOn of the old storage |
| ServiceEditor.Processed | script.js:914-932 | an edit keeps the length, an addition adds exactly one card; every existing position keeps its id and timestamp |
| ServiceEditor.ProcessedEditsOnlyTarget | script.js:914-921 | an edit changes only the target card's icon, image and description; its id, timestamp and position, and every other card, stay; an unknown id changes nothing |
| ServiceEditor.ProcessedAppendsNewCard | script.js:922-932 | an empty id appends one new card at the end; earlier cards stay, and the fresh id is found at the last position |
| ServiceEditor.ProcessedKeepsIdsUnique | script.js:914-932 | edits, and additions with a fresh id, keep card ids unique |
| ServiceEditor.Deleted | script.js:963 | no remaining card has the id and every remaining card comes from the input |
| ServiceEditor.DeletedCounts | script.js:962-963 | delete removes every card with the id and keeps every other card as often as it occurred |
| ServiceEditor.DeletedKeepsOrder | script.js:963 | deletion distributes over concatenation, so the remaining cards keep their relative order |
| ServiceEditor.DeletedIdempotent | script.js:963 | deleting twice equals deleting once |
| ServiceEditor.DeletedKeepsIdsUnique | script.js:963 | deletion keeps card ids unique |
| ServiceEditor.Swap | script.js:977 | the two positions are exchanged, every other position is kept, and the multiset of cards is unchanged |
| ServiceEditor.Moved | script.js:970-985 | nothing is saved exactly when no card has the id; otherwise length and multiset of cards are kept |
| ServiceEditor.MovedSwapsNeighbours | script.js:976-980 | "up" at i > 0 swaps i-1 and i, "down" at i < n-1 swaps i and i+1, other positions untouched; at either end the array is unchanged |
| ServiceEditor.MovedKeepsIdsUnique | script.js:976-980 | moving keeps card ids unique |
| ServiceEditor.UpThenDownRestores | script.js:976-980 | with unique ids, moving a card up and then down restores the original order |
| ServiceEditor.SubmitCheck | script.js:875-883 | rejects exactly when icon or description is empty, or the id is empty and no file was chosen |
| ServiceEditor.ImageFor | script.js:886-905 | an uploaded image is used as is; without an upload the image is the stored image of the first card with the id, and there is none when no card has the id |
| ServiceEditor.EditWithoutUploadKeepsImage | script.js:898-904 | an edit without an upload rewrites the target card with its own stored image and the new icon and description, leaving every other card as it was |
| ServiceEditor.ProcessServiceCard | script.js:908-934 | without image data nothing changes; otherwise the Processed array is saved |
| ServiceEditor.HandleServiceSubmit | script.js:866-906 | failed upfront checks change nothing; otherwise processServiceCard runs on the cards read at submit time |
| ServiceEditor.DeleteService | script.js:957-965 | without confirmation nothing changes; otherwise the filtered array is saved |
| ServiceEditor.MoveService | script.js:970-985 | an unknown id writes nothing; otherwise the Moved array is saved |

## Left out

- Rendering: `updateCarousel`'s transform string, `createBookingHTML`, `createQueryHTML`, the markup in `loadServiceCards` and `updateCarouselServices`, and the modal, preview and message elements. These are browser output.
- `escapeHtml` is left out. It relies on the browser's DOM serialiser.
- The mobile menu, contact tabs, dashboard tabs, `openServiceModal`, `editService` and `closeServiceModal` are left out. They only toggle CSS classes or fill form fields.
- JSON encoding is not modelled. Stored text is either a parsed array of records or malformed. Valid JSON that is not an array (an object, a number, `null`) counts as malformed here, so it reads as the empty array. For `saveFormToLocalStorage` this matches the source, whose `push` throws inside the `try` and takes the one-record fallback. It does not match the service editor: on such a value `deleteService`, and a card edit or addition, throw at `.filter`, `.find`/`.findIndex` or `.push` and save nothing, whereas the model saves the filtered or processed empty array. `markAsRead` and `moveService` throw there too and save nothing, which the model matches because the empty array holds no record with the id.
- The storage quota is a function input. Which writes the browser refuses is not modelled.
- An exception from the fallback write escapes `saveFormToLocalStorage` and stops the handler before its success message. Storage is then unchanged, which the model captures. `Forms.SubmitBooking` and `Forms.SubmitQuery` still report the verdict, because messages are not modelled.
- Timers are a flag. The 3000 ms period, the 100 ms rebuild delay and the message auto-hide delays are not modelled.
- If `startAutoSlide` runs while an interval is already pending, the source leaks the first interval. The flag cannot count intervals.
- The rebuild in `updateCarouselServices` is not modelled. On the admin page, where cards are edited, it does nothing. On the home page it runs once and becomes `Carousel.SlideController.Init`'s call to Setup. Listeners left on the track by earlier setups are not modelled.
- Dates are not modelled. `today` and the travel date are integer day numbers and timestamps are integers. The UTC/local-midnight offset between `new Date("YYYY-MM-DD")` and `today.setHours(0,0,0,0)` is not captured. The `date` display string is omitted.
- `parseInt` is not modelled. A member count arrives as blank, a parsed integer, or NaN.
- `trim()` is not modelled; the form fields arrive already trimmed. String lengths count characters, not UTF-16 code units.
- `generateId`, `Date.now` and `Math.random` are not modelled. The id and time are inputs. Uniqueness lemmas assume the new id is fresh.
- The `FileReader` decode is treated as synchronous. The race with a second action before the decode finishes is not captured. The 5 MiB size check happens in the file input's change handler and is not modelled; the upload arrives as decoded data or none.
- `alert` and `confirm` are not modelled. Alerts become `EditResult` values and the confirm answer is a boolean input.
- Dashboard.SortNewestFirst: does not state that the sort is stable (records with equal timestamps keep their order), a guarantee of the JavaScript sort that no display property here depends on.
