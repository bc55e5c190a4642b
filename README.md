# gift-item: reservation state machine and price rendering

A model of the `<gift-item>` custom element (`static/GiftItem.js`). The element
shows one catalog item and lets a viewer toggle the item's remote "reserved"
flag. Two parts of it are modelled and proved:

- **The reservation state machine.** The element's `pending` flag, the
  checkbox's `checked` and `disabled` attributes and the polling intervals
  change on seven events: mounting, an ok or failed status read, a click on
  the reserved-label button, an ok or failed toggle response, and an interval
  tick. Module `Reservation` gives each event as a transition (`Step`) over a
  `State` value and proves what runs of events do. Class `Widget.GiftItem`
  holds the same fields and has one method per event. Each method's `ensures`
  equates the new fields with `Step` applied to the old ones.
- **The price rule.** `Pricing.PriceProjection` decides from the current price,
  the original price and the description whether the discount block is shown
  and what the description says. `Rendering.ConnectedRender` (the rendering in
  `connectedCallback`) and `Rendering.AttributeChanged`
  (`attributeChangedCallback`) each carry their own copy of the rule, as the
  source does. Both are proved to compute `PriceProjection`.

Network responses are events. An event can only happen for a request that was
sent: a response needs a request in flight, and a tick needs an armed interval.
Intervals are a count (`armed`) plus a flag (`handleLive`) saying whether the
element's `interval` field still names one of them. `clearInterval` clears only
the interval that field names, and `pollStatus` overwrites the field.

This is what the code does, and the model keeps it as written:

- A click does not check `pending`. The button is never disabled, only the
  checkbox inside it. A second click sends a second toggle (`ClickIgnoresPending`).
- Mounting does not start polling. Only an ok toggle response calls
  `pollStatus` (`MountArmsNothing`).
- Two toggles answered ok leave two intervals armed. After that a click clears
  only one of them. The other is orphaned and is never cleared
  (`OverlappingTogglesOrphanAnInterval`, `OrphansNeverCleared`).
- A status read sent just before a click can arrive while the toggle is still
  outstanding. It then clears `pending` and re-enables the control
  (`StaleReadReenablesDuringToggle`).
- A failed toggle response leaves the control disabled and pending. Only a
  valid status from the server clears that (`PendingHoldsUntilConfirmed`).
  Clicks still send toggles, though.
- Changing `description` writes the bare text and drops the price suffix that
  a connected rendering shows (`DescriptionChangeDropsPriceSuffix`).

Parameters stand for things outside the model: the currency formatter
(`Formatter`, an uninterpreted `string -> string`) and `parseFloat` (`Parser`,
`string -> Option<real>`, where `None` is NaN).

## Model

| member | source | states |
|---|---|---|
| Reservation.ParseStatus | static/GiftItem.js:284-286 | the only statuses accepted are "bought" and "unbought"; every other string is rejected |
| Reservation.UpdateCheckbox | static/GiftItem.js:282-304 | an unknown status throws and changes nothing; a known one leaves the box checked iff "bought", enabled and not pending |
| Reservation.PollStatus | static/GiftItem.js:255-261 | arms one more interval and points the handle at it without clearing the previous one; nothing else changes |
| Reservation.Step | static/GiftItem.js:145-178 | every event keeps the invariant: the handle names an armed interval, and once mounted the box is disabled exactly while pending |
| Reservation.Run | static/GiftItem.js:145-178 | every admissible run of events keeps that invariant |
| Reservation.UpdateCheckboxIdempotent | static/GiftItem.js:288-303 | applying the same status twice gives the same state as applying it once |
| Reservation.MountArmsNothing | static/GiftItem.js:176-178 | after mounting: pending, disabled, unchecked, no interval armed, one status read sent; a failed read throws and changes nothing but the finished request |
| Reservation.ClickIgnoresPending | static/GiftItem.js:150-155 | a click, pending or not, disables the box, sets pending, clears the named interval and sends one more toggle; checked, mounted and the reads in flight are unchanged |
| Reservation.ToggleOkAdoptsServerStatus | static/GiftItem.js:164-168 | an ok toggle with a valid status shows that status whatever was shown, settles the control and arms one interval on top of those armed, orphaning the one the handle named |
| Reservation.FailedToggleStrandsControl | static/GiftItem.js:150-169 | a click answered by a non-ok toggle leaves the box pending and disabled with no handle, its checked state unchanged, and only the earlier orphaned intervals armed |
| Reservation.TickSamplesOnlyWhenIdle | static/GiftItem.js:256-260 | a tick sends exactly one status read when not pending and none when pending; nothing else changes |
| Reservation.CheckedIsLastConfirmed | static/GiftItem.js:288-301 | after any run the box shows the last valid status the server sent, or what it showed before if there was none |
| Reservation.CheckedIffLastBought | static/GiftItem.js:282-304 | from a new element, the box is checked iff the last valid status received is "bought" |
| Reservation.PendingHoldsUntilConfirmed | static/GiftItem.js:150-169 | once pending, every run without a valid server status keeps the element pending and disabled and sends no read: the reads in flight drop by exactly the reads answered |
| Reservation.OrphansNeverCleared | static/GiftItem.js:154 | the number of armed intervals that no handle names never goes down |
| Reservation.OverlappingTogglesOrphanAnInterval | static/GiftItem.js:255-256 | two clicks whose toggles both succeed, then a click, leave one more orphaned interval armed than before |
| Reservation.StaleReadReenablesDuringToggle | static/GiftItem.js:263-276 | a read sent by a tick before a click can land while the toggle is outstanding, clearing pending and enabling the box |
| Pricing.PriceProjection | static/GiftItem.js:116-136 | no current price: nothing written, bare description; else the description gains " - " + fmt(price), and the block shows fmt(original) then fmt(price) iff the original is set and parses strictly above the current |
| Pricing.UnparseablePriceShowsNoDiscount | static/GiftItem.js:120 | a price that parses to NaN never gives the discount block; the description still carries the current price |
| Pricing.NoDropSameAsNoOriginal | static/GiftItem.js:120-135 | an original price at or below the current one renders exactly as no original price |
| Rendering.ConnectedRender | static/GiftItem.js:94-142 | every field shows its attribute (both links get `link`), and the price fields are what PriceProjection computes |
| Rendering.AttributeChanged | static/GiftItem.js:194-253 | called with the attributes already holding the new value: equal old and new values change nothing; a change writes only the fields of that attribute; a non-price value is copied verbatim; a price change re-runs PriceProjection over both prices |
| Rendering.WithAttribute | static/GiftItem.js:207-208 | after an attribute is set, it reads back as the new value and every other attribute keeps its value |
| Rendering.PriceChangeAgreesWithConnectedRender | static/GiftItem.js:203-238 | after a price change the price fields equal those of a connected rendering of the same attributes |
| Rendering.DescriptionChangeDropsPriceSuffix | static/GiftItem.js:200-202 | with a current price set, a description change shows the bare text, unlike a connected rendering |
| Rendering.LinkChangeLeavesPictureLink | static/GiftItem.js:245-247 | a link change retargets #link and leaves #picture-link as it was |
| Widget.GiftItem.constructor | static/GiftItem.js:5-12 | a new element is pending, unmounted, with no interval, no attributes set and the blank shadow tree |
| Widget.GiftItem.Mount | static/GiftItem.js:94-178 | renders the element's own attributes as ConnectedRender, leaves them unchanged and makes the Mount transition |
| Widget.GiftItem.AttributeChanged | static/GiftItem.js:194-253 | stores the new attribute value, then for an observed name updates the view as AttributeChanged with the previous value as oldValue; the reservation fields are left alone |
| Widget.GiftItem.UpdateCheckbox | static/GiftItem.js:282-304 | changes the fields and returns the outcome as the UpdateCheckbox function |
| Widget.GiftItem.PollStatus | static/GiftItem.js:255-261 | changes the fields as the PollStatus function |
| Widget.GiftItem.StatusOk | static/GiftItem.js:263-273 | makes the StatusOk transition |
| Widget.GiftItem.StatusFail | static/GiftItem.js:266-275 | makes the StatusFail transition: throws, only the finished request changes |
| Widget.GiftItem.Click | static/GiftItem.js:150-163 | makes the Click transition |
| Widget.GiftItem.ToggleOk | static/GiftItem.js:164-168 | makes the ToggleOk transition: updateCheckbox, then pollStatus only if it did not throw |
| Widget.GiftItem.ToggleFail | static/GiftItem.js:164-169 | makes the ToggleFail transition: nothing more happens |
| Widget.GiftItem.Tick | static/GiftItem.js:256-260 | makes the Tick transition and reports a read sent iff not pending |
| Widget.ReserveScenario | static/GiftItem.js:150-168 | mount, a read "unbought", a click and a toggle "bought" end checked, not pending, one interval armed |
| Widget.LeakScenario | static/GiftItem.js:154-168 | two overlapping successful toggles and a further click leave one interval armed while the handle names none |

## Left out

- Shadow-DOM markup and styles, and `customElements.define`: layout and registration only.
- The `paper-checkbox` element (`checkbox.js`) is not part of this model. The model assumes it changes its `checked` and `disabled` attributes only through GiftItem's own calls: setting `disabled` on mount and on a click, and the `checked`/`disabled` updates in `updateCheckbox`. If the element flips `checked` by itself when clicked, that is outside the model. Reservation.CheckedIsLastConfirmed and Reservation.CheckedIffLastBought ("never set optimistically") rest on this assumption.
- `fetch`, the URLs, headers and JSON decoding: network I/O. Each response is an event carrying an ok status string or a failure.
- `setInterval`/`clearInterval` timing and the 10000 ms period: real time. A tick is an event, and armed intervals are a count.
- `Intl.NumberFormat` currency formatting: a foreign library, modelled as an uninterpreted `Formatter`.
- `parseFloat` float semantics: floating point, modelled as an uninterpreted `Parser` into `Option<real>`. NaN is `None` and never makes `Exceeds` true.
- Promise interleaving beyond one event at a time: concurrency. Each event runs to completion: a click and its toggle response are two events.
- Lowercasing of HTML attribute names, which keeps the `"originalPrice"` observation from ever firing: a DOM detail. `AttributeChanged` follows the switch as written.
- Absent attributes are empty strings. `getAttribute` returns `null`, which concatenation would turn into `"null"`. This is a JavaScript coercion detail.
- Widget.GiftItem.Mount: requires an element that is not mounted yet. A second `connectedCallback` would add a second button and checkbox, and later `querySelector` calls would find the first one. That is not modelled.
- Removal of the element: the source has no `disconnectedCallback`, so intervals are never released on teardown, and the model has no teardown event.
