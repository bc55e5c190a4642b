/**
 * The `<gift-item>` element: the fields it updates in place and one method per
 * event it handles. Each method's effect on the reservation fields is the
 * matching transition of module Reservation, so every lemma proved there
 * holds of the element.
 */
module Widget {
  import opened Wrappers
  import opened Pricing
  import opened Rendering
  import opened Reservation

  class GiftItem {
    var mounted: bool
    var pending: bool
    var checked: bool
    var disabled: bool
    var armed: nat
    var handleLive: bool
    var readsInFlight: nat
    var togglesInFlight: nat
    var attrs: Attributes
    var view: View

    /** The reservation fields as a value. */
    function Snapshot(): State
      reads this
    {
      State(mounted, pending, checked, disabled, armed, handleLive, readsInFlight, togglesInFlight)
    }

    ghost predicate Valid()
      reads this
    {
      Inv(Snapshot())
    }

    constructor ()
      ensures Valid() && Snapshot() == Initial && attrs == NoAttributes && view == Blank
    {
      mounted, pending, checked, disabled := false, true, false, false;
      armed, handleLive := 0, false;
      readsInFlight, togglesInFlight := 0, 0;
      attrs := NoAttributes;
      view := Blank;
    }

    /** connectedCallback: render every field, create the disabled checkbox, send a status read. */
    method Mount(fmt: Formatter, parse: Parser)
      requires Valid() && !mounted
      modifies this
      ensures Valid() && Snapshot() == Step(old(Snapshot()), Event.Mount).next
      ensures attrs == old(attrs)
      ensures view == ConnectedRender(fmt, parse, attrs, old(view))
    {
      view := ConnectedRender(fmt, parse, attrs, view);
      mounted := true;
      checked := false;
      disabled := true;
      readsInFlight := readsInFlight + 1;
    }

    /**
     * The page sets attribute `name` to `newValue`; for an observed name the
     * browser then calls attributeChangedCallback(name, oldValue, newValue),
     * with the attribute already holding the new value.
     */
    method AttributeChanged(fmt: Formatter, parse: Parser, name: string, newValue: string)
      modifies this
      ensures Snapshot() == old(Snapshot())
      ensures attrs == WithAttribute(old(attrs), name, newValue)
      ensures view == match AttributeValue(old(attrs), name)
                      case None => old(view)
                      case Some(oldValue) =>
                        Rendering.AttributeChanged(fmt, parse, attrs, name, oldValue, newValue, old(view))
    {
      var oldValue := AttributeValue(attrs, name);
      attrs := WithAttribute(attrs, name, newValue);
      if oldValue.Some? {
        view := Rendering.AttributeChanged(fmt, parse, attrs, name, oldValue.value, newValue, view);
      }
    }

    /** updateCheckbox(state). */
    method UpdateCheckbox(state: string) returns (r: Outcome)
      requires Valid() && mounted
      modifies this
      ensures Valid()
      ensures Transition(Snapshot(), r) == Reservation.UpdateCheckbox(old(Snapshot()), state)
      ensures view == old(view) && attrs == old(attrs)
    {
      if state != "bought" && state != "unbought" {
        return Threw(InvalidCheckboxState);
      }
      if state == "bought" {
        if !checked { checked := true; }
      } else {
        if checked { checked := false; }
      }
      disabled := false;
      pending := false;
      r := Done;
    }

    /** pollStatus: arm a new interval and overwrite the handle with it. */
    method PollStatus()
      modifies this
      ensures Snapshot() == Reservation.PollStatus(old(Snapshot()))
      ensures view == old(view) && attrs == old(attrs)
    {
      armed := armed + 1;
      handleLive := true;
    }

    /** An ok response to a status read: `status` hands its status to updateCheckbox. */
    method StatusOk(status: string) returns (r: Outcome)
      requires Valid() && readsInFlight > 0
      modifies this
      ensures Valid()
      ensures Transition(Snapshot(), r) == Step(old(Snapshot()), Event.StatusOk(status))
      ensures view == old(view) && attrs == old(attrs)
    {
      readsInFlight := readsInFlight - 1;
      r := UpdateCheckbox(status);
      // on the read sent by mounting, the `then` that clears pending runs only
      // after updateCheckbox succeeded, which has cleared it already
    }

    /** A non-ok response to a status read: `status` throws. */
    method StatusFail() returns (r: Outcome)
      requires Valid() && readsInFlight > 0
      modifies this
      ensures Valid()
      ensures Transition(Snapshot(), r) == Step(old(Snapshot()), Event.StatusFail)
      ensures view == old(view) && attrs == old(attrs)
    {
      readsInFlight := readsInFlight - 1;
      r := Threw(ResponseNotOk);
    }

    /** The click listener on the reserved-label button, up to sending the toggle. */
    method Click()
      requires Valid() && mounted
      modifies this
      ensures Valid() && Snapshot() == Step(old(Snapshot()), Event.Click).next
      ensures view == old(view) && attrs == old(attrs)
    {
      disabled := true;
      pending := true;
      if handleLive {
        armed := armed - 1;
      }
      handleLive := false;
      togglesInFlight := togglesInFlight + 1;
    }

    /** The click listener after an ok toggle response. */
    method ToggleOk(status: string) returns (r: Outcome)
      requires Valid() && togglesInFlight > 0
      modifies this
      ensures Valid()
      ensures Transition(Snapshot(), r) == Step(old(Snapshot()), Event.ToggleOk(status))
      ensures view == old(view) && attrs == old(attrs)
    {
      togglesInFlight := togglesInFlight - 1;
      r := UpdateCheckbox(status);
      if r == Done {
        PollStatus();
      }
    }

    /** The click listener after a non-ok toggle response: it does nothing more. */
    method ToggleFail()
      requires Valid() && togglesInFlight > 0
      modifies this
      ensures Valid() && Snapshot() == Step(old(Snapshot()), Event.ToggleFail).next
      ensures view == old(view) && attrs == old(attrs)
    {
      togglesInFlight := togglesInFlight - 1;
    }

    /** One armed interval fires; `sent` tells whether it issued a status read. */
    method Tick() returns (sent: bool)
      requires Valid() && armed > 0
      modifies this
      ensures Valid() && Snapshot() == Step(old(Snapshot()), Event.Tick).next
      ensures sent == !old(pending)
      ensures view == old(view) && attrs == old(attrs)
    {
      sent := !pending;
      if sent {
        readsInFlight := readsInFlight + 1;
      }
    }
  }

  /**
   * Reserving an item: mount, the first read says "unbought", a click, and the
   * toggle answers "bought". The box ends checked and enabled, nothing is
   * pending and exactly one interval polls.
   */
  method ReserveScenario(fmt: Formatter, parse: Parser)
    returns (checked: bool, pending: bool, armed: nat)
    ensures checked && !pending && armed == 1
  {
    var item := new GiftItem();
    item.Mount(fmt, parse);
    var r := item.StatusOk("unbought");
    item.Click();
    r := item.ToggleOk("bought");
    checked, pending, armed := item.checked, item.pending, item.armed;
  }

  /**
   * Two quick clicks whose toggles both succeed, then a third click: one
   * interval is still armed though no handle names it any more.
   */
  method LeakScenario(fmt: Formatter, parse: Parser)
    returns (leaked: nat, handleLive: bool)
    ensures leaked == 1 && !handleLive
  {
    var item := new GiftItem();
    item.Mount(fmt, parse);
    var r := item.StatusOk("unbought");
    item.Click();
    item.Click();
    r := item.ToggleOk("bought");
    r := item.ToggleOk("unbought");
    item.Click();
    leaked, handleLive := item.armed, item.handleLive;
  }
}
