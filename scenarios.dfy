/**
 * Sequences of calls on one table and what they add up to: the promises of
 * src/table.js that are about more than one call.
 */
module Scenarios {
  import opened Options
  import opened Table
  import FormatCell

  /** `header()` twice creates the header bar once. */
  method HeaderTwice<D>(t: Table<D>)
    modifies t`header, t`calls
    ensures t.header
    ensures t.calls == old(t.calls) + When(!old(t.header), Insert(HeaderBar))
  {
    t.Header(true);
    t.Header(true);
  }

  /** `footer()` twice creates the footer bar once. */
  method FooterTwice<D>(t: Table<D>)
    modifies t`footer, t`calls
    ensures t.footer
    ensures t.calls == old(t.calls) + When(!old(t.footer), Insert(FooterBar))
  {
    t.Footer(true);
    t.Footer(true);
  }

  /** `scroller(width)` twice creates the scroller once. */
  method ScrollerTwice<D>(t: Table<D>, w1: string, w2: string)
    requires t.PartsValid() && t.attached
    modifies t`scroller, t`scrollerMedia, t`scrollerShift, t`calls
    ensures t.PartsValid() && t.scroller
    ensures t.calls == old(t.calls) + When(!old(t.scroller), Insert(ScrollerWidget))
  {
    var _ := t.Scroller(Width(w1));
    var _ := t.Scroller(Width(w2));
  }

  /** `inset(width)` twice installs the media queries once; `inset(false)` twice removes them once. */
  method InsetOnOffTwice<D>(t: Table<D>, w1: string, w2: string)
    requires t.PartsValid() && t.attached
    modifies t`rootMedia, t`bodyMedia, t`calls
    ensures t.PartsValid() && !t.rootMedia && !t.bodyMedia
    ensures t.calls == old(t.calls) + When(!old(t.rootMedia), Insert(InsetMedia)) + [Delete(InsetMedia)]
  {
    var _ := t.Inset(Width(w1));
    var _ := t.Inset(Width(w2));
    var _ := t.Inset(Remove);
    var _ := t.Inset(Remove);
  }

  /** Rendering the same data twice: the second call finds them stored and does nothing. */
  method RenderTwice<D>(t: Table<D>, d: seq<D>, k: Option<KeyFn>)
    modifies t`data, t`key, t`calls
    ensures t.data == Some(d)
    ensures t.key == if old(t.data) == Some(d) then old(t.key) else k
    ensures t.calls == old(t.calls) + (if old(t.data) == Some(d) then [] else old(t.RenderCalls(d, k)))
  {
    t.Render(Some(d), k);
    t.Render(Some(d), k);
  }

  /** Unlike rendering the same data twice, `render()` twice joins the stored data again each time. */
  method ReloadTwice<D>(t: Table<D>)
    modifies t`data, t`key, t`calls
    ensures t.data == old(t.data)
    ensures old(t.data).Some? ==> (t.key == old(t.key) &&
      t.calls == old(t.calls) + old(t.RenderCalls(t.data.value, t.key)) + old(t.RenderCalls(t.data.value, t.key)))
    ensures old(t.data).None? ==> t.key == None && t.calls == old(t.calls)
  {
    t.Render(None, None);
    t.Render(None, None);
  }

  /** A message forgets the stored data, so a following `render()` has nothing to reload. */
  method ReloadAfterMessage<D>(t: Table<D>, text: string)
    modifies t`timer, t`message, t`data, t`key, t`calls
    ensures t.message == Some(text) && t.data == None && t.key == None && t.timer == None
    ensures t.calls == old(t.calls) + (if old(t.message).Some? then [SetMessageText(text)]
                                       else [RemoveRows, InsertMessage(text, |t.headerNames|)])
  {
    var _ := t.Message(Text(text), None);
    t.Render(None, None);
  }

  /**
   * Rendering data after a message joins them and does not clear the message
   * field; what the join does to the message row itself is not modelled.
   */
  method RenderAfterMessage<D>(t: Table<D>, text: string, d: seq<D>, k: Option<KeyFn>)
    modifies t`timer, t`message, t`data, t`key, t`calls
    ensures t.message == Some(text) && t.data == Some(d) && t.key == k && t.timer == None
    ensures t.calls == old(t.calls) + (if old(t.message).Some? then [SetMessageText(text)]
                                       else [RemoveRows, InsertMessage(text, |t.headerNames|)])
                                    + old(t.RenderCalls(d, k))
  {
    var _ := t.Message(Text(text), None);
    t.Render(Some(d), k);
  }

  /** A delayed message that fires shows the same as an immediate one; clearing first cancels it. */
  method DelayedMessage<D>(t: Table<D>, text: string, delay: Delay)
    modifies t`timer, t`message, t`data, t`calls
    ensures t.timer == None && t.message == Some(text) && t.data == None
    ensures t.calls == old(t.calls) + (if old(t.message).Some? then [SetMessageText(text)]
                                       else [RemoveRows, InsertMessage(text, |t.headerNames|)])
  {
    var _ := t.Message(Text(text), Some(delay));
    assert t.timer == Some(Timer(text, DelayMs(delay)));
    t.TimerFires();
  }

  /** `message(false)` after a delayed message: the timer is cancelled and no message is shown. */
  method CancelDelayedMessage<D>(t: Table<D>, text: string, delay: Delay)
    modifies t`timer, t`message, t`data, t`calls
    ensures t.timer == None && t.message == None && t.data == old(t.data)
    ensures t.calls == old(t.calls) + When(old(t.message).Some?, RemoveRows)
  {
    var _ := t.Message(Text(text), Some(delay));
    var _ := t.Message(Clear, None);
  }

  /** A swipe followed by a tap: the swipe shows the scrollbar and scrolls, the tap clears it and tries to hide the bar again. */
  method SwipeThenTap<D>(t: Table<D>, gesture: Swipe, scrolling: bool)
    requires t.scroller
    modifies t`swiped, t`calls
    ensures !t.swiped
    ensures t.calls == old(t.calls) + old(t.ShowCalls()) + [if gesture.SwipeUp? then ScrollUp else ScrollDown] +
      t.HideCalls(scrolling)
  {
    t.OnSwipe(gesture);
    t.Tap(scrolling);
  }

  /**
   * `render` does not cancel a delayed message: when the timer fires after a
   * render, the rendered data are forgotten and the message shows.
   */
  method DelayedMessageAfterRender<D>(t: Table<D>, text: string, delay: Delay, d: seq<D>, k: Option<KeyFn>)
    modifies t`timer, t`message, t`data, t`key, t`calls
    ensures t.timer == None && t.data == None && t.message == Some(text)
    ensures t.key == if old(t.data) == Some(d) then old(t.key) else k
    ensures t.calls == old(t.calls) + (if old(t.data) == Some(d) then [] else old(t.RenderCalls(d, k))) +
      (if old(t.message).Some? then [SetMessageText(text)] else [RemoveRows, InsertMessage(text, |t.headerNames|)])
  {
    var _ := t.Message(Text(text), Some(delay));
    t.Render(Some(d), k);
    assert t.timer == Some(Timer(text, DelayMs(delay)));
    t.TimerFires();
  }

  /** The formatter sees header names set after it was made. */
  method HeadersTakeEffect<D>(t: Table<D>, names: seq<string>)
    requires t.HeaderCellsValid()
    modifies t`headerNames, t`headerCells, t`thCount, t`headerModifier, t`calls
    ensures forall values: FormatCell.Value, datum: D, index: int ::
      FormatCell.Format(t, values, datum, index) == FormatCell.Cell(names, t.inset, values, datum, index)
  {
    var _ := t.Headers(Some(names), None);
  }
}
