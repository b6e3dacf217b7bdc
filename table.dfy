/**
 * The table widget of src/table.js as a state machine over its instance fields.
 *
 * DOM work and calls into collaborators (control bars, the scroller widget,
 * media queries, d3 joins and transitions) are not performed; each is appended,
 * in order, to the log `calls`. Heights measured from CSS are passed in as
 * whole pixels; the answer of the scroller's `scrolling()` is passed in where
 * the source asks for it.
 */
module Table {
  import opened Options
  import opened Numbers
  import RowCount

  /** A caller-supplied transition or header modifier; `Identity` is the default `(s) => s`. */
  datatype Callback = Identity | Custom(id: nat)

  /** An opaque key function handed to `render`. */
  datatype KeyFn = KeyFn(id: nat)

  /** The argument of `hover` and `swipe`: true, false or 'change'. */
  datatype Toggle = On | Off | FollowInset

  /** The argument of `inset` and `scroller`: null (a query), false (remove) or a breakpoint width. */
  datatype WidthArg = Query | Remove | Width(width: string)

  /** The first argument of `message`: null (a query), false (remove) or a text. */
  datatype MessageArg = Ask | Clear | Text(text: string)

  /** A `delay` argument of `message` other than null: true (the default) or milliseconds. */
  datatype Delay = Default | Millis(ms: int)

  /** The listener that `hover('change')` and `swipe('change')` both register, in one slot, on the root. */
  datatype InsetListener = HoverFollowsInset | SwipeFollowsInset

  /** The swipe gestures the table subscribes to. */
  datatype Swipe = SwipeUp | SwipeDown

  /** The optional parts the table creates and destroys. */
  datatype Part = HeaderBar | FooterBar | ScrollerWidget | InsetMedia

  /** A scheduled `message(text)` call. */
  datatype Timer = Timer(text: string, ms: int)

  /** What the table does to the DOM and to its collaborators. */
  datatype Call<D> =
    | Insert(part: Part)
    | Delete(part: Part)
    | ShowBar                 // the scrollbar container: display flex, fade in
    | HideBar                 // fade out, then display none
    | ResizeScroller
    | ScrollUp
    | ScrollDown
    | Modify(modifier: Callback, cells: nat)   // the header modifier on the stored header cells
    | Join(data: seq<D>, key: Option<KeyFn>, exit: Callback, enter: Callback)
    | RemoveRows              // every row of the table body
    | InsertMessage(text: string, colspan: nat)
    | SetMessageText(text: string)
    | DispatchDestroy

  /** The `milliseconds` a message is delayed by: `true` means 250. */
  function DelayMs(delay: Delay): (ms: int)
    ensures delay.Default? ==> ms == 250
    ensures delay.Millis? ==> ms == delay.ms
  {
    match delay
    case Default => 250
    case Millis(ms) => ms
  }

  function When<D>(b: bool, c: Call<D>): seq<Call<D>> {
    if b then [c] else []
  }

  /** The number of cells a row fans out to: one per header name, and one when there is none. */
  function ColumnCount(names: seq<string>): (n: nat)
    ensures n >= 1 && n >= |names|
    ensures |names| > 0 ==> n == |names|
    ensures |names| == 0 ==> n == 1
  {
    if |names| == 0 then 1 else |names|
  }

  /** The shared row-count model the table observes: its `total` and `count` values (undefined until set). */
  class RowSource {
    var total: Option<Num>
    var count: Option<Num>

    constructor ()
      ensures total == None && count == None
    {
      total := None;
      count := None;
    }
  }

  class Table<D(==)> {
    const source: RowSource

    var enterFn: Callback
    var exitFn: Callback

    var headerNames: seq<string>
    var headerModifier: Callback
    var headerCells: Option<nat>  // the header cells the last `headers` call entered; null before
    var thCount: nat              // the header cells in the header row

    var attached: bool            // the root element and the gesture recogniser exist
    var rootMedia: bool
    var bodyMedia: bool
    var scrollerMedia: bool
    var header: bool
    var footer: bool
    var scroller: bool
    var scrollerShift: bool       // the scroller shows its values minus one
    var message: Option<string>

    var equalizer: bool
    var equalizerBound: bool
    var maximizer: bool
    var maximizerBound: bool

    var maxCount: int
    var rowHeight: int

    var inset: bool
    var over: bool
    var swiped: bool
    var hover: Option<bool>       // never set by the constructor: undefined, true or false
    var hoverBound: bool
    var swipeBound: bool
    var insetListener: Option<InsetListener>

    var data: Option<seq<D>>
    var key: Option<KeyFn>
    var timer: Option<Timer>

    var calls: seq<Call<D>>

    ghost predicate Valid()
      reads this
    {
      PartsValid() && HeaderCellsValid() && ListenersValid()
    }

    /** Media queries come in pairs, the scroller with its media query, and the scroller shifts exactly when maximized. */
    ghost predicate PartsValid()
      reads this`rootMedia, this`bodyMedia, this`scroller, this`scrollerMedia, this`scrollerShift
      reads this`maximizer, this`attached, this`swipeBound
    {
      rootMedia == bodyMedia &&
      scrollerMedia == scroller &&
      scrollerShift == (scroller && maximizer) &&
      (rootMedia || scroller || swipeBound ==> attached)
    }

    /** There is a header cell for every header name, and the stored cells are among them. */
    ghost predicate HeaderCellsValid()
      reads this`headerCells, this`thCount, this`headerNames
    {
      (headerCells.None? <==> thCount == 0) &&
      (headerCells.Some? ==> headerCells.value <= thCount) &&
      |headerNames| <= thCount
    }

    /** Listeners are bound only for what they listen to. */
    ghost predicate ListenersValid()
      reads this`hoverBound, this`hover, this`equalizerBound, this`equalizer, this`maximizerBound, this`maximizer
    {
      (hoverBound ==> hover == Some(true)) &&
      (equalizerBound ==> equalizer) &&
      (maximizerBound ==> maximizer)
    }

    constructor (source: RowSource)
      ensures Valid() && this.source == source
      ensures enterFn == Identity && exitFn == Identity
      ensures headerNames == [] && headerModifier == Identity && headerCells == None && thCount == 0
      ensures attached && !rootMedia && !bodyMedia && !scrollerMedia
      ensures !header && !footer && !scroller && !scrollerShift && message == None
      ensures !equalizer && !equalizerBound && !maximizer && !maximizerBound
      ensures maxCount == 0 && rowHeight == 48
      ensures !inset && !over && !swiped && hover == None
      ensures !hoverBound && !swipeBound && insetListener == None
      ensures data == None && key == None && timer == None && calls == []
    {
      this.source := source;
      enterFn, exitFn := Identity, Identity;
      headerNames, headerModifier, headerCells, thCount := [], Identity, None, 0;
      attached, rootMedia, bodyMedia, scrollerMedia := true, false, false, false;
      header, footer, scroller, scrollerShift, message := false, false, false, false, None;
      equalizer, equalizerBound, maximizer, maximizerBound := false, false, false, false;
      maxCount, rowHeight := 0, 48;
      inset, over, swiped, hover := false, false, false, None;
      hoverBound, swipeBound, insetListener := false, false, None;
      data, key, timer, calls := None, None, None, [];
    }

    /** `_columns(datum)`: the cells of a row, one per header name (one when there are none), each the row's datum. */
    function Columns(datum: D): (cells: seq<D>)
      reads this
      ensures |cells| >= 1 && |cells| >= |headerNames|
      ensures |headerNames| > 0 ==> |cells| == |headerNames|
      ensures |headerNames| == 0 ==> |cells| == 1
      ensures forall i | 0 <= i < |cells| :: cells[i] == datum
    {
      seq(ColumnCount(headerNames), _ => datum)
    }

    /** Whether `_hideScroller` cancels. `_hover === false` does not hold while hover is still undefined. */
    predicate HideCancelled(scrolling: bool)
      reads this`scroller, this`hover, this`over, this`swiped
    {
      !scroller || hover == Some(false) || over || swiped || scrolling
    }

    /**
     * Whether `_showScroller` cancels. Its third condition, `this._swipe === false`,
     * compares a method with false and never holds; `_hover === true` does not
     * hold while hover is still undefined. The scroller's presence is not checked.
     */
    predicate ShowCancelled()
      reads this`hover, this`over, source
    {
      Less(OrZero(source.total), OrZero(source.count)) || (hover == Some(true) && !over)
    }

    function HideCalls(scrolling: bool): seq<Call<D>>
      reads this`scroller, this`hover, this`over, this`swiped
    {
      When(!HideCancelled(scrolling), HideBar)
    }

    function ShowCalls(): seq<Call<D>>
      reads this`hover, this`over, this`scroller, source
    {
      if ShowCancelled() then [] else [ShowBar] + When(scroller, ResizeScroller)
    }

    /** The calls of a `render` that goes ahead with data d and key k. */
    function RenderCalls(d: seq<D>, k: Option<KeyFn>): seq<Call<D>>
      reads this`scroller, this`headerCells, this`headerModifier, this`exitFn, this`enterFn
    {
      When(scroller, ResizeScroller) +
      (if headerCells.Some? then [Modify(headerModifier, headerCells.value)] else []) +
      [Join(d, k, exitFn, enterFn)]
    }

    /** The calls of `destroy`: each present part is deleted, then 'destroy' is dispatched on the root. */
    function TeardownCalls(): seq<Call<D>>
      reads this
    {
      When(rootMedia, Delete(InsetMedia)) + When(header, Delete(HeaderBar)) +
      When(footer, Delete(FooterBar)) + When(scroller, Delete(ScrollerWidget)) +
      When(message.Some?, RemoveRows) + [DispatchDestroy]
    }

    method Destroy()
      requires Valid() && attached
      modifies this`attached, this`hoverBound, this`swipeBound, this`insetListener
      modifies this`equalizerBound, this`maximizerBound
      modifies this`rootMedia, this`bodyMedia, this`header, this`footer
      modifies this`scroller, this`scrollerMedia, this`scrollerShift, this`message, this`calls
      ensures Valid()
      ensures !attached && !hoverBound && !swipeBound && insetListener == None
      ensures !equalizerBound && !maximizerBound
      ensures !rootMedia && !bodyMedia && !header && !footer && !scroller && !scrollerMedia && message == None
      ensures calls == old(calls) + old(TeardownCalls())
    {
      Unbind();
      DeleteParts();
      attached := false;
    }

    /** The `_unbind*` calls of `destroy`: no listener of the table stays registered. */
    method Unbind()
      requires PartsValid()
      modifies this`hoverBound, this`swipeBound, this`insetListener, this`equalizerBound, this`maximizerBound
      ensures PartsValid() && ListenersValid()
      ensures !hoverBound && !swipeBound && insetListener == None && !equalizerBound && !maximizerBound
    {
      insetListener, swipeBound, hoverBound := None, false, false;
      equalizerBound, maximizerBound := false, false;
    }

    /** The `_delete*` calls of `destroy`, and the 'destroy' event. */
    method DeleteParts()
      requires PartsValid()
      modifies this`rootMedia, this`bodyMedia, this`header, this`footer
      modifies this`scroller, this`scrollerMedia, this`scrollerShift, this`message, this`calls
      ensures PartsValid()
      ensures !rootMedia && !bodyMedia && !header && !footer && !scroller && !scrollerMedia && message == None
      ensures calls == old(calls) + old(TeardownCalls())
    {
      var torn := TeardownCalls();
      rootMedia, bodyMedia, header, footer := false, false, false, false;
      scroller, scrollerMedia, scrollerShift, message := false, false, false, None;
      calls := calls + torn;
    }

    method Enter(value: Option<Callback>) returns (current: Option<Callback>)
      modifies this`enterFn
      ensures value.None? ==> current == Some(enterFn) && enterFn == old(enterFn)
      ensures value.Some? ==> current == None && enterFn == value.value
    {
      if value.None? {
        return Some(enterFn);
      }
      enterFn := value.value;
      current := None;
    }

    method Exit(value: Option<Callback>) returns (current: Option<Callback>)
      modifies this`exitFn
      ensures value.None? ==> current == Some(exitFn) && exitFn == old(exitFn)
      ensures value.Some? ==> current == None && exitFn == value.value
    {
      if value.None? {
        return Some(exitFn);
      }
      exitFn := value.value;
      current := None;
    }

    method Count(value: Option<int>) returns (current: Option<int>)
      modifies this`maxCount
      ensures value.None? ==> current == Some(maxCount) && maxCount == old(maxCount)
      ensures value.Some? ==> current == None && maxCount == value.value
    {
      if value.None? {
        return Some(maxCount);
      }
      maxCount := value.value;
      current := None;
    }

    method Height(value: Option<int>) returns (current: Option<int>)
      modifies this`rowHeight
      ensures value.None? ==> current == Some(rowHeight) && rowHeight == old(rowHeight)
      ensures value.Some? ==> current == None && rowHeight == value.value
    {
      if value.None? {
        return Some(rowHeight);
      }
      rowHeight := value.value;
      current := None;
    }

    /** `inset(width)`: the inset flag itself only ever changes through the media callbacks (RootBreakpoint). */
    method Inset(arg: WidthArg) returns (current: Option<bool>)
      requires PartsValid()
      requires arg.Width? ==> attached
      modifies this`rootMedia, this`bodyMedia, this`calls
      ensures PartsValid()
      ensures arg.Query? ==> current == Some(inset) && rootMedia == old(rootMedia) && calls == old(calls)
      ensures arg.Remove? ==> (current == None && !rootMedia &&
        calls == old(calls) + When(old(rootMedia), Delete(InsetMedia)))
      ensures arg.Width? ==> (current == None && rootMedia &&
        calls == old(calls) + When(!old(rootMedia), Insert(InsetMedia)))
    {
      if arg.Query? {
        return Some(inset);
      }
      current := None;
      if arg.Remove? {
        DeleteInset();
        return;
      }
      if !rootMedia {
        rootMedia, bodyMedia := true, true;
        calls := calls + [Insert(InsetMedia)];
      }
    }

    /** The callbacks of the root's media queries: the viewport is at least the inset width, or not. */
    method RootBreakpoint(wide: bool)
      requires rootMedia
      modifies this`inset
      ensures inset == wide
    {
      inset := wide;
    }

    method DeleteInset()
      requires PartsValid()
      modifies this`rootMedia, this`bodyMedia, this`calls
      ensures PartsValid() && !rootMedia
      ensures calls == old(calls) + When(old(rootMedia), Delete(InsetMedia))
    {
      if rootMedia {
        rootMedia, bodyMedia := false, false;
        calls := calls + [Delete(InsetMedia)];
      }
    }

    method Header(action: bool)
      modifies this`header, this`calls
      ensures header == action
      ensures action ==> calls == old(calls) + When(!old(header), Insert(HeaderBar))
      ensures !action ==> calls == old(calls) + When(old(header), Delete(HeaderBar))
    {
      if !action {
        DeleteHeader();
        return;
      }
      if !header {
        header := true;
        calls := calls + [Insert(HeaderBar)];
      }
    }

    method DeleteHeader()
      modifies this`header, this`calls
      ensures !header && calls == old(calls) + When(old(header), Delete(HeaderBar))
    {
      if header {
        header := false;
        calls := calls + [Delete(HeaderBar)];
      }
    }

    method Footer(action: bool)
      modifies this`footer, this`calls
      ensures footer == action
      ensures action ==> calls == old(calls) + When(!old(footer), Insert(FooterBar))
      ensures !action ==> calls == old(calls) + When(old(footer), Delete(FooterBar))
    {
      if !action {
        DeleteFooter();
        return;
      }
      if !footer {
        footer := true;
        calls := calls + [Insert(FooterBar)];
      }
    }

    method DeleteFooter()
      modifies this`footer, this`calls
      ensures !footer && calls == old(calls) + When(old(footer), Delete(FooterBar))
    {
      if footer {
        footer := false;
        calls := calls + [Delete(FooterBar)];
      }
    }

    /** `scroller(width)`: a new scroller shows its values minus one when the table is maximized. */
    method Scroller(arg: WidthArg) returns (current: Option<bool>)
      requires PartsValid()
      requires arg.Width? ==> attached
      modifies this`scroller, this`scrollerMedia, this`scrollerShift, this`calls
      ensures PartsValid()
      ensures arg.Query? ==> current == Some(scroller) && scroller == old(scroller) && calls == old(calls)
      ensures arg.Remove? ==> (current == None && !scroller &&
        calls == old(calls) + When(old(scroller), Delete(ScrollerWidget)))
      ensures arg.Width? ==> (current == Some(true) && scroller && scrollerShift == maximizer &&
        calls == old(calls) + When(!old(scroller), Insert(ScrollerWidget)))
    {
      if arg.Query? {
        return Some(scroller);
      }
      if arg.Remove? {
        DeleteScroller();
        return None;
      }
      if !scroller {
        scroller, scrollerMedia := true, true;
        scrollerShift := maximizer;
        calls := calls + [Insert(ScrollerWidget)];
      }
      current := Some(true);
    }

    method DeleteScroller()
      requires PartsValid()
      modifies this`scroller, this`scrollerMedia, this`scrollerShift, this`calls
      ensures PartsValid() && !scroller
      ensures calls == old(calls) + When(old(scroller), Delete(ScrollerWidget))
    {
      if scroller {
        scroller, scrollerShift := false, false;
        calls := calls + [Delete(ScrollerWidget)];
      }
      scrollerMedia := false;
    }

    /** `equalizer(element)`: `_equalize` runs on the element's resize events from now on. */
    method AttachEqualizer()
      requires ListenersValid()
      modifies this`equalizer, this`equalizerBound
      ensures ListenersValid() && equalizer && equalizerBound
    {
      equalizer, equalizerBound := true, true;
    }

    /** `maximizer(element)`: an existing scroller now shows its values minus one. */
    method AttachMaximizer()
      requires PartsValid() && ListenersValid() && attached
      modifies this`maximizer, this`maximizerBound, this`scrollerShift
      ensures PartsValid() && ListenersValid() && maximizer && maximizerBound && scrollerShift == scroller
    {
      maximizer, maximizerBound := true, true;
      if scroller {
        scrollerShift := true;
      }
    }

    /**
     * `hover(true)` binds the mouse listeners and then tries to hide the
     * scrollbar; `hover(false)` unbinds them and tries to show it;
     * `hover('change')` lets the inset breakpoint drive hover.
     */
    method Hover(action: Toggle, scrolling: bool)
      requires ListenersValid()
      requires action.FollowInset? ==> attached
      modifies this`hover, this`hoverBound, this`insetListener, this`calls
      ensures ListenersValid()
      ensures action.On? ==> (hover == Some(true) && hoverBound && insetListener == old(insetListener) &&
        calls == old(calls) + HideCalls(scrolling))
      ensures action.Off? ==> (hover == Some(false) && !hoverBound && insetListener == old(insetListener) &&
        calls == old(calls) + ShowCalls())
      ensures action.FollowInset? ==> (hover == old(hover) && hoverBound == old(hoverBound) &&
        insetListener == Some(HoverFollowsInset) && calls == old(calls))
    {
      match action
      case On =>
        hover := Some(true);
        hoverBound := true;
        HideScroller(scrolling);
      case Off =>
        hover := Some(false);
        hoverBound := false;
        ShowScroller();
      case FollowInset =>
        insetListener := Some(HoverFollowsInset);
    }

    /** `swipe(action)`: (un)binds the swipe and tap handlers, or lets the inset breakpoint drive them. */
    method SwipeMode(action: Toggle)
      requires PartsValid() && attached
      modifies this`swipeBound, this`insetListener
      ensures PartsValid()
      ensures action.On? ==> swipeBound && insetListener == old(insetListener)
      ensures action.Off? ==> !swipeBound && insetListener == old(insetListener)
      ensures action.FollowInset? ==> swipeBound == old(swipeBound) && insetListener == Some(SwipeFollowsInset)
    {
      match action
      case On => swipeBound := true;
      case Off => swipeBound := false;
      case FollowInset => insetListener := Some(SwipeFollowsInset);
    }

    /**
     * `headers(names, modifier)`: header cells are only ever added, never
     * removed, and the modifier runs on the cells this call added.
     */
    method Headers(names: Option<seq<string>>, modifier: Option<Callback>) returns (current: Option<seq<string>>)
      requires HeaderCellsValid()
      modifies this`headerNames, this`headerCells, this`thCount, this`headerModifier, this`calls
      ensures HeaderCellsValid()
      ensures names.None? ==> (current == Some(headerNames) && headerNames == old(headerNames) &&
        headerModifier == old(headerModifier) &&
        thCount == old(thCount) && headerCells == old(headerCells) && calls == old(calls))
      ensures names.Some? ==> (current == None && headerNames == names.value &&
        thCount == (if old(thCount) < ColumnCount(names.value) then ColumnCount(names.value) else old(thCount)) &&
        headerCells == Some(thCount - old(thCount)) &&
        headerModifier == (if modifier.Some? then modifier.value else old(headerModifier)) &&
        calls == old(calls) + [Modify(headerModifier, thCount - old(thCount))])
    {
      if names.None? {
        return Some(headerNames);
      }
      var ns := names.value;
      var entered := if thCount < ColumnCount(ns) then ColumnCount(ns) - thCount else 0;
      headerNames := ns;
      thCount := thCount + entered;
      headerCells := Some(entered);
      if modifier.Some? {
        headerModifier := modifier.value;
      }
      calls := calls + [Modify(headerModifier, entered)];
      current := None;
    }

    /**
     * `message(value, delay)`. Any call other than a query cancels a pending
     * delayed message first.
     */
    method Message(value: MessageArg, delay: Option<Delay>) returns (current: Option<string>)
      modifies this`timer, this`message, this`data, this`calls
      ensures value.Ask? ==> (current == message && timer == old(timer) && message == old(message) &&
        data == old(data) && calls == old(calls))
      ensures value.Clear? ==> (timer == None && message == None && data == old(data) &&
        calls == old(calls) + When(old(message).Some?, RemoveRows))
      ensures value.Text? && delay.Some? ==> (timer == Some(Timer(value.text, DelayMs(delay.value))) &&
        message == old(message) && data == old(data) && calls == old(calls))
      ensures value.Text? && delay.None? ==> (timer == None && data == None && message == Some(value.text) &&
        calls == old(calls) + (if old(message).Some? then [SetMessageText(value.text)]
                               else [RemoveRows, InsertMessage(value.text, |headerNames|)]))
    {
      if value.Ask? {
        return message;
      }
      current := None;
      timer := None;
      if value.Clear? {
        DeleteMessage();
        return;
      }
      if delay.Some? {
        timer := Some(Timer(value.text, DelayMs(delay.value)));
        return;
      }
      data := None;
      if message.Some? {
        message := Some(value.text);
        calls := calls + [SetMessageText(value.text)];
      } else {
        message := Some(value.text);
        calls := calls + [RemoveRows, InsertMessage(value.text, |headerNames|)];
      }
    }

    /** The pending timer fires and shows its message. */
    method TimerFires()
      requires timer.Some?
      modifies this`timer, this`message, this`data, this`calls
      ensures timer == None && data == None && message == Some(old(timer).value.text)
      ensures calls == old(calls) + (if old(message).Some? then [SetMessageText(old(timer).value.text)]
                                     else [RemoveRows, InsertMessage(old(timer).value.text, |headerNames|)])
    {
      var _ := Message(Text(timer.value.text), None);
    }

    method DeleteMessage()
      modifies this`message, this`calls
      ensures message == None && calls == old(calls) + When(old(message).Some?, RemoveRows)
    {
      if message.Some? {
        message := None;
        calls := calls + [RemoveRows];
      }
    }

    /**
     * `render(data, key)`. Without data it reloads the stored data and key
     * after nulling them. It does nothing when the data equal the stored data
     * (deep equality); otherwise it stores them and joins them to the rows.
     * It leaves a message in place.
     */
    method Render(argData: Option<seq<D>>, argKey: Option<KeyFn>)
      modifies this`data, this`key, this`calls
      ensures var d := if argData.None? then old(data) else argData;
              var k := if argData.None? then old(key) else argKey;
              var stored := if argData.None? then None else old(data);
              if d == stored then
                data == stored && key == (if argData.None? then None else old(key)) && calls == old(calls)
              else
                d.Some? && data == d && key == k && calls == old(calls) + RenderCalls(d.value, k)
    {
      var d, k := argData, argKey;
      if d.None? {
        d, k := data, key;
        data, key := None, None;
      }
      if d == data {
        return;
      }
      data, key := d, k;
      calls := calls + RenderCalls(d.value, k);
    }

    method HideScroller(scrolling: bool)
      modifies this`calls
      ensures calls == old(calls) + HideCalls(scrolling)
    {
      if !HideCancelled(scrolling) {
        calls := calls + [HideBar];
      }
    }

    method ShowScroller()
      modifies this`calls
      ensures calls == old(calls) + ShowCalls()
    {
      if !ShowCancelled() {
        calls := calls + [ShowBar];
        if scroller {
          calls := calls + [ResizeScroller];
        }
      }
    }

    /** The mouse enters the body: ignored after a swipe. */
    method MouseEnter()
      modifies this`over, this`calls
      ensures old(swiped) ==> over == old(over) && calls == old(calls)
      ensures !old(swiped) ==> over && calls == old(calls) + ShowCalls()
    {
      if swiped {
        return;
      }
      over := true;
      ShowScroller();
    }

    method MouseLeave(scrolling: bool)
      modifies this`over, this`swiped, this`calls
      ensures !over && !swiped
      ensures calls == old(calls) + HideCalls(scrolling)
    {
      over := false;
      swiped := false;
      HideScroller(scrolling);
    }

    /** A tap dismisses a scrollbar that a swipe revealed. */
    method Tap(scrolling: bool)
      modifies this`swiped, this`calls
      ensures !swiped
      ensures calls == old(calls) + (if old(swiped) then HideCalls(scrolling) else [])
    {
      var wasSwiped := swiped;
      swiped := false;
      if wasSwiped {
        HideScroller(scrolling);
      }
    }

    /** A swipe reveals the scrollbar and scrolls one step; nothing happens without a scroller. */
    method OnSwipe(gesture: Swipe)
      modifies this`swiped, this`calls
      ensures !old(scroller) ==> swiped == old(swiped) && calls == old(calls)
      ensures old(scroller) ==> (swiped &&
        calls == old(calls) + ShowCalls() + [if gesture.SwipeUp? then ScrollUp else ScrollDown])
    {
      if !scroller {
        return;
      }
      swiped := true;
      ShowScroller();
      if gesture.SwipeUp? {
        calls := calls + [ScrollUp];
      } else {
        calls := calls + [ScrollDown];
      }
    }

    /**
     * `_equalize`: writes the number of rows that fit beside the equalizer to
     * the row-count model, then renders again.
     */
    method Equalize(equalizerBody: int, head: int, paddingBottom: int)
      requires attached
      modifies source`count, this`data, this`key, this`calls
      ensures source.count == Some(RowCount.EqualizeCount(equalizerBody, head, paddingBottom, rowHeight, maxCount))
      ensures old(data).None? ==> data == None && key == None && calls == old(calls)
      ensures old(data).Some? ==> (data == old(data) && key == old(key) &&
        calls == old(calls) + RenderCalls(old(data).value, old(key)))
    {
      source.count := Some(RowCount.EqualizeCount(equalizerBody, head, paddingBottom, rowHeight, maxCount));
      Render(None, None);
    }

    /**
     * `_maximize`: writes the number of rows that cover the body to the
     * row-count model, then renders again.
     */
    method Maximize(body: int, head: int)
      modifies source`count, this`data, this`key, this`calls
      ensures source.count == Some(RowCount.MaximizeCount(body, head, rowHeight, maxCount))
      ensures old(data).None? ==> data == None && key == None && calls == old(calls)
      ensures old(data).Some? ==> (data == old(data) && key == old(key) &&
        calls == old(calls) + RenderCalls(old(data).value, old(key)))
    {
      source.count := Some(RowCount.MaximizeCount(body, head, rowHeight, maxCount));
      Render(None, None);
    }
  }

  /**
   * While hover is still undefined, neither hover condition of the scrollbar
   * decisions holds: hiding is blocked only by the scroller's absence, the
   * mouse, a swipe or scrolling, and showing only by total < count.
   */
  lemma UnsetHover<D>(t: Table<D>, scrolling: bool)
    requires t.hover == None
    ensures t.HideCancelled(scrolling) <==> !t.scroller || t.over || t.swiped || scrolling
    ensures t.ShowCancelled() <==> Less(OrZero(t.source.total), OrZero(t.source.count))
  {
  }

  /** The row-count condition of `_showScroller` is strict: as many rows as the total does not cancel. */
  lemma ShowWhenTotalEqualsCount<D>(t: Table<D>)
    requires t.source.total == t.source.count && t.hover != Some(true)
    ensures !t.ShowCancelled()
    ensures t.ShowCalls() == [ShowBar] + When(t.scroller, ResizeScroller)
  {
  }
}
