# d3 table widget: a Dafny model

This project models the core of `@scola/d3-table`, a table widget built on d3.
It has two parts:

- **The `Table` class of `src/table.js`**, modelled as a Dafny class over the same instance fields. It covers:
  - the accessors (`enter`, `exit`, `count`, `height`, `headers`);
  - the optional parts, which are created once and deleted once (`inset`, `header`, `footer`, `scroller`, the equalizer and maximizer listeners);
  - the mouse and swipe state machine (`_mouseenter`, `_mouseleave`, `_tap`, `_swipe`, `hover`, `swipe`) and the two scrollbar decision tables (`_hideScroller`, `_showScroller`);
  - the message and render bookkeeping (`message`, `_delayMessage`, `render`);
  - the row-count policies (`_equalize`, `_maximize`), `_columns` and `destroy`.
- **`formatCell` of `src/helper/format-cell.js`**, modelled as pure functions over a small datatype of JavaScript values. It covers the choice of the `'in'`/`'out'` set, the truthiness cascade `values[name][set] || values[name] || values[set] || values`, and the optional call of a function value.

How the DOM and the collaborators are represented:

- **The effect log.** What the table does to the DOM and to its collaborators is not performed. The control bars, the scroller widget, media queries, d3 joins and transitions are all of this kind. Each effect is appended, in order, to the field `calls`. Every method states the exact calls it appends.
- **Collaborators as flags.** A collaborator is present or absent (`header`, `scroller`, `rootMedia`, ...).
- **The row-count model.** The model the table observes is the class `RowSource`, with its `total` and `count`.
- **Inputs from outside.** Heights measured from CSS are whole-pixel parameters. So is the answer of the scroller's `scrolling()`.

Files:

- `numbers.dfy`: JavaScript numbers as the row arithmetic needs them. These are whole numbers, ±Infinity and NaN, with floor and ceiling division, `Math.min`, `|| 0` and `<`.
- `row_count.dfy`: the counts `_equalize` and `_maximize` write, and their optimality.
- `join.dfy`: the keyed data join of `render` (d3's `selection.data(data, key)`). It is an abstract enter/update/exit partition of old and new keys. Rendering without a key is the positional join.
- `table.dfy`: the `Table` class.
- `format_cell.dfy`: the cell formatter.
- `scenarios.dfy`: call sequences on one table, such as `header()` twice or `message` followed by `render`, and what they add up to.
- `options.dfy`: the `Option` type.

Behaviour of the code worth knowing:

- `render` does not clear `_message`. Only `message(text)` nulls the stored data.
- `render` does not cancel a pending delayed message: a timer set by `message(text, delay)` that fires after `render(data)` forgets the data and shows the message (`Scenarios.DelayedMessageAfterRender`).
- `_showScroller` does not check whether a scroller exists before it shows the bar. It resizes the scroller only if one exists.
- `_showScroller`'s third condition, `this._swipe === false`, compares a method with `false`, so it never cancels.
- `_hover` is never set by the constructor. It is tri-state (undefined, true, false), and while it is undefined neither `=== true` nor `=== false` holds (`Table.UnsetHover`).
- `destroy` does not cancel a pending delayed message.
- `inset(false)` removes the media queries but leaves the inset flag at its last value.
- `hover('change')` and `swipe('change')` register their root listener under the same name (`.scola-table`). The model keeps one slot, `insetListener`, that the later call overwrites.
- Header cells are only ever added. `headers(names)` with fewer names than before keeps the extra cells, and the header modifier runs only on the cells this call added.

## Model

| member | source | states |
|---|---|---|
| Numbers.FloorDiv | src/table.js:801 | `Math.floor(a / b)` for any signs: the quotient q with q·b ≤ a < q·b + b (the bounds reverse for b < 0) |
| Numbers.CeilDiv | src/table.js:815 | `Math.ceil(a / b)` for any signs: q·b − b < a ≤ q·b (reversed for b < 0) |
| Numbers.FloorDivIsGreatest | src/table.js:801 | no integer larger than the floor quotient has its multiple of a positive b within a |
| Numbers.CeilDivIsLeast | src/table.js:815 | no integer smaller than the ceiling quotient has its multiple of a positive b reach a |
| Numbers.Min | src/table.js:804 | `Math.min(m, x)`: NaN and -Infinity propagate, +Infinity yields m, a finite x gives a finite result at most both m and x that is one of them |
| Numbers.OrZero | src/table.js:715-716 | `model.get(...) \|\| 0`: undefined and NaN read as 0, the result is never NaN, and every other value (finite or ±Infinity) is kept |
| Numbers.DivByZero | src/table.js:801-815 | a division by zero gives +Infinity for a positive dividend, -Infinity for a negative one and NaN for zero |
| Numbers.FloorQuotient | src/table.js:801 | `Math.floor(a / b)`: finite with the floor bounds for a non-zero b, the division-by-zero value otherwise |
| Numbers.CeilQuotient | src/table.js:815 | `Math.ceil(a / b)`: finite with the ceiling bounds for a non-zero b, the division-by-zero value otherwise |
| Numbers.Less | src/table.js:719 | JavaScript `<`: the integer order on finite values, false whenever NaN takes part, -Infinity below and +Infinity above every other non-NaN value |
| RowCount.Clamp | src/table.js:803-805 | the cap applies only for a non-zero maxCount, and then the result is `Math.min(maxCount, count)`: a finite count becomes one at most both maxCount and count |
| RowCount.EqualizeCount | src/table.js:796-806 | the count fits: count·rowHeight ≤ equalizer body − head − bottom padding; one more row would not fit unless the cap stopped it; capped by a non-zero maxCount; a negative row height gives the floor quotient with the bounds reversed, under the same cap; division by a zero row height gives maxCount (positive room, capped) or a non-finite count |
| RowCount.MaximizeCount | src/table.js:811-820 | the count covers the body: body − head ≤ count·rowHeight unless capped; one row fewer would not cover it; capped by a non-zero maxCount; a negative row height gives the ceiling quotient with the bounds reversed, under the same cap; the same zero-height cases |
| RowCount.EqualizeIsGreatest | src/table.js:801 | uncapped, `_equalize` writes the greatest count whose rows fit |
| RowCount.MaximizeIsLeast | src/table.js:815 | uncapped, `_maximize` writes the least count whose rows cover the body |
| Join.UpdatedRowsStay | src/table.js:367-369 | a datum bound to an existing row has that row's key, and that row does not exit |
| Join.StayingRowsAreUpdated | src/table.js:367-378 | every row that does not exit is updated by some new datum |
| Join.UpdatesAreOneToOne | src/table.js:367-369 | no two data update the same row |
| Join.KeyedIdentity | src/table.js:367-369 | with distinct keys, a row stays exactly when its key is among the new keys, and a datum updates a row exactly when its key is among the old keys |
| Join.IndexJoin | src/table.js:367-369 | without a key, the first min(m, n) rows are updated in place, the remaining data enter, and rows at positions n and beyond exit |
| Table.DelayMs | src/table.js:637 | a delay of `true` means 250 ms, a number is taken as it is |
| Table.ColumnCount | src/table.js:826 | one cell per header name, and one cell when there is none |
| Table.Table.constructor | src/table.js:10-41 | the initial state: identity callbacks, no headers, no parts, maxCount 0, row height 48, flags false, hover undefined, no data |
| Table.Table.Columns | src/table.js:825-827 | `_columns(d)` has max(header count, 1) cells, each equal to d |
| Table.Table.Destroy | src/table.js:100-119 | afterwards no listener is bound, no optional part or message is left, the root is gone, and exactly the deletions of the parts that were present plus the 'destroy' event are logged |
| Table.Table.Unbind | src/table.js:101-108 | the unbinding half of `destroy`: no hover, swipe, inset, equalizer or maximizer listener stays bound |
| Table.Table.DeleteParts | src/table.js:110-116 | the deleting half of `destroy`: every present part is deleted in order, then 'destroy' is dispatched |
| Table.Table.Enter | src/table.js:125-132 | `enter(null)` returns the transition and changes nothing; any other value replaces it |
| Table.Table.Exit | src/table.js:134-141 | the same for the exit transition |
| Table.Table.Count | src/table.js:143-150 | the same for maxCount |
| Table.Table.Height | src/table.js:152-159 | the same for the row height |
| Table.Table.Inset | src/table.js:161-175 | `inset(null)` returns the inset flag; `inset(false)` removes the media queries if present; `inset(width)` installs them only when absent |
| Table.Table.RootBreakpoint | src/table.js:496-501 | the media callbacks set the inset flag to whether the viewport is at least the inset width |
| Table.Table.DeleteInset | src/table.js:520-532 | both media queries are gone afterwards; deleting absent ones logs nothing |
| Table.Table.Header | src/table.js:177-187 | `header()` creates the bar only when absent; `header(false)` deletes it if present |
| Table.Table.DeleteHeader | src/table.js:549-556 | the header is absent afterwards; deleting an absent one logs nothing |
| Table.Table.Footer | src/table.js:189-199 | as Header, for the footer |
| Table.Table.DeleteFooter | src/table.js:573-580 | as DeleteHeader, for the footer |
| Table.Table.Scroller | src/table.js:201-215 | `scroller(null)` reports presence; `scroller(false)` deletes; `scroller(width)` creates the scroller and its media query only when absent, shifted by one when maximized |
| Table.Table.DeleteScroller | src/table.js:679-692 | scroller and media query are gone afterwards; deleting an absent scroller logs nothing |
| Table.Table.AttachEqualizer | src/table.js:217-226 | an equalizer is kept and its resize listener bound |
| Table.Table.AttachMaximizer | src/table.js:228-239 | a maximizer is kept and bound, and an existing scroller now shows its values minus one |
| Table.Table.Hover | src/table.js:258-272 | `hover(true)` sets hover, binds the mouse listeners and attempts to hide the bar; `hover(false)` clears it, unbinds and attempts to show; `hover('change')` only binds the inset listener |
| Table.Table.SwipeMode | src/table.js:274-284 | `swipe(true)` and `swipe(false)` bind and unbind the swipe handlers; `swipe('change')` only binds the inset listener |
| Table.Table.Headers | src/table.js:286-316 | `headers(null, m)` returns the names and changes nothing, the modifier included; otherwise the names are replaced, header cells are added up to the column count and never removed, a given modifier replaces the old one, and the modifier runs on the cells added |
| Table.Table.Message | src/table.js:318-340 | `message(null)` returns the message and changes nothing; every other call cancels the timer; `false` deletes the message; a delay schedules the text instead; otherwise the data are forgotten and the text is updated in place or inserted after removing all rows |
| Table.Table.TimerFires | src/table.js:641-643 | a scheduled message shows as `message(text)` would |
| Table.Table.DeleteMessage | src/table.js:618-634 | the message is gone afterwards, and rows are removed only if there was one |
| Table.Table.Render | src/table.js:342-400 | `render()` reloads the stored data and key after nulling them; data equal to the stored data change nothing; otherwise data and key are stored and the scroller resize, header modifier and join are logged |
| Table.Table.HideScroller | src/table.js:694-712 | the bar is hidden unless the scroller is absent, hover is false (not undefined), the mouse is over, a swipe is active or the scroller is scrolling |
| Table.Table.ShowScroller | src/table.js:714-736 | the bar is shown unless total < count (strict, after `\|\| 0`) or hover is true while the mouse is out; the scroller is resized only if present |
| Table.Table.MouseEnter | src/table.js:743-750 | ignored after a swipe; otherwise the mouse is over and showing the bar is attempted (it is cancelled when total < count or hover is true while the mouse is out) |
| Table.Table.MouseLeave | src/table.js:752-756 | clears both the mouse-over flag and the swipe, then attempts to hide |
| Table.Table.Tap | src/table.js:758-765 | always clears the swipe, and attempts to hide only if it was set |
| Table.Table.OnSwipe | src/table.js:767-780 | changes nothing without a scroller; otherwise sets the swipe, attempts to show, and scrolls up or down |
| Table.Table.Equalize | src/table.js:796-809 | on a table that still has its root, writes EqualizeCount to the model's count, then renders the stored data again |
| Table.Table.Maximize | src/table.js:811-823 | writes MaximizeCount to the model's count, then renders the stored data again |
| Table.UnsetHover | src/table.js:694-722 | while hover is undefined, neither hover condition cancels hiding or showing |
| Table.ShowWhenTotalEqualsCount | src/table.js:718-719 | equal total and count do not cancel showing; the bar shows |
| FormatCell.Get | src/helper/format-cell.js:8-11 | a property read on a non-null value: the own properties of an object or a function (`name`, `length`, `prototype`, ...), undefined on other values |
| FormatCell.FunctionOwnProperty | src/helper/format-cell.js:7-16 | a function passed as `values` is read like an object: under the header `name` the cell shows the function's name as text and does not call it |
| FormatCell.SetName | src/helper/format-cell.js:4 | the set is 'in' exactly when the table is inset, 'out' otherwise |
| FormatCell.NameAt | src/helper/format-cell.js:5 | the column name is the header at the cell's index, undefined past the last |
| FormatCell.Value.Truthy | src/helper/format-cell.js:7-12 | JavaScript truthiness: undefined, null, false, 0, NaN and '' are falsy, every other value (functions and objects included) is truthy |
| FormatCell.PropertyKey | src/helper/format-cell.js:5-8 | a defined name is its own key, an undefined name reads the key 'undefined' |
| FormatCell.Resolve | src/helper/format-cell.js:7-12 | the cascade always yields a value: values itself or a truthy entry; a truthy `values[name][set]` wins, else a truthy `values[name]`, else a truthy `values[set]`; `values` itself only when neither `values[name]` nor `values[set]` is truthy |
| FormatCell.ResolveIsFirstTruthy | src/helper/format-cell.js:7-12 | the cascade is the first truthy of values[name][set], values[name], values[set], falling back to values |
| FormatCell.Cell | src/helper/format-cell.js:3-16 | a null or undefined `values` throws; otherwise a function value is called with (datum, index, name) and anything else is returned as it is |
| FormatCell.Format | src/helper/format-cell.js:1-5 | the formatter reads the header names and the inset flag from the table at each call |
| Scenarios.HeaderTwice | src/table.js:177-187 | `header()` twice creates the header once |
| Scenarios.FooterTwice | src/table.js:189-199 | `footer()` twice creates the footer once |
| Scenarios.ScrollerTwice | src/table.js:201-215 | `scroller(width)` twice creates the scroller once |
| Scenarios.InsetOnOffTwice | src/table.js:161-175 | `inset(width)` twice installs the media queries once; `inset(false)` twice deletes them once |
| Scenarios.RenderTwice | src/table.js:342-360 | rendering the same data twice joins them once |
| Scenarios.ReloadTwice | src/table.js:342-353 | `render()` joins the stored data again on every call |
| Scenarios.ReloadAfterMessage | src/table.js:333 | after `message(text)`, `render()` has no data to reload |
| Scenarios.RenderAfterMessage | src/table.js:333-369 | rendering data after a message joins them and does not clear the message field |
| Scenarios.DelayedMessageAfterRender | src/table.js:323-360 | a delayed message set before a render still fires after it, forgets the rendered data and shows the text |
| Scenarios.DelayedMessage | src/table.js:329-331 | a delayed message that fires has the effect of an immediate one |
| Scenarios.CancelDelayedMessage | src/table.js:323-327 | `message(false)` cancels a scheduled message |
| Scenarios.SwipeThenTap | src/table.js:758-780 | a swipe then a tap: attempt to show, scroll, clear the swipe, attempt to hide |
| Scenarios.HeadersTakeEffect | src/helper/format-cell.js:3 | header names set after the formatter was made are the ones it uses |

## Left out

- Numbers: fractional pixels are not represented. Heights and row heights are whole numbers, so `parseFloat` of CSS strings and non-integer divisions are outside the model. A NaN maxCount or row height is not represented either.
- DOM construction and styling, d3 selections and transitions are left out. The join's cell-level rebinding and the timing of transitions are left out too. Effects are logged, not performed.
- The d3 data join is stated abstractly in `join.dfy` and is not connected to the `Join` entry that `render` logs. Its semantics are d3's, not this repository's.
- `_change` (the scroller's media callbacks, which dispatch 'inset'/'outset' and re-render) is left out, and so is `_set` (the body height on a model 'count' event). Both are driven by collaborators that are not modelled.
- The effect of the inset listeners (`hover(event.type === 'inset')`, `swipe(event.type !== 'inset')`) is not modelled beyond which listener is bound. Gesture recognition and the scroller widget's `up`, `down`, `resize` and `scrolling` are left out too.
- `setTimeout`/`clearTimeout`: the pending message is the field `timer`, and a timer firing is the method `TimerFires`. Time itself is not modelled.
- `equalizer(null)` and `maximizer(null)` return the element; elements are not modelled, only their presence. The maximizer's styling is left out, as are the message's styling under a maximizer and the table height reset in `_deleteMessage`.
- `root()`, the Observer base class and its model wiring (`this._model`) are reduced to `RowSource`.
- Calls on a destroyed table, whose root is null, throw in the source. Methods that use the root or the gesture recogniser (`destroy`, `inset(width)`, `scroller(width)`, `maximizer(el)`, `hover('change')`, `swipe(...)`, `_equalize`) require `attached`; the others are not restricted.
- `lodash isEqual` is Dafny equality on `seq<D>`.
- Table.Table.Render: the stored data are a value, not the caller's array. In the source, an array changed in place after `render(array)` compares equal to itself on `render(array)`, so nothing is rendered, and `render()` renders the changed contents. The model cannot express that aliasing: it renders again only when the new data differ from the stored ones.
- Table.Table.Render: the message row is itself a `tr` of the table body, so the join updates it (as row 0 without a key), removes it (with fewer data) or hands it to the key function. The model keeps `_message` as the source does but does not model what happens to that row, nor that a later `message(text)` then sets the text of a removed node.
- FormatCell.Get: a property read finds only the own properties of an object or a function; which own properties a function has (`name`, `length`, `prototype`) is given by its property map, not derived. Prototype properties and properties of primitives (such as a string's `length`) are not modelled.
- Table.Table.Render: the model logs a single `Join` call and does not state which rows exit, update or enter. That partition is what `join.dfy` states.
