/** useRadioKeyboard: the keydown handler of the radio groups. The DOM is abstracted to
    where the event target stands (outside a radiogroup, in one but not among its enabled
    radio items, or the item at an index of that list), and the handler's effects to an
    action value: nothing, a click on the target, or focus moved to the next or previous
    item (wrapping; the same item in a group of one), which is also clicked (checked)
    outside a toolbar. Every action other than `NoAction` calls preventDefault. */
module RadioKeyboard {

  datatype Orientation = Horizontal | Vertical

  /** `isInToolbar`: omitted, a plain boolean, or a Vue ref whose value is read when the
      key is handled. */
  datatype ToolbarOption = Omitted | Plain(flag: bool) | RefTo(current: bool)

  datatype Options = Options(isInToolbar: ToolbarOption, orientation: Orientation)

  /** Where the event target stands. `Item` carries its index among the `count` enabled
      radio items of its group. */
  datatype Target = OutsideGroup | NotAnItem | Item(index: nat, count: nat)

  datatype Action = NoAction | Click | Move(index: nat, check: bool)

  /** `isInToolbar.value`: a ref is read, a plain flag is taken as it is, and an omitted
      option (`?? false`) means not in a toolbar. */
  function InToolbar(t: ToolbarOption): bool {
    match t
    case Omitted => false
    case Plain(b) => b
    case RefTo(b) => b
  }

  const ArrowUp: string := "ArrowUp"
  const ArrowDown: string := "ArrowDown"
  const ArrowLeft: string := "ArrowLeft"
  const ArrowRight: string := "ArrowRight"

  /** The arrows across the layout, which the handler adds. */
  function OffAxisKeys(o: Orientation): seq<string> {
    if o == Horizontal then [ArrowUp, ArrowDown] else [ArrowLeft, ArrowRight]
  }

  /** The arrows along the layout. */
  function OnAxisKeys(o: Orientation): seq<string> {
    if o == Horizontal then [ArrowLeft, ArrowRight] else [ArrowUp, ArrowDown]
  }

  predicate IsArrowKey(o: Orientation, key: string) {
    key in OffAxisKeys(o) || key in OnAxisKeys(o)
  }

  /** A valid target: an item's index lies within its group (it comes from indexOf). */
  predicate ValidTarget(target: Target) {
    target.Item? ==> target.index < target.count
  }

  /** handleKeyDown. */
  function HandleKeyDown(opts: Options, target: Target, key: string): (a: Action)
    requires ValidTarget(target)
    ensures a.Move? ==> target.Item? && a.index < target.count
  {
    if !target.Item? then NoAction
    else
      var toolbar := InToolbar(opts.isInToolbar);
      if toolbar && key == "Enter" then Click
      else if key == " " || !IsArrowKey(opts.orientation, key) then NoAction
      else
        var current, len := target.index, target.count;
        var isPrev := key == ArrowUp || key == ArrowLeft;
        var next := if isPrev then (if current <= 0 then len - 1 else current - 1)
                    else (if current >= len - 1 then 0 else current + 1);
        Move(next, !toolbar)
  }

  /** Outside a radiogroup, or on an element that is not one of its enabled items, the
      handler does nothing. */
  lemma NotAnItemNoAction(opts: Options, target: Target, key: string)
    requires !target.Item?
    ensures HandleKeyDown(opts, target, key) == NoAction
  {
  }

  /** In a toolbar, Enter clicks the focused item and does not move the focus. */
  lemma ToolbarEnterClicks(opts: Options, index: nat, count: nat)
    requires index < count && InToolbar(opts.isInToolbar)
    ensures HandleKeyDown(opts, Item(index, count), "Enter") == Click
  {
  }

  /** The four arrows, independent of the orientation. */
  predicate Arrow(key: string) {
    key == ArrowUp || key == ArrowDown || key == ArrowLeft || key == ArrowRight
  }

  /** The on-axis and off-axis keys together are the four arrows in both orientations. */
  lemma ArrowKeysCoverAll(o: Orientation, key: string)
    ensures IsArrowKey(o, key) <==> Arrow(key)
  {
  }

  /** Space and every key other than an arrow are left to the default handling, except
      Enter in a toolbar. */
  lemma OtherKeysPassThrough(opts: Options, target: Target, key: string)
    requires ValidTarget(target)
    requires key == " " || !Arrow(key)
    requires !(InToolbar(opts.isInToolbar) && key == "Enter")
    ensures HandleKeyDown(opts, target, key) == NoAction
  {
    ArrowKeysCoverAll(opts.orientation, key);
  }

  /** The orientation never changes the outcome. */
  lemma OrientationIrrelevant(t: ToolbarOption, target: Target, key: string)
    requires ValidTarget(target)
    ensures HandleKeyDown(Options(t, Horizontal), target, key) == HandleKeyDown(Options(t, Vertical), target, key)
  {
    ArrowKeysCoverAll(Horizontal, key);
    ArrowKeysCoverAll(Vertical, key);
  }

  /** ArrowUp and ArrowLeft move to the previous item, wrapping from the first to the
      last; ArrowDown and ArrowRight move to the next, wrapping from the last to the first.
      The moved-to item is checked exactly when the group is not in a toolbar. */
  lemma ArrowMovesWithWrap(opts: Options, index: nat, count: nat, key: string)
    requires index < count && Arrow(key)
    ensures var a := HandleKeyDown(opts, Item(index, count), key);
      a.Move?
      && (key == ArrowUp || key == ArrowLeft ==> a.index == (index - 1) % count)
      && (key == ArrowDown || key == ArrowRight ==> a.index == (index + 1) % count)
      && (a.check <==> !InToolbar(opts.isInToolbar))
  {
    ArrowKeysCoverAll(opts.orientation, key);
    assert key != "Enter" && key != " ";
    if key == ArrowUp || key == ArrowLeft {
      PrevWraps(index, count);
    } else {
      NextWraps(index, count);
    }
  }

  /** The previous index, with the wrap from the first to the last. */
  lemma PrevWraps(index: nat, count: nat)
    requires index < count
    ensures (if index <= 0 then count - 1 else index - 1) == (index - 1) % count
  {
    if index == 0 {
      assert (index - 1) % count == count - 1;
    }
  }

  /** The next index, with the wrap from the last to the first. */
  lemma NextWraps(index: nat, count: nat)
    requires index < count
    ensures (if index >= count - 1 then 0 else index + 1) == (index + 1) % count
  {
    if index == count - 1 {
      assert (index + 1) % count == 0;
    }
  }

  /** Leaving the option out is the same as passing `false`. */
  lemma OmittedToolbarIsFalse(o: Orientation, target: Target, key: string)
    requires ValidTarget(target)
    ensures HandleKeyDown(Options(Omitted, o), target, key) == HandleKeyDown(Options(Plain(false), o), target, key)
  {
  }
}
