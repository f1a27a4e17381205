/**
 * The state and the step functions of the Marquee component
 * (src/Marquee/index.tsx): initialisation, the spacer update, the
 * animation tick and the hover events, with the component's `setState`
 * setters as assignments to the fields of one object.
 *
 * Offsets are kept in half-pixel units: a tick moves the live offset by
 * 0.5 px, that is by one unit, and a recycle adds back a size measured in
 * whole pixels, that is two units per pixel.
 */
module MarqueeEngine {
  import opened Optional
  import opened MarqueeSequence

  /** The record kept by `useState(initState(props))`: four offsets (half pixels) and the items. */
  datatype ScrollState = ScrollState(top: int, right: int, bottom: int, left: int, items: seq<Item>)

  /** The offset field a direction animates (index.tsx:274-292). */
  function Offset(s: ScrollState, d: Direction): int
  {
    match d
    case Up => s.top
    case Right => s.right
    case Down => s.bottom
    case Left => s.left
  }

  /** `{ ...s, [nextProp]: value }` (index.tsx:322-326, without the items). */
  function WithOffset(s: ScrollState, d: Direction, value: int): (r: ScrollState)
    ensures Offset(r, d) == value
    ensures forall e :: e != d ==> Offset(r, e) == Offset(s, e)
    ensures d != Up ==> r.top == s.top
    ensures d != Right ==> r.right == s.right
    ensures d != Down ==> r.bottom == s.bottom
    ensures d != Left ==> r.left == s.left
    ensures r.items == s.items
  {
    match d
    case Up => s.(top := value)
    case Right => s.(right := value)
    case Down => s.(bottom := value)
    case Left => s.(left := value)
  }

  function Reverse<T>(s: seq<T>): (r: seq<T>)
    ensures |r| == |s|
    ensures forall i :: 0 <= i < |s| ==> r[i] == s[|s| - 1 - i]
  {
    if s == [] then [] else Reverse(s[1..]) + [s[0]]
  }

  /**
   * initState (index.tsx:53-84): all offsets at zero and the caller's items,
   * reversed when `inverseMarqueeItems` is set. No spacer is inserted.
   */
  function InitState(marqueeItems: seq<Content>, inverse: bool): (r: ScrollState)
    ensures r.top == 0 && r.right == 0 && r.bottom == 0 && r.left == 0
    ensures |r.items| == |marqueeItems|
    ensures forall i :: 0 <= i < |marqueeItems| ==>
              r.items[i] == Real(if inverse then marqueeItems[|marqueeItems| - 1 - i] else marqueeItems[i])
    ensures NoDummy(r.items)
  {
    ScrollState(0, 0, 0, 0, AsItems(if inverse then Reverse(marqueeItems) else marqueeItems))
  }

  /** Reversing twice gives back the caller's order. */
  lemma {:induction false} ReverseInvolution<T>(s: seq<T>)
    ensures Reverse(Reverse(s)) == s
  {
    var r := Reverse(Reverse(s));
    assert |r| == |s|;
    forall i | 0 <= i < |s| ensures r[i] == s[i] {
      assert r[i] == Reverse(s)[|s| - 1 - i];
    }
  }

  /** The caller's items seen by initialisation are exactly the input, reversed exactly when asked. */
  lemma InitStateItems(marqueeItems: seq<Content>, inverse: bool)
    ensures Reals(InitState(marqueeItems, inverse).items) == if inverse then Reverse(marqueeItems) else marqueeItems
  {
    RealsOfAsItems(if inverse then Reverse(marqueeItems) else marqueeItems);
  }

  /**
   * The copy of the items a recycle changes (index.tsx:273, 310-314):
   * `push(shift())` for Up and Left, `unshift(pop())` for Down and Right.
   */
  method Recycle(items: seq<Item>, d: Direction) returns (next: seq<Item>)
    requires |items| > 0
    ensures next == Rotate(items, d)
  {
    next := items;
    if RecyclesFromFront(d) {
      var first := next[0];
      next := next[1..];
      next := next + [first];
    } else {
      var last := next[|next| - 1];
      next := next[..|next| - 1];
      next := [last] + next;
    }
  }

  /** The size of the item that leaves next (index.tsx:298-301). */
  method MeasureExiting(items: seq<Item>, d: Direction, measure: Item -> nat) returns (size: nat)
    ensures size == ExitSize(items, d, measure)
    ensures size > 0 ==> Reals(items) != []
  {
    if RecyclesFromFront(d) {
      size := FirstItemSize(items, measure);
    } else {
      size := LastItemSize(items, measure);
    }
    ExitSizeNeedsReal(items, d, measure);
  }

  class Marquee {
    var state: ScrollState
    var isHovered: bool
    var hoveredItemIndex: Option<nat>
    var isUpdatingSpacer: bool
    var isRecycling: bool

    /** At most one spacer, and no offset ever above zero. */
    ghost predicate Valid()
      reads this
    {
      && AtMostOneDummy(state.items)
      && state.top <= 0 && state.right <= 0 && state.bottom <= 0 && state.left <= 0
    }

    /** The component's first render (index.tsx:90-94). */
    constructor (marqueeItems: seq<Content>, inverse: bool)
      ensures Valid()
      ensures state == InitState(marqueeItems, inverse)
      ensures !isHovered && hoveredItemIndex == None && !isUpdatingSpacer && !isRecycling
    {
      state := InitState(marqueeItems, inverse);
      isHovered := false;
      hoveredItemIndex := None;
      isUpdatingSpacer := false;
      isRecycling := false;
    }

    /** A new `marqueeItems` or `inverseMarqueeItems` prop rebuilds the state (index.tsx:98-105). */
    method Reset(marqueeItems: seq<Content>, inverse: bool)
      modifies this`state
      ensures Valid()
      ensures state == InitState(marqueeItems, inverse)
    {
      state := InitState(marqueeItems, inverse);
    }

    /** shouldPause (index.tsx:264). */
    predicate ShouldPause(paused: bool, pauseOnHover: bool, pauseOnItemHover: bool)
      reads this
      ensures paused ==> ShouldPause(paused, pauseOnHover, pauseOnItemHover)
      ensures !pauseOnHover && !pauseOnItemHover ==> (ShouldPause(paused, pauseOnHover, pauseOnItemHover) <==> paused)
      ensures !isHovered && hoveredItemIndex.None? ==> (ShouldPause(paused, pauseOnHover, pauseOnItemHover) <==> paused)
      ensures pauseOnHover && isHovered ==> ShouldPause(paused, pauseOnHover, pauseOnItemHover)
      ensures pauseOnItemHover && hoveredItemIndex.Some? ==> ShouldPause(paused, pauseOnHover, pauseOnItemHover)
      ensures ShouldPause(paused, pauseOnHover, pauseOnItemHover) && !paused ==>
                (pauseOnHover && isHovered) || (pauseOnItemHover && hoveredItemIndex.Some?)
    {
      paused || (pauseOnHover && isHovered) || (pauseOnItemHover && hoveredItemIndex.Some?)
    }

    /**
     * calculateSpacerOnce (index.tsx:115-176). The container's offset sizes
     * and the content's scroll sizes are the measurements, in pixels;
     * `freshId` stands for the id made from the clock and a random number.
     */
    method UpdateSpacer(d: Direction, containerWidth: nat, containerHeight: nat,
                        contentWidth: nat, contentHeight: nat, freshId: int)
      requires Valid()
      modifies this`state, this`isUpdatingSpacer
      ensures Valid()
      ensures var applies := containerWidth != 0 && containerHeight != 0 && contentWidth != 0 &&
                             contentHeight != 0 && IsVertical(d);
              && (!applies ==> state == old(state) && isUpdatingSpacer == old(isUpdatingSpacer))
              && (applies ==>
                    && isUpdatingSpacer
                    && state == old(state).(items := state.items)
                    && Reals(state.items) == Reals(old(state.items))
                    && (contentHeight < containerHeight ==>
                          && state.items == WithSpacer(old(state.items), d, containerHeight - contentHeight, freshId)
                          && ExactlyOneDummy(state.items, containerHeight - contentHeight))
                    && (contentHeight >= containerHeight ==>
                          && state.items == RemoveDummies(old(state.items))
                          && NoDummy(state.items)))
    {
      if containerWidth == 0 || containerHeight == 0 || contentWidth == 0 || contentHeight == 0 {
        return;
      }
      if IsVertical(d) {
        if contentHeight < containerHeight {
          var spacerHeight := containerHeight - contentHeight;
          isUpdatingSpacer := true;
          state := state.(items := WithSpacer(state.items, d, spacerHeight, freshId));
        } else {
          isUpdatingSpacer := true;
          state := state.(items := RemoveDummies(state.items));
        }
      }
    }

    /** The timer that resets `isUpdatingSpacer` 100 ms after a spacer update (index.tsx:165, 173). */
    method ClearUpdatingSpacer()
      modifies this`isUpdatingSpacer
      ensures !isUpdatingSpacer
    {
      isUpdatingSpacer := false;
    }

    /** The timer that resets `isRecycling` 50 ms after a recycle (index.tsx:318). */
    method ClearRecycling()
      modifies this`isRecycling
      ensures !isRecycling
    {
      isRecycling := false;
    }

    /**
     * animationFunction (index.tsx:266-332), one tick. `measure` gives the
     * rendered size of an entry along the scroll axis, in pixels.
     */
    method Tick(d: Direction, paused: bool, pauseOnHover: bool, pauseOnItemHover: bool, measure: Item -> nat)
      requires Valid()
      modifies this`state, this`isRecycling
      ensures Valid()
      ensures old(ShouldPause(paused, pauseOnHover, pauseOnItemHover)) || old(isUpdatingSpacer) ==>
                state == old(state) && isRecycling == old(isRecycling)
      ensures !old(ShouldPause(paused, pauseOnHover, pauseOnItemHover)) && !old(isUpdatingSpacer) ==>
                && (forall e :: e != d ==> Offset(state, e) == Offset(old(state), e))
                && (d != Up ==> state.top == old(state).top)
                && (d != Right ==> state.right == old(state).right)
                && (d != Down ==> state.bottom == old(state).bottom)
                && (d != Left ==> state.left == old(state).left)
                && var v := Offset(old(state), d) - 1;
                   var size := ExitSize(old(state.items), d, measure);
                   if Passed(v, size) && !old(isRecycling) then
                     && |old(state.items)| > 0
                     && state.items == Rotate(old(state.items), d)
                     && Offset(state, d) == v + 2 * size
                     && v < Offset(state, d) <= 0
                     && isRecycling
                   else
                     && state.items == old(state.items)
                     && Offset(state, d) == v
                     && isRecycling == old(isRecycling)
    {
      if ShouldPause(paused, pauseOnHover, pauseOnItemHover) {
        return;
      }
      if isUpdatingSpacer {
        return;
      }
      var nextItems := state.items;
      var value := Offset(state, d);
      value := value - 1;
      var size := MeasureExiting(state.items, d, measure);
      if Passed(value, size) && !isRecycling {
        isRecycling := true;
        PassedIff(value, size);
        RotateKeepsAtMostOneDummy(nextItems, d);
        nextItems := Recycle(nextItems, d);
        value := value + 2 * size;
      }
      state := WithOffset(state, d, value).(items := nextItems);
    }

    /** Entering the container (index.tsx:404-409); the result says whether `onMarqueeHover` is called. */
    method MouseEnterContainer(pauseOnHover: bool) returns (notify: bool)
      modifies this`isHovered
      ensures notify == pauseOnHover
      ensures isHovered == (pauseOnHover || old(isHovered))
    {
      notify := pauseOnHover;
      if pauseOnHover {
        isHovered := true;
      }
    }

    /** Leaving the container (index.tsx:410-414). */
    method MouseLeaveContainer(pauseOnHover: bool)
      modifies this`isHovered
      ensures isHovered == (!pauseOnHover && old(isHovered))
    {
      if pauseOnHover {
        isHovered := false;
      }
    }

    /**
     * Entering item `i` (index.tsx:379-384); the result says whether
     * `onMarqueeItemHover` is called. Only a caller's item has the handler:
     * the spacer's box (index.tsx:345-355) has none.
     */
    method MouseEnterItem(pauseOnItemHover: bool, i: nat) returns (notify: bool)
      requires i < |state.items| && state.items[i].Real?
      modifies this`hoveredItemIndex
      ensures notify == pauseOnItemHover
      ensures hoveredItemIndex == if pauseOnItemHover then Some(i) else old(hoveredItemIndex)
    {
      notify := pauseOnItemHover;
      if pauseOnItemHover {
        hoveredItemIndex := Some(i);
      }
    }

    /** Leaving an item (index.tsx:385-389). */
    method MouseLeaveItem(pauseOnItemHover: bool)
      modifies this`hoveredItemIndex
      ensures hoveredItemIndex == if pauseOnItemHover then None else old(hoveredItemIndex)
    {
      if pauseOnItemHover {
        hoveredItemIndex := None;
      }
    }
  }
}
