/**
 * What the Marquee component renders from its state (src/Marquee/index.tsx):
 * the position style of the moving strip, the sizing and the class list of
 * the container, and the view of each entry.
 */
module MarqueeView {
  import opened Optional
  import opened MarqueeSequence
  import opened MarqueeEngine

  // ---------------------------------------------------------------------
  // Position style (index.tsx:218-227)
  // ---------------------------------------------------------------------

  /** The four positional CSS keys; `None` means the key is not set. Values are in half pixels. */
  datatype PositionStyle = PositionStyle(top: Option<int>, right: Option<int>, bottom: Option<int>, left: Option<int>)

  function StyleKey(p: PositionStyle, d: Direction): Option<int>
  {
    match d
    case Up => p.top
    case Right => p.right
    case Down => p.bottom
    case Left => p.left
  }

  /** marqueeStyle: only the key of the direction is set, and it holds that direction's offset. */
  function MarqueeStyle(s: ScrollState, d: Direction): (r: PositionStyle)
    ensures StyleKey(r, d) == Some(Offset(s, d))
    ensures forall e :: e != d ==> StyleKey(r, e) == None
  {
    var unset := PositionStyle(None, None, None, None);
    if d == Up then unset.(top := Some(s.top))
    else if d == Right then unset.(right := Some(s.right))
    else if d == Down then unset.(bottom := Some(s.bottom))
    else unset.(left := Some(s.left))
  }

  // ---------------------------------------------------------------------
  // Container sizing (index.tsx:209-216)
  // ---------------------------------------------------------------------

  /** marqueeDefaults.minHeight (index.tsx:46). */
  const DefaultMinHeight: int := 150

  datatype Sizing = Height(px: int) | MinHeight(px: int)

  /** An optional number is truthy when present and non-zero (NaN is not modelled). */
  predicate Truthy(n: Option<int>)
  {
    n.Some? && n.value != 0
  }

  /** `height` wins, then `minHeight`, then the default minimum of 150 px. */
  function ContainerSizing(height: Option<int>, minHeight: Option<int>): (r: Sizing)
    ensures r.Height? <==> Truthy(height)
    ensures r.Height? ==> r.px == height.value
    ensures r.MinHeight? ==> r.px == if Truthy(minHeight) then minHeight.value else DefaultMinHeight
    ensures r.px != 0
  {
    if Truthy(height) then Height(height.value)
    else if Truthy(minHeight) then MinHeight(minHeight.value)
    else MinHeight(DefaultMinHeight)
  }

  // ---------------------------------------------------------------------
  // Container class string (index.tsx:399-401)
  // ---------------------------------------------------------------------

  /** FadeMaskColor (index.tsx:15-19). */
  datatype FadeMaskColor = MaskNone | MaskWhite | MaskBlack

  function MaskName(c: FadeMaskColor): string
  {
    match c
    case MaskNone => "none"
    case MaskWhite => "white"
    case MaskBlack => "black"
  }

  /** One `${cond ? ` name` : ''}` part of a class template. */
  function AddClass(s: string, cond: bool, name: string): string
  {
    if cond then s + " " + name else s
  }

  /**
   * The container's `className`. `applyFadeMask` defaults to true and
   * `fadeMaskColor` to white when absent (index.tsx:204-205); an empty
   * `extra` class name is falsy and adds nothing.
   */
  function ContainerClassName(d: Direction, applyFadeMask: Option<bool>, fadeMaskColor: Option<FadeMaskColor>,
                              extra: string): string
  {
    var fade := if applyFadeMask.Some? then applyFadeMask.value else true;
    var color := if fadeMaskColor.Some? then fadeMaskColor.value else MaskWhite;
    AddClass(AddClass(AddClass("marquee-container", IsHorizontal(d), "horizontal"),
                      fade, "fade-mask-" + MaskName(color)),
             extra != "", extra)
  }

  /** Class names joined by single spaces. */
  function Join(ts: seq<string>): string
  {
    if |ts| == 0 then "" else if |ts| == 1 then ts[0] else ts[0] + " " + Join(ts[1..])
  }

  /** The index of the first space of `s`. */
  function FirstSpace(s: string): (i: nat)
    requires ' ' in s
    ensures i < |s| && s[i] == ' ' && ' ' !in s[..i]
  {
    if s[0] == ' ' then 0
    else
      var i := 1 + FirstSpace(s[1..]);
      assert s[..i] == [s[0]] + s[1..][..i - 1];
      i
  }

  /** A class attribute read back as the list of its space-separated names. */
  function Split(s: string): seq<string>
    decreases |s|
  {
    if ' ' !in s then [s] else [s[..FirstSpace(s)]] + Split(s[FirstSpace(s) + 1..])
  }

  lemma SplitCons(t: string, rest: string)
    requires ' ' !in t
    ensures Split(t + " " + rest) == [t] + Split(rest)
  {
    var s := t + " " + rest;
    assert s[|t|] == ' ';
    var i := FirstSpace(s);
    assert forall j :: 0 <= j < |t| ==> s[j] == t[j];
    assert i == |t|;
    assert s[..|t|] == t;
    assert s[|t| + 1..] == rest;
  }

  /** Reading back the joined names gives the names themselves. */
  lemma {:induction false} SplitJoin(ts: seq<string>)
    requires |ts| > 0
    requires forall k :: 0 <= k < |ts| ==> ' ' !in ts[k]
    ensures Split(Join(ts)) == ts
  {
    if |ts| > 1 {
      SplitJoin(ts[1..]);
      SplitCons(ts[0], Join(ts[1..]));
      assert ts == [ts[0]] + ts[1..];
    }
  }

  function AddName(ts: seq<string>, cond: bool, name: string): seq<string>
  {
    if cond then ts + [name] else ts
  }

  /** The class names the container gets, in order. */
  function ContainerClasses(d: Direction, applyFadeMask: Option<bool>, fadeMaskColor: Option<FadeMaskColor>,
                            extra: string): seq<string>
  {
    var fade := applyFadeMask != Some(false);
    var color := if fadeMaskColor.Some? then fadeMaskColor.value else MaskWhite;
    AddName(AddName(AddName(["marquee-container"], IsHorizontal(d), "horizontal"),
                    fade, "fade-mask-" + MaskName(color)),
            extra != "", extra)
  }

  /**
   * The class list the browser sees on the container: `marquee-container`,
   * then `horizontal` for Left and Right, then the fade mask class unless
   * the mask is switched off, then the caller's class name if one is given.
   */
  lemma ContainerClassList(d: Direction, applyFadeMask: Option<bool>, fadeMaskColor: Option<FadeMaskColor>,
                           extra: string)
    requires ' ' !in extra
    ensures Split(ContainerClassName(d, applyFadeMask, fadeMaskColor, extra)) ==
              ContainerClasses(d, applyFadeMask, fadeMaskColor, extra)
  {
    var ts := ContainerClasses(d, applyFadeMask, fadeMaskColor, extra);
    ContainerClassNameIsJoin(d, applyFadeMask, fadeMaskColor, extra);
    ContainerClassesHaveNoSpace(d, applyFadeMask, fadeMaskColor, extra);
    SplitJoin(ts);
  }

  lemma ContainerClassNameIsJoin(d: Direction, applyFadeMask: Option<bool>, fadeMaskColor: Option<FadeMaskColor>,
                                 extra: string)
    ensures ContainerClassName(d, applyFadeMask, fadeMaskColor, extra) ==
              Join(ContainerClasses(d, applyFadeMask, fadeMaskColor, extra))
  {
    var fade := if applyFadeMask.Some? then applyFadeMask.value else true;
    var mask := "fade-mask-" + MaskName(if fadeMaskColor.Some? then fadeMaskColor.value else MaskWhite);
    var t1 := AddName(["marquee-container"], IsHorizontal(d), "horizontal");
    var t2 := AddName(t1, fade, mask);
    JoinAddName(["marquee-container"], IsHorizontal(d), "horizontal");
    JoinAddName(t1, fade, mask);
    JoinAddName(t2, extra != "", extra);
  }

  /** Adding a name to the list adds ` name` to the joined string. */
  lemma JoinAddName(ts: seq<string>, cond: bool, name: string)
    requires |ts| > 0
    ensures |AddName(ts, cond, name)| > 0
    ensures Join(AddName(ts, cond, name)) == AddClass(Join(ts), cond, name)
  {
    if cond {
      JoinSnoc(ts, name);
    }
  }

  lemma ContainerClassesHaveNoSpace(d: Direction, applyFadeMask: Option<bool>, fadeMaskColor: Option<FadeMaskColor>,
                                    extra: string)
    requires ' ' !in extra
    ensures forall k :: 0 <= k < |ContainerClasses(d, applyFadeMask, fadeMaskColor, extra)| ==>
              ' ' !in ContainerClasses(d, applyFadeMask, fadeMaskColor, extra)[k]
  {
    var fade := applyFadeMask != Some(false);
    var color := if fadeMaskColor.Some? then fadeMaskColor.value else MaskWhite;
    var mask := "fade-mask-" + MaskName(color);
    assert ' ' !in mask by {
      match color
      case MaskNone => assert mask == "fade-mask-none";
      case MaskWhite => assert mask == "fade-mask-white";
      case MaskBlack => assert mask == "fade-mask-black";
    }
    var t0 := ["marquee-container"];
    var t1 := AddName(t0, IsHorizontal(d), "horizontal");
    var t2 := AddName(t1, fade, mask);
    assert ' ' !in "marquee-container" && ' ' !in "horizontal";
    AddNameNoSpace(t0, IsHorizontal(d), "horizontal");
    AddNameNoSpace(t1, fade, mask);
    AddNameNoSpace(t2, extra != "", extra);
  }

  lemma AddNameNoSpace(ts: seq<string>, cond: bool, name: string)
    requires forall k :: 0 <= k < |ts| ==> ' ' !in ts[k]
    requires ' ' !in name
    ensures forall k :: 0 <= k < |AddName(ts, cond, name)| ==> ' ' !in AddName(ts, cond, name)[k]
  {
  }

  lemma {:induction false} JoinSnoc(ts: seq<string>, t: string)
    requires |ts| > 0
    ensures Join(ts + [t]) == Join(ts) + " " + t
  {
    if |ts| > 1 {
      JoinSnoc(ts[1..], t);
      assert (ts + [t])[1..] == ts[1..] + [t];
    }
  }

  // ---------------------------------------------------------------------
  // Entry views (index.tsx:337-372)
  // ---------------------------------------------------------------------

  datatype Label = Plain(text: string) | Markup(node: string)

  /** A CSS length: pixels or `auto`. */
  datatype Length = Px(n: int) | Auto

  /** A spacer box (zero opacity, no pointer events) or a shown item with its `data-color`. */
  datatype ItemView = Spacer(width: Length, height: Length) | Shown(caption: Label, color: Option<int>)

  /**
   * How one entry is rendered. A spacer is sized along the scroll axis only:
   * its width is 0 px when horizontal (spacers carry no width), its height
   * the spacer's height when vertical.
   */
  function View(item: Item, d: Direction): (v: ItemView)
    ensures v.Spacer? <==> item.Dummy?
    ensures v.Spacer? ==> (v.width.Px? <==> IsHorizontal(d)) && (v.height.Px? <==> IsVertical(d))
    ensures v.Spacer? && IsVertical(d) ==> v.height == Px(item.height)
    ensures v.Spacer? && IsHorizontal(d) ==> v.width == Px(0)
    ensures item.Real? && item.content.Element? ==> v == Shown(Markup(item.content.node), None)
    ensures v.Shown? && v.color.Some? ==> item.content.Record? && v.color == item.content.color
    ensures v.Shown? ==> (v.caption.Markup? <==> item.content.Element?)
    ensures v.Shown? && item.content.Text? ==> v.caption == Plain(item.content.s)
    ensures v.Shown? && item.content.Record? ==> v.caption == Plain(item.content.text) && v.color == item.content.color
    ensures v.Shown? && item.content.Other? ==> v.caption == Plain(item.content.shown)
  {
    match item
    case Dummy(_, height) =>
      Spacer(if IsHorizontal(d) then Px(0) else Auto, if IsVertical(d) then Px(height) else Auto)
    case Real(c) =>
      match c
      case Text(s) => Shown(Plain(s), None)
      case Element(node) => Shown(Markup(node), None)
      case Record(text, color, _) => Shown(Plain(text), color)
      case Other(shown) => Shown(Plain(shown), None)
  }
}
