/**
 * The item sequence of the marquee (src/Marquee/index.tsx): the caller's
 * items, the zero-content "dummy" spacer that may be mixed in with them,
 * the spacer updates, the rotation a recycle performs and the measurement
 * of the item that is about to leave the viewport.
 */
module MarqueeSequence {
  import opened Optional

  /** MarqueeDirection (index.tsx:8-13). */
  datatype Direction = Up | Right | Down | Left

  predicate IsHorizontal(d: Direction) { d == Left || d == Right }

  predicate IsVertical(d: Direction) { d == Up || d == Down }

  /** Up and Left recycle the first item to the end; Down and Right the last item to the front. */
  predicate RecyclesFromFront(d: Direction) { d == Up || d == Left }

  /**
   * What a caller may pass as a marquee item: a string, a React element
   * (opaque here, named by `node`), an object with a string `text` and
   * optional `color` and `id`, or any other value, which is shown through
   * its `String(...)` form `shown`.
   */
  datatype Content =
    | Text(s: string)
    | Element(node: string)
    | Record(text: string, color: Option<int>, id: Option<int>)
    | Other(shown: string)

  /** An entry of the working sequence: a caller's item or the spacer (`isDummy: true`). */
  datatype Item = Real(content: Content) | Dummy(id: int, height: int)

  /** The caller's items as entries of the working sequence. */
  function AsItems(cs: seq<Content>): (r: seq<Item>)
    ensures |r| == |cs|
    ensures forall i :: 0 <= i < |cs| ==> r[i] == Real(cs[i])
  {
    seq(|cs|, i requires 0 <= i < |cs| => Real(cs[i]))
  }

  predicate NoDummy(s: seq<Item>)
  {
    forall i :: 0 <= i < |s| ==> s[i].Real?
  }

  /** `prev.marqueeItems.some(item => item.isDummy)` (index.tsx:135). */
  predicate HasDummy(s: seq<Item>)
  {
    exists i :: 0 <= i < |s| && s[i].Dummy?
  }

  predicate AtMostOneDummy(s: seq<Item>)
  {
    forall i, j :: 0 <= i < |s| && 0 <= j < |s| && s[i].Dummy? && s[j].Dummy? ==> i == j
  }

  /** The sequence holds exactly one spacer, and that spacer has the given height. */
  predicate ExactlyOneDummy(s: seq<Item>, height: int)
  {
    exists k :: 0 <= k < |s| && s[k].Dummy? && s[k].height == height &&
      forall j :: 0 <= j < |s| && s[j].Dummy? ==> j == k
  }

  /** The caller's items in the sequence, in order, with the spacers left out. */
  function Reals(s: seq<Item>): seq<Content>
  {
    if s == [] then [] else (if s[0].Real? then [s[0].content] else []) + Reals(s[1..])
  }

  lemma {:induction false} RealsConcat(a: seq<Item>, b: seq<Item>)
    ensures Reals(a + b) == Reals(a) + Reals(b)
  {
    if a == [] {
      assert a + b == b;
    } else {
      assert (a + b)[0] == a[0];
      assert (a + b)[1..] == a[1..] + b;
      RealsConcat(a[1..], b);
    }
  }

  lemma {:induction false} RealsOfAsItems(cs: seq<Content>)
    ensures Reals(AsItems(cs)) == cs
  {
    if cs != [] {
      assert AsItems(cs)[1..] == AsItems(cs[1..]);
      RealsOfAsItems(cs[1..]);
    }
  }

  // ---------------------------------------------------------------------
  // Spacer updates (the state updaters of calculateSpacerOnce, index.tsx:133-172)
  // ---------------------------------------------------------------------

  /**
   * A new spacer goes at the beginning for Up and Left (`unshift`) and at
   * the end otherwise (`push`), index.tsx:148-152.
   */
  function InsertDummy(s: seq<Item>, d: Direction, id: int, height: int): (r: seq<Item>)
    ensures Reals(r) == Reals(s)
    ensures |r| == |s| + 1
    ensures RecyclesFromFront(d) ==> r[0] == Dummy(id, height) && r[1..] == s
    ensures !RecyclesFromFront(d) ==> r[|s|] == Dummy(id, height) && r[..|s|] == s
  {
    RealsConcat([Dummy(id, height)], s);
    RealsConcat(s, [Dummy(id, height)]);
    if RecyclesFromFront(d) then [Dummy(id, height)] + s else s + [Dummy(id, height)]
  }

  /** Every spacer gets the new height; the caller's items stay as they are (index.tsx:159-161). */
  function ResizeDummies(s: seq<Item>, height: int): (r: seq<Item>)
    ensures |r| == |s|
    ensures forall i :: 0 <= i < |s| ==> r[i] == if s[i].Dummy? then Dummy(s[i].id, height) else s[i]
    ensures Reals(r) == Reals(s)
  {
    if s == [] then []
    else
      var head := if s[0].Dummy? then Dummy(s[0].id, height) else s[0];
      var r := [head] + ResizeDummies(s[1..], height);
      assert r[0] == head && r[1..] == ResizeDummies(s[1..], height);
      r
  }

  /** `filter(item => !item.isDummy)` (index.tsx:171). */
  function RemoveDummies(s: seq<Item>): (r: seq<Item>)
    ensures NoDummy(r)
    ensures Reals(r) == Reals(s)
    ensures |r| <= |s|
  {
    if s == [] then []
    else
      var rest := RemoveDummies(s[1..]);
      if s[0].Dummy? then rest
      else
        var r := [s[0]] + rest;
        assert r[0] == s[0] && r[1..] == rest;
        r
  }

  /** No spacers left means the sequence is exactly the caller's items. */
  lemma {:induction false} NoDummyIsAsItems(s: seq<Item>)
    requires NoDummy(s)
    ensures s == AsItems(Reals(s))
  {
    if s != [] {
      NoDummyIsAsItems(s[1..]);
      assert s == [s[0]] + s[1..];
      assert AsItems(Reals(s)) == [Real(s[0].content)] + AsItems(Reals(s[1..]));
    }
  }

  /**
   * The updater used when the content is shorter than the container
   * (index.tsx:133-164): insert one spacer of the missing height when there
   * is none, otherwise resize the spacer already there.
   */
  function WithSpacer(s: seq<Item>, d: Direction, height: int, freshId: int): (r: seq<Item>)
    ensures Reals(r) == Reals(s)
    ensures !HasDummy(s) ==> r == InsertDummy(s, d, freshId, height)
    ensures HasDummy(s) ==> r == ResizeDummies(s, height)
    ensures AtMostOneDummy(s) ==> ExactlyOneDummy(r, height)
  {
    if !HasDummy(s) then
      var r := InsertDummy(s, d, freshId, height);
      assert RecyclesFromFront(d) ==> forall j :: 1 <= j < |r| ==> r[j] == s[j - 1];
      assert ExactlyOneDummy(r, height) by {
        var k := if RecyclesFromFront(d) then 0 else |s|;
        assert r[k].Dummy? && r[k].height == height;
        assert forall j :: 0 <= j < |r| && j != k ==> r[j] == s[if RecyclesFromFront(d) then j - 1 else j];
      }
      r
    else
      var r := ResizeDummies(s, height);
      assert AtMostOneDummy(s) ==> ExactlyOneDummy(r, height) by {
        if AtMostOneDummy(s) {
          var k :| 0 <= k < |s| && s[k].Dummy?;
          assert r[k].Dummy? && r[k].height == height;
        }
      }
      r
  }

  // ---------------------------------------------------------------------
  // Rotation (index.tsx:310-314)
  // ---------------------------------------------------------------------

  /**
   * `push(shift())` for Up and Left, `unshift(pop())` for Down and Right.
   * It moves whatever entry sits at the exiting end, a spacer included.
   */
  function Rotate<T>(s: seq<T>, d: Direction): (r: seq<T>)
    requires |s| > 0
    ensures |r| == |s|
    ensures multiset(r) == multiset(s)
    ensures RecyclesFromFront(d) ==> r[|r| - 1] == s[0] && forall i :: 0 <= i < |s| - 1 ==> r[i] == s[i + 1]
    ensures !RecyclesFromFront(d) ==> r[0] == s[|s| - 1] && forall i :: 1 <= i < |s| ==> r[i] == s[i - 1]
  {
    if RecyclesFromFront(d) then
      assert s == [s[0]] + s[1..];
      s[1..] + [s[0]]
    else
      assert s == s[..|s| - 1] + [s[|s| - 1]];
      [s[|s| - 1]] + s[..|s| - 1]
  }

  /** A recycle in one direction is undone by a recycle in the opposite one. */
  lemma RotateRoundTrip<T>(s: seq<T>)
    requires |s| > 0
    ensures Rotate(Rotate(s, Up), Down) == s
    ensures Rotate(Rotate(s, Down), Up) == s
    ensures Rotate(Rotate(s, Left), Right) == s
    ensures Rotate(Rotate(s, Right), Left) == s
  {
    RotateUndone(s, Up, Down);
    RotateUndone(s, Left, Right);
  }

  lemma RotateUndone<T>(s: seq<T>, front: Direction, back: Direction)
    requires |s| > 0 && RecyclesFromFront(front) && !RecyclesFromFront(back)
    ensures Rotate(Rotate(s, front), back) == s
    ensures Rotate(Rotate(s, back), front) == s
  {
    var a, b := Rotate(Rotate(s, front), back), Rotate(Rotate(s, back), front);
    assert forall i :: 0 <= i < |s| ==> a[i] == s[i];
    assert forall i :: 0 <= i < |s| ==> b[i] == s[i];
  }

  /** Recycling never creates a second spacer. */
  lemma RotateKeepsAtMostOneDummy(s: seq<Item>, d: Direction)
    requires |s| > 0 && AtMostOneDummy(s)
    ensures AtMostOneDummy(Rotate(s, d))
  {
    var r := Rotate(s, d);
    var n := |s|;
    forall i, j | 0 <= i < n && 0 <= j < n && r[i].Dummy? && r[j].Dummy? ensures i == j {
      var si := if RecyclesFromFront(d) then (if i == n - 1 then 0 else i + 1) else (if i == 0 then n - 1 else i - 1);
      var sj := if RecyclesFromFront(d) then (if j == n - 1 then 0 else j + 1) else (if j == 0 then n - 1 else j - 1);
      assert r[i] == s[si] && r[j] == s[sj];
    }
  }

  // ---------------------------------------------------------------------
  // Measuring the exiting item (getFirstMarqueeItemSize / getLastMarqueeItemSize)
  // ---------------------------------------------------------------------

  /** The index of the first entry that is not a spacer, if any. */
  function FirstReal(s: seq<Item>): (r: Option<nat>)
    ensures r.Some? ==> r.value < |s| && s[r.value].Real? && forall j :: 0 <= j < r.value ==> s[j].Dummy?
    ensures r.None? ==> forall j :: 0 <= j < |s| ==> s[j].Dummy?
  {
    if s == [] then None
    else if s[0].Real? then Some(0)
    else match FirstReal(s[1..])
      case None => None
      case Some(k) => Some(k + 1)
  }

  /** The index of the last entry that is not a spacer, if any. */
  function LastReal(s: seq<Item>): (r: Option<nat>)
    ensures r.Some? ==> r.value < |s| && s[r.value].Real? && forall j :: r.value < j < |s| ==> s[j].Dummy?
    ensures r.None? ==> forall j :: 0 <= j < |s| ==> s[j].Dummy?
  {
    if s == [] then None
    else if s[|s| - 1].Real? then Some(|s| - 1)
    else LastReal(s[..|s| - 1])
  }

  /**
   * The measured size of the item that leaves next: the first non-spacer
   * entry for Up and Left, the last one for Down and Right; 0 when there is
   * none (index.tsx:229-261, 298-301). `measure` is the rendered size along
   * the scroll axis, in whole pixels.
   */
  function ExitSize(s: seq<Item>, d: Direction, measure: Item -> nat): nat
  {
    var at := if RecyclesFromFront(d) then FirstReal(s) else LastReal(s);
    match at
    case None => 0
    case Some(i) => measure(s[i])
  }

  /** A positive exit size needs a caller's item in the sequence, so a recycle never meets an empty one. */
  lemma ExitSizeNeedsReal(s: seq<Item>, d: Direction, measure: Item -> nat)
    ensures ExitSize(s, d, measure) > 0 ==> |s| > 0 && Reals(s) != []
  {
    if ExitSize(s, d, measure) > 0 {
      var at := if RecyclesFromFront(d) then FirstReal(s) else LastReal(s);
      var i := at.value;
      assert s == s[..i] + s[i..];
      assert s[i..] == [s[i]] + s[i + 1..];
      RealsConcat(s[..i], s[i..]);
      RealsConcat([s[i]], s[i + 1..]);
    }
  }

  /** getFirstMarqueeItemSize (index.tsx:229-244): a loop over the rendered children. */
  method FirstItemSize(children: seq<Item>, measure: Item -> nat) returns (size: nat)
    ensures FirstReal(children).None? ==> size == 0
    ensures FirstReal(children).Some? ==> size == measure(children[FirstReal(children).value])
  {
    var i := 0;
    while i < |children|
      invariant 0 <= i <= |children|
      invariant forall j :: 0 <= j < i ==> children[j].Dummy?
    {
      if children[i].Real? {
        return measure(children[i]);
      }
      i := i + 1;
    }
    return 0;
  }

  /** getLastMarqueeItemSize (index.tsx:246-261): the same loop from the end. */
  method LastItemSize(children: seq<Item>, measure: Item -> nat) returns (size: nat)
    ensures LastReal(children).None? ==> size == 0
    ensures LastReal(children).Some? ==> size == measure(children[LastReal(children).value])
  {
    var i := |children|;
    while i > 0
      invariant 0 <= i <= |children|
      invariant forall j :: i <= j < |children| ==> children[j].Dummy?
    {
      if children[i - 1].Real? {
        return measure(children[i - 1]);
      }
      i := i - 1;
    }
    return 0;
  }

  // ---------------------------------------------------------------------
  // The recycle test and the continuity of the picture across a recycle
  // ---------------------------------------------------------------------

  function Abs(v: int): nat { if v < 0 then -v else v }

  /**
   * `(size ? Math.floor(Math.abs(v) / size) : 0) > 0` (index.tsx:303) with
   * the offset `v` in half pixels and `size` in pixels.
   */
  predicate Passed(v: int, size: nat)
  {
    size != 0 && Abs(v) / (2 * size) > 0
  }

  /** The floor test is the threshold test: an item has passed once the offset has covered its size. */
  lemma PassedIff(v: int, size: nat)
    ensures Passed(v, size) <==> size > 0 && Abs(v) >= 2 * size
  {
    if size > 0 {
      var a, b := Abs(v), 2 * size;
      assert Passed(v, size) == (a / b > 0);
      if a >= b {
        QuotientPositive(a, b);
      } else {
        QuotientZero(a, b);
      }
    }
  }

  lemma QuotientZero(a: nat, b: nat)
    requires a < b
    ensures a / b == 0
  {
  }

  lemma QuotientPositive(a: nat, b: nat)
    requires 0 < b <= a
    ensures a / b >= 1
  {
    var q, r := a / b, a % b;
    assert a == q * b + r && 0 <= r < b;
    NonPositiveProduct(q, b);
  }

  lemma NonPositiveProduct(q: int, b: nat)
    ensures q <= 0 ==> q * b <= 0
  {
  }

  /** Total measured length of the entries, in pixels. */
  function Extent(s: seq<Item>, measure: Item -> nat): nat
  {
    if s == [] then 0 else measure(s[0]) + Extent(s[1..], measure)
  }

  lemma {:induction false} ExtentConcat(a: seq<Item>, b: seq<Item>, measure: Item -> nat)
    ensures Extent(a + b, measure) == Extent(a, measure) + Extent(b, measure)
  {
    if a == [] {
      assert a + b == b;
    } else {
      assert (a + b)[0] == a[0];
      assert (a + b)[1..] == a[1..] + b;
      ExtentConcat(a[1..], b, measure);
    }
  }

  /**
   * How far, in pixels, entry `k` sits from the edge the offset is measured
   * from: the top or left edge for Up and Left, the bottom or right edge for
   * Down and Right.
   */
  function Lead(s: seq<Item>, k: nat, d: Direction, measure: Item -> nat): nat
    requires k < |s|
  {
    if RecyclesFromFront(d) then Extent(s[..k], measure) else Extent(s[k + 1..], measure)
  }

  /**
   * Where the recycle moves a caller's item, adding its size back to the
   * offset keeps every other entry exactly where it was on screen: the
   * recycle shows no jump.
   */
  lemma RecycleIsSeamless(s: seq<Item>, d: Direction, measure: Item -> nat, v: int, k: nat)
    requires |s| > 0
    requires RecyclesFromFront(d) ==> s[0].Real?
    requires !RecyclesFromFront(d) ==> s[|s| - 1].Real?
    requires RecyclesFromFront(d) ==> 1 <= k < |s|
    requires !RecyclesFromFront(d) ==> k < |s| - 1
    ensures var r, v' := Rotate(s, d), v + 2 * ExitSize(s, d, measure);
            var k' := if RecyclesFromFront(d) then k - 1 else k + 1;
            r[k'] == s[k] && v' + 2 * Lead(r, k', d, measure) == v + 2 * Lead(s, k, d, measure)
  {
    var r := Rotate(s, d);
    var n := |s|;
    if RecyclesFromFront(d) {
      assert FirstReal(s) == Some(0);
      assert r[..k - 1] == s[1..k];
      assert s[..k] == [s[0]] + s[1..k];
      ExtentConcat([s[0]], s[1..k], measure);
    } else {
      assert LastReal(s) == Some(n - 1);
      assert r[k + 2..] == s[k + 1..n - 1];
      assert s[k + 1..] == s[k + 1..n - 1] + [s[n - 1]];
      ExtentConcat(s[k + 1..n - 1], [s[n - 1]], measure);
    }
  }

  /**
   * When the spacer sits at the exiting end (the front, for Up and Left),
   * the recycle moves the spacer
   * but adds back the size of the caller's item nearest that end: every
   * other entry shifts on screen by that item's size minus the spacer's,
   * which is no shift exactly when the two sizes are equal. The shift is
   * in pixels: the offset gains the exit size, and the entry's lead changes.
   */
  lemma SpacerAtExitShift(s: seq<Item>, d: Direction, measure: Item -> nat, k: nat)
    requires RecyclesFromFront(d) && |s| > 1 && s[0].Dummy? && FirstReal(s).Some? && 1 <= k < |s|
    ensures Rotate(s, d)[k - 1] == s[k]
    ensures (ExitSize(s, d, measure) + Lead(Rotate(s, d), k - 1, d, measure)) - Lead(s, k, d, measure) ==
            measure(s[FirstReal(s).value]) - measure(s[0])
  {
    var r := Rotate(s, d);
    assert r[..k - 1] == s[1..k];
    assert s[..k] == [s[0]] + s[1..k];
    ExtentConcat([s[0]], s[1..k], measure);
  }

  /** The mirror of `SpacerAtExitShift` for Down and Right, with the spacer at the back. */
  lemma SpacerAtExitShiftBack(s: seq<Item>, d: Direction, measure: Item -> nat, k: nat)
    requires !RecyclesFromFront(d) && |s| > 1 && s[|s| - 1].Dummy? && LastReal(s).Some? && k < |s| - 1
    ensures Rotate(s, d)[k + 1] == s[k]
    ensures (ExitSize(s, d, measure) + Lead(Rotate(s, d), k + 1, d, measure)) - Lead(s, k, d, measure) ==
            measure(s[LastReal(s).value]) - measure(s[|s| - 1])
  {
    LeadAfterBackRotation(s, d, measure, k);
  }

  /** Rotating the back entry to the front takes its size off the lead of every other entry. */
  lemma LeadAfterBackRotation(s: seq<Item>, d: Direction, measure: Item -> nat, k: nat)
    requires !RecyclesFromFront(d) && |s| > 1 && k < |s| - 1
    ensures Rotate(s, d)[k + 1] == s[k]
    ensures Lead(Rotate(s, d), k + 1, d, measure) + measure(s[|s| - 1]) == Lead(s, k, d, measure)
  {
    var r := Rotate(s, d);
    var n := |s|;
    assert r[k + 2..] == s[k + 1..n - 1];
    assert s[k + 1..] == s[k + 1..n - 1] + [s[n - 1]];
    ExtentConcat(s[k + 1..n - 1], [s[n - 1]], measure);
  }

  /**
   * An instance of `SpacerAtExitShift` where the shift is not zero: with a
   * 50 px spacer in front of a 20 px item, scrolling up, the item jumps
   * 30 px.
   */
  lemma DummyAtExitJumps()
    ensures var s := [Dummy(0, 50), Real(Text("A"))];
            var measure: Item -> nat := (it: Item) => if it.Dummy? && it.height >= 0 then it.height else 20;
            var v := -40;
            var r, v' := Rotate(s, Up), v + 2 * ExitSize(s, Up, measure);
            Passed(v, ExitSize(s, Up, measure)) &&
            r[0] == s[1] &&
            v' + 2 * Lead(r, 0, Up, measure) != v + 2 * Lead(s, 1, Up, measure)
  {
    var s := [Dummy(0, 50), Real(Text("A"))];
    var measure: Item -> nat := (it: Item) => if it.Dummy? && it.height >= 0 then it.height else 20;
    assert FirstReal(s) == Some(1);
    assert ExitSize(s, Up, measure) == 20;
    PassedIff(-40, 20);
    assert s[..1] == [Dummy(0, 50)];
    assert Extent([Dummy(0, 50)], measure) == 50;
    assert Rotate(s, Up)[..0] == [];
  }
}
