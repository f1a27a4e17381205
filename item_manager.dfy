/**
 * The item-list editor of the demo application
 * (dev/components/ItemManager.tsx): the list handlers, which build new
 * lists, and the edit session, whose fields the handlers overwrite.
 *
 * The `items` prop and the `onItemsChange` callback that replaces it are
 * modelled as one field that the handlers assign.
 */
module ItemManager {
  import opened Optional

  /** MarqueeItem (ItemManager.tsx:3-7). */
  datatype ManagedItem = ManagedItem(id: int, text: string, color: int)

  // ---------------------------------------------------------------------
  // String.prototype.trim
  // ---------------------------------------------------------------------

  /** ECMAScript WhiteSpace and LineTerminator code points, the ones `trim` removes. */
  predicate IsJsSpace(c: char)
  {
    || c == ' ' || c == '\t' || c == '\n' || c == '\r' || c == '\U{000B}' || c == '\U{000C}'
    || c == '\U{00A0}' || c == '\U{1680}' || ('\U{2000}' <= c <= '\U{200A}')
    || c == '\U{2028}' || c == '\U{2029}' || c == '\U{202F}' || c == '\U{205F}'
    || c == '\U{3000}' || c == '\U{FEFF}'
  }

  function TrimStart(s: string): (r: string)
    ensures |r| <= |s| && r == s[|s| - |r|..]
    ensures forall k :: 0 <= k < |s| - |r| ==> IsJsSpace(s[k])
    ensures r != [] ==> !IsJsSpace(r[0])
  {
    if s != [] && IsJsSpace(s[0]) then TrimStart(s[1..]) else s
  }

  function TrimEnd(s: string): (r: string)
    ensures |r| <= |s| && r == s[..|r|]
    ensures forall k :: |r| <= k < |s| ==> IsJsSpace(s[k])
    ensures r != [] ==> !IsJsSpace(r[|r| - 1])
  {
    if s != [] && IsJsSpace(s[|s| - 1]) then TrimEnd(s[..|s| - 1]) else s
  }

  /** `s.trim()`: the slice of `s` between its leading and its trailing white space. */
  function Trim(s: string): (r: string)
    ensures r != [] ==> !IsJsSpace(r[0]) && !IsJsSpace(r[|r| - 1])
  {
    TrimEnd(TrimStart(s))
  }

  /** Trimming leaves nothing exactly when the text is all white space (the `if (x.trim())` guards). */
  lemma TrimEmptyIff(s: string)
    ensures Trim(s) == [] <==> forall k :: 0 <= k < |s| ==> IsJsSpace(s[k])
  {
    var a := TrimStart(s);
    if Trim(s) == [] {
      assert a == [];
    } else {
      var b := Trim(s);
      assert b[0] == a[0] == s[|s| - |a|];
    }
  }

  /** Trimming twice is trimming once. */
  lemma TrimIdempotent(s: string)
    ensures Trim(Trim(s)) == Trim(s)
  {
    var r := Trim(s);
    if r != [] {
      assert TrimStart(r) == r;
      assert TrimEnd(r) == r;
    }
  }

  // ---------------------------------------------------------------------
  // List transformations (the arguments passed to onItemsChange)
  // ---------------------------------------------------------------------

  /** initialItems (ItemManager.tsx:14-20). */
  const InitialItems: seq<ManagedItem> := [
    ManagedItem(1, "1. Welcome to React Marquee Master! 🎉", 1),
    ManagedItem(2, "2. This is a smooth scrolling text component", 2),
    ManagedItem(3, "3. Built with TypeScript and React", 3),
    ManagedItem(4, "4. Perfect for announcements and news", 4),
    ManagedItem(5, "5. Easy to customize and use", 1)
  ]

  predicate UniqueIds(items: seq<ManagedItem>)
  {
    forall i, j :: 0 <= i < |items| && 0 <= j < |items| && items[i].id == items[j].id ==> i == j
  }

  predicate HasId(items: seq<ManagedItem>, id: int)
  {
    exists i :: 0 <= i < |items| && items[i].id == id
  }

  /** `items.find(item => item.id === id)`, as the index of the first match. */
  function Find(items: seq<ManagedItem>, id: int): (r: Option<nat>)
    ensures r.Some? ==> r.value < |items| && items[r.value].id == id && forall j :: 0 <= j < r.value ==> items[j].id != id
    ensures r.None? ==> !HasId(items, id)
  {
    if items == [] then None
    else if items[0].id == id then Some(0)
    else match Find(items[1..], id)
      case None => None
      case Some(k) => Some(k + 1)
  }

  /** `items.filter(item => item.id !== id)`. */
  function WithoutId(items: seq<ManagedItem>, id: int): (r: seq<ManagedItem>)
    ensures |r| <= |items|
    ensures forall k :: 0 <= k < |r| ==> r[k].id != id
  {
    if items == [] then []
    else if items[0].id == id then WithoutId(items[1..], id)
    else [items[0]] + WithoutId(items[1..], id)
  }

  /** The filtered list holds exactly the items with another id. */
  lemma {:induction false} WithoutIdMembers(items: seq<ManagedItem>, id: int)
    ensures forall x :: x in WithoutId(items, id) <==> x in items && x.id != id
  {
    if items != [] {
      WithoutIdMembers(items[1..], id);
      assert items == [items[0]] + items[1..];
    }
  }

  /** Removing an id that no item has changes nothing. */
  lemma {:induction false} WithoutAbsentId(items: seq<ManagedItem>, id: int)
    requires !HasId(items, id)
    ensures WithoutId(items, id) == items
  {
    if items != [] {
      assert items[0].id != id;
      assert !HasId(items[1..], id) by {
        assert forall k :: 0 <= k < |items| - 1 ==> items[1..][k] == items[k + 1];
      }
      WithoutAbsentId(items[1..], id);
      assert items == [items[0]] + items[1..];
    }
  }

  /** Filtering distributes over concatenation. */
  lemma {:induction false} WithoutIdConcat(a: seq<ManagedItem>, b: seq<ManagedItem>, id: int)
    ensures WithoutId(a + b, id) == WithoutId(a, id) + WithoutId(b, id)
  {
    if a == [] {
      assert a + b == b;
    } else {
      var ab := a + b;
      assert ab[0] == a[0];
      assert ab[1..] == a[1..] + b;
      WithoutIdConcat(a[1..], b, id);
      var tail := WithoutId(a[1..], id) + WithoutId(b, id);
      assert WithoutId(ab, id) == if a[0].id == id then tail else [a[0]] + tail;
    }
  }

  /** Removing the id only item `k` has drops exactly that item and keeps the others in order. */
  lemma WithoutPresentId(items: seq<ManagedItem>, id: int, k: nat)
    requires k < |items| && items[k].id == id
    requires forall j :: 0 <= j < |items| && j != k ==> items[j].id != id
    ensures WithoutId(items, id) == items[..k] + items[k + 1..]
    ensures |WithoutId(items, id)| == |items| - 1
  {
    var pre := items[..k];
    var mid := [items[k]];
    var post := items[k + 1..];
    assert items == pre + mid + post;
    assert !HasId(pre, id) by {
      forall j | 0 <= j < |pre| ensures pre[j].id != id {
        assert pre[j] == items[j];
      }
    }
    assert !HasId(post, id) by {
      forall j | 0 <= j < |post| ensures post[j].id != id {
        assert post[j] == items[k + 1 + j];
      }
    }
    WithoutAbsentId(pre, id);
    WithoutAbsentId(post, id);
    assert WithoutId(mid, id) == [] by {
      assert mid[1..] == [];
    }
    WithoutIdConcat(pre + mid, post, id);
    WithoutIdConcat(pre, mid, id);
  }

  /**
   * The remove guard counts items, not distinct ids: two items sharing an
   * id pass the guard and are removed together, leaving an empty list.
   */
  lemma DuplicateIdsCanEmptyList()
    ensures var xs := [ManagedItem(7, "a", 1), ManagedItem(7, "b", 2)];
            |xs| > 1 && WithoutId(xs, 7) == []
  {
    var xs := [ManagedItem(7, "a", 1), ManagedItem(7, "b", 2)];
    assert xs[1..][1..] == [];
  }

  /** handleSaveEdit's `map` (ItemManager.tsx:57). */
  function WithText(items: seq<ManagedItem>, id: int, text: string): (r: seq<ManagedItem>)
    ensures |r| == |items|
    ensures forall i :: 0 <= i < |items| ==>
              && r[i].id == items[i].id
              && r[i].color == items[i].color
              && r[i].text == (if items[i].id == id then text else items[i].text)
  {
    seq(|items|, i requires 0 <= i < |items| => if items[i].id == id then items[i].(text := text) else items[i])
  }

  /** handleColorChange's `map` (ItemManager.tsx:69). */
  function WithColor(items: seq<ManagedItem>, id: int, color: int): (r: seq<ManagedItem>)
    ensures |r| == |items|
    ensures forall i :: 0 <= i < |items| ==>
              && r[i].id == items[i].id
              && r[i].text == items[i].text
              && r[i].color == (if items[i].id == id then color else items[i].color)
  {
    seq(|items|, i requires 0 <= i < |items| => if items[i].id == id then items[i].(color := color) else items[i])
  }

  // ---------------------------------------------------------------------
  // "Colors Used" (ItemManager.tsx:414)
  // ---------------------------------------------------------------------

  function Colors(items: seq<ManagedItem>): set<int>
  {
    if items == [] then {} else {items[0].color} + Colors(items[1..])
  }

  /** `new Set(items.map(item => item.color)).size`. */
  function ColorsUsed(items: seq<ManagedItem>): nat
  {
    |Colors(items)|
  }

  /** The colour set holds exactly the colours of the items. */
  lemma {:induction false} ColorsMembers(items: seq<ManagedItem>)
    ensures forall c :: c in Colors(items) <==> exists i :: 0 <= i < |items| && items[i].color == c
  {
    if items != [] {
      ColorsMembers(items[1..]);
      assert forall i :: 0 <= i < |items| - 1 ==> items[1..][i] == items[i + 1];
      forall c | c in Colors(items) ensures exists i :: 0 <= i < |items| && items[i].color == c {
        if c != items[0].color {
          assert c in Colors(items[1..]);
          var i :| 0 <= i < |items| - 1 && items[1..][i].color == c;
          assert items[i + 1].color == c;
        }
      }
    }
  }

  /** There are never more colours than items, and a non-empty list uses at least one. */
  lemma {:induction false} ColorsUsedBounds(items: seq<ManagedItem>)
    ensures ColorsUsed(items) <= |items|
    ensures items != [] ==> ColorsUsed(items) >= 1
  {
    if items != [] {
      ColorsUsedBounds(items[1..]);
      assert items[0].color in Colors(items);
    }
  }

  /** Colours depend only on the colour fields, so editing a text never changes the count. */
  lemma SaveEditKeepsColorsUsed(items: seq<ManagedItem>, id: int, text: string)
    ensures ColorsUsed(WithText(items, id, text)) == ColorsUsed(items)
  {
    var r := WithText(items, id, text);
    ColorsMembers(items);
    ColorsMembers(r);
    forall c ensures c in Colors(r) <==> c in Colors(items) {
      if c in Colors(r) {
        var i :| 0 <= i < |r| && r[i].color == c;
        assert items[i].color == c;
      }
      if c in Colors(items) {
        var i :| 0 <= i < |items| && items[i].color == c;
        assert r[i].color == c;
      }
    }
    assert Colors(r) == Colors(items);
  }

  /** The default list uses four colours: 1, 2, 3 and 4. */
  lemma InitialColorsUsed()
    ensures ColorsUsed(InitialItems) == 4
  {
    var s := InitialItems;
    FiveItemColors(s[0], s[1], s[2], s[3], s[4]);
    assert s == [s[0], s[1], s[2], s[3], s[4]];
  }

  /** Five items coloured 1, 2, 3, 4, 1, as the defaults are, use four colours. */
  lemma FiveItemColors(a: ManagedItem, b: ManagedItem, c: ManagedItem, d: ManagedItem, e: ManagedItem)
    requires a.color == 1 && b.color == 2 && c.color == 3 && d.color == 4 && e.color == 1
    ensures ColorsUsed([a, b, c, d, e]) == 4
  {
    assert [e][1..] == [];
    assert Colors([e]) == {1};
    assert [d, e][1..] == [e];
    assert Colors([d, e]) == {4, 1};
    assert [c, d, e][1..] == [d, e];
    assert Colors([c, d, e]) == {3, 4, 1};
    assert [b, c, d, e][1..] == [c, d, e];
    assert Colors([b, c, d, e]) == {2, 3, 4, 1};
    assert [a, b, c, d, e][1..] == [b, c, d, e];
    assert Colors([a, b, c, d, e]) == {1, 2, 3, 4};
  }

  // ---------------------------------------------------------------------
  // The component's state and handlers
  // ---------------------------------------------------------------------

  class ItemManager {
    var items: seq<ManagedItem>
    var newItemText: string
    var newItemColor: int
    var editingItem: Option<int>
    var editText: string

    /** The initial `useState` values (ItemManager.tsx:23-26). */
    constructor (items: seq<ManagedItem>)
      ensures this.items == items
      ensures newItemText == "" && newItemColor == 1 && editingItem == None && editText == ""
    {
      this.items := items;
      newItemText := "";
      newItemColor := 1;
      editingItem := None;
      editText := "";
    }

    /** Typing in the new-item field (ItemManager.tsx:105). */
    method SetNewItemText(text: string)
      modifies this`newItemText
      ensures newItemText == text
    {
      newItemText := text;
    }

    /** Choosing the new item's colour (ItemManager.tsx:127). */
    method SetNewItemColor(color: int)
      modifies this`newItemColor
      ensures newItemColor == color
    {
      newItemColor := color;
    }

    /** Typing in the edit field (ItemManager.tsx:241). */
    method SetEditText(text: string)
      modifies this`editText
      ensures editText == text
    {
      editText := text;
    }

    /** handleAddItem (ItemManager.tsx:28-39); `now` stands for `Date.now()`. */
    method AddItem(now: int)
      modifies this`items, this`newItemText, this`newItemColor
      ensures Trim(old(newItemText)) == [] ==>
                items == old(items) && newItemText == old(newItemText) && newItemColor == old(newItemColor)
      ensures Trim(old(newItemText)) != [] ==>
                && items == old(items) + [ManagedItem(now, Trim(old(newItemText)), old(newItemColor))]
                && newItemText == "" && newItemColor == 1
      ensures UniqueIds(old(items)) && !HasId(old(items), now) ==> UniqueIds(items)
    {
      var text := Trim(newItemText);
      if text != [] {
        var item := ManagedItem(now, text, newItemColor);
        AppendKeepsUniqueIds(items, item);
        items := items + [item];
        newItemText := "";
        newItemColor := 1;
      }
    }

    /** handleRemoveItem (ItemManager.tsx:41-45). */
    method RemoveItem(id: int)
      modifies this`items
      ensures |old(items)| <= 1 ==> items == old(items)
      ensures |old(items)| > 1 ==> items == WithoutId(old(items), id)
      ensures UniqueIds(old(items)) && |old(items)| > 1 ==>
                && UniqueIds(items)
                && |items| == (if HasId(old(items), id) then |old(items)| - 1 else |old(items)|)
                && items != []
    {
      if |items| > 1 {
        ghost var before := items;
        items := WithoutId(items, id);
        if !HasId(before, id) {
          WithoutAbsentId(before, id);
        } else if UniqueIds(before) {
          var k :| 0 <= k < |before| && before[k].id == id;
          assert forall j :: 0 <= j < |before| && j != k ==> before[j].id != id;
          WithoutPresentId(before, id, k);
        }
        if UniqueIds(before) {
          WithoutIdUnique(before, id);
        }
      }
    }

    /** handleEditItem (ItemManager.tsx:47-53). */
    method EditItem(id: int)
      modifies this`editingItem, this`editText
      ensures Find(items, id).None? ==> editingItem == old(editingItem) && editText == old(editText)
      ensures Find(items, id).Some? ==> editingItem == Some(id) && editText == items[Find(items, id).value].text
    {
      var found := Find(items, id);
      if found.Some? {
        editingItem := Some(id);
        editText := items[found.value].text;
      }
    }

    /** handleSaveEdit (ItemManager.tsx:55-61). */
    method SaveEdit(id: int)
      modifies this`items, this`editingItem, this`editText
      ensures Trim(old(editText)) == [] ==>
                items == old(items) && editingItem == old(editingItem) && editText == old(editText)
      ensures Trim(old(editText)) != [] ==>
                items == WithText(old(items), id, Trim(old(editText))) && editingItem == None && editText == ""
    {
      var text := Trim(editText);
      if text != [] {
        items := WithText(items, id, text);
        editingItem := None;
        editText := "";
      }
    }

    /** handleCancelEdit (ItemManager.tsx:63-66). */
    method CancelEdit()
      modifies this`editingItem, this`editText
      ensures editingItem == None && editText == ""
    {
      editingItem := None;
      editText := "";
    }

    /** handleColorChange (ItemManager.tsx:68-70). */
    method ColorChange(id: int, color: int)
      modifies this`items
      ensures items == WithColor(old(items), id, color)
    {
      items := WithColor(items, id, color);
    }

    /** handleResetToDefault (ItemManager.tsx:72-74). */
    method ResetToDefault()
      modifies this`items
      ensures items == InitialItems
    {
      items := InitialItems;
    }
  }

  /** Appending an item with an id not yet used keeps ids unique. */
  lemma AppendKeepsUniqueIds(items: seq<ManagedItem>, item: ManagedItem)
    ensures UniqueIds(items) && !HasId(items, item.id) ==> UniqueIds(items + [item])
  {
    var r := items + [item];
    assert forall k :: 0 <= k < |items| ==> r[k] == items[k];
  }

  /** Filtering keeps ids unique. */
  lemma {:induction false} WithoutIdUnique(items: seq<ManagedItem>, id: int)
    requires UniqueIds(items)
    ensures UniqueIds(WithoutId(items, id))
  {
    if items != [] {
      var tail := items[1..];
      assert UniqueIds(tail) by {
        assert forall k :: 0 <= k < |tail| ==> tail[k] == items[k + 1];
      }
      WithoutIdUnique(tail, id);
      if items[0].id != id {
        var rest := WithoutId(tail, id);
        HeadIdNotInTail(items);
        WithoutIdMembers(tail, id);
        assert !HasId(rest, items[0].id) by {
          assert forall k :: 0 <= k < |rest| ==> rest[k] in tail;
        }
        ConsKeepsUniqueIds(items[0], rest);
      }
    }
  }

  lemma HeadIdNotInTail(items: seq<ManagedItem>)
    requires UniqueIds(items) && items != []
    ensures forall x :: x in items[1..] ==> x.id != items[0].id
  {
    forall x | x in items[1..] ensures x.id != items[0].id {
      var m :| 0 <= m < |items| - 1 && items[1..][m] == x;
      assert items[m + 1] == x;
    }
  }

  lemma ConsKeepsUniqueIds(item: ManagedItem, items: seq<ManagedItem>)
    requires UniqueIds(items) && !HasId(items, item.id)
    ensures UniqueIds([item] + items)
  {
    var r := [item] + items;
    assert forall k :: 1 <= k < |r| ==> r[k] == items[k - 1];
  }
}
