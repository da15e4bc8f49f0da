/** The item and shortcut handlers of the stack page
    (frontend/src/components/stack/StackPage.jsx). The page holds a copy of the stack's
    items, the text being typed for a new item, the item selected for a swap and the
    user's shortcuts. Each handler that changes the items sends the new list to the
    server; the model records every list sent, in order. */
module StackPage {
  import opened Wrappers
  import opened Text
  import opened UserModel
  import opened StackController

  /** An item as the page holds it. Items loaded from the server carry an id; an item
      added on the page has none until the stack is loaded again. */
  datatype PageItem = PageItem(id: Option<string>, order: int, text: string)

  /** The items numbered by their position, as the page keeps them. */
  predicate Numbered(items: seq<PageItem>)
  {
    forall k :: 0 <= k < |items| ==> items[k].order == k
  }

  /** `items.filter(item => item._id !== itemId)`. */
  function Without(items: seq<PageItem>, id: Option<string>): (r: seq<PageItem>)
    ensures |r| <= |items|
    ensures forall k :: 0 <= k < |r| ==> r[k].id != id && r[k] in items
    ensures (forall k :: 0 <= k < |items| ==> items[k].id != id) ==> r == items
  {
    if items == [] then []
    else if items[0].id == id then Without(items[1..], id)
    else [items[0]] + Without(items[1..], id)
  }

  /** Filtering a list in two parts filters each part: the kept items keep their
      relative order. */
  lemma {:induction false} WithoutDistributes(a: seq<PageItem>, b: seq<PageItem>, id: Option<string>)
    ensures Without(a + b, id) == Without(a, id) + Without(b, id)
  {
    if a != [] {
      var c := a + b;
      assert c[0] == a[0] && c[1..] == a[1..] + b;
      WithoutDistributes(a[1..], b, id);
      var rest := Without(a[1..], id);
      if a[0].id != id {
        assert Without(c, id) == [a[0]] + (rest + Without(b, id));
        assert [a[0]] + (rest + Without(b, id)) == ([a[0]] + rest) + Without(b, id);
      }
    } else {
      assert a + b == b;
    }
  }

  /** Counting in a list with one more entry in front. */
  lemma CountCons(a: PageItem, s: seq<PageItem>, x: PageItem)
    ensures multiset([a] + s)[x] == (if a == x then 1 else 0) + multiset(s)[x]
  {
    assert multiset([a] + s) == multiset{a} + multiset(s);
  }

  /** Filtering removes every item with the id and keeps every other one as often as
      it occurred. */
  lemma {:induction false} WithoutCounts(items: seq<PageItem>, id: Option<string>, x: PageItem)
    ensures multiset(Without(items, id))[x] == if x.id == id then 0 else multiset(items)[x]
  {
    if items != [] {
      var h, t := items[0], items[1..];
      assert items == [h] + t;
      WithoutCounts(t, id, x);
      CountCons(h, t, x);
      if h.id != id {
        CountCons(h, Without(t, id), x);
      }
    }
  }

  /** `items.map((item, index) => ({ ...item, order: index }))`: ids and texts kept,
      each order set to the item's position. */
  function Renumbered(items: seq<PageItem>): (r: seq<PageItem>)
    ensures |r| == |items| && Numbered(r)
    ensures forall k :: 0 <= k < |r| ==> r[k].id == items[k].id && r[k].text == items[k].text
  {
    seq(|items|, k requires 0 <= k < |items| => items[k].(order := k))
  }

  /** Numbering a list that is already numbered leaves it as it is. */
  lemma RenumberedNumbered(items: seq<PageItem>)
    requires Numbered(items)
    ensures Renumbered(items) == items
  {
    assert forall k :: 0 <= k < |items| ==> Renumbered(items)[k] == items[k];
  }

  /** An item numbered by the list's length extends a numbered list. */
  lemma NumberedAppend(items: seq<PageItem>, text: string)
    requires Numbered(items)
    ensures Numbered(items + [PageItem(None, |items|, text)])
  {
    var r := items + [PageItem(None, |items|, text)];
    forall k | 0 <= k < |r| ensures r[k].order == k {
      if k < |items| {
        assert r[k] == items[k];
      }
    }
  }

  /** `findIndex(item => item._id === itemId)`: the first position with that id, or
      none. */
  function FirstWithId(items: seq<PageItem>, id: Option<string>): (r: Option<nat>)
    ensures r.Some? ==> r.value < |items| && items[r.value].id == id
    ensures r.Some? ==> forall k :: 0 <= k < r.value ==> items[k].id != id
    ensures r.None? <==> forall k :: 0 <= k < |items| ==> items[k].id != id
  {
    if items == [] then None
    else if items[0].id == id then Some(0)
    else
      var rest := FirstWithId(items[1..], id);
      if rest.None? then None else Some(rest.value + 1)
  }

  /** The text after a shortcut is chosen while an item is being typed: the shortcut
      on a line of its own unless nothing has been typed yet. */
  function WithShortcut(typed: string, text: string): (r: string)
    ensures |r| == |typed| + |text| + (if typed == "" then 0 else 1)
    ensures typed == "" ==> r == text
    ensures typed != "" ==> r[..|typed|] == typed && r[|typed|] == '\n' && r[|typed| + 1..] == text
  {
    var r := typed + (if typed != "" then "\n" else "") + text;
    if typed != "" then
      assert r[..|typed|] == typed && r[|typed| + 1..] == text;
      r
    else r
  }

  /** `shortcuts.filter(s => s.key !== key)`. */
  function WithoutKey(shortcuts: seq<Shortcut>, key: string): (r: seq<Shortcut>)
    ensures |r| <= |shortcuts|
    ensures forall k :: 0 <= k < |r| ==> r[k].key != key && r[k] in shortcuts
    ensures forall s :: s in shortcuts && s.key != key ==> s in r
  {
    if shortcuts == [] then []
    else if shortcuts[0].key == key then WithoutKey(shortcuts[1..], key)
    else [shortcuts[0]] + WithoutKey(shortcuts[1..], key)
  }

  class Page {
    var items: seq<PageItem>
    var newItemText: string
    var addingItem: bool
    var selectedItem: Option<nat>
    var shortcuts: seq<Shortcut>
    /** Every list of items sent to the server with PATCH, oldest first. */
    var sent: seq<seq<PageItem>>

    /** The page after the stack and the shortcuts were loaded. */
    constructor (loaded: seq<PageItem>, userShortcuts: seq<Shortcut>)
      ensures items == loaded && shortcuts == userShortcuts
      ensures newItemText == "" && !addingItem && selectedItem.None? && sent == []
    {
      items := loaded;
      shortcuts := userShortcuts;
      newItemText := "";
      addingItem := false;
      selectedItem := None;
      sent := [];
    }

    /** `handleAddItem`: a blank text adds nothing. Otherwise one item with the trimmed
        text is appended with the previous item count as its order, the input is
        cleared and closed, and the list is sent. */
    method AddItem()
      modifies this
      ensures Trim(old(newItemText)) == "" ==>
                items == old(items) && newItemText == old(newItemText)
                && addingItem == old(addingItem) && sent == old(sent)
      ensures Trim(old(newItemText)) != "" ==>
                && items == old(items) + [PageItem(None, |old(items)|, Trim(old(newItemText)))]
                && newItemText == "" && !addingItem && sent == old(sent) + [items]
      ensures Numbered(old(items)) ==> Numbered(items)
      ensures selectedItem == old(selectedItem) && shortcuts == old(shortcuts)
    {
      var text := Trim(newItemText);
      if text == "" {
        return;
      }
      if Numbered(items) {
        NumberedAppend(items, text);
      }
      items := items + [PageItem(None, |items|, text)];
      newItemText := "";
      addingItem := false;
      sent := sent + [items];
    }

    /** `handleEditItem`: only the text of the first item with the id changes; an id
        no item has changes nothing and sends nothing. */
    method EditItem(itemId: Option<string>, newText: string)
      modifies this
      ensures FirstWithId(old(items), itemId).None? ==> items == old(items) && sent == old(sent)
      ensures FirstWithId(old(items), itemId).Some? ==>
                var i := FirstWithId(old(items), itemId).value;
                && items == old(items)[i := old(items)[i].(text := newText)]
                && sent == old(sent) + [items]
      ensures |items| == |old(items)|
      ensures Numbered(old(items)) ==> Numbered(items)
      ensures newItemText == old(newItemText) && addingItem == old(addingItem)
      ensures selectedItem == old(selectedItem) && shortcuts == old(shortcuts)
    {
      var found := FirstWithId(items, itemId);
      if found.Some? {
        var i := found.value;
        items := items[i := items[i].(text := newText)];
        sent := sent + [items];
      }
    }

    /** `handleDeleteItem`: when the user confirms, every item with the id is removed,
        the rest are numbered by position and the list is sent. */
    method DeleteItem(itemId: Option<string>, confirmed: bool)
      modifies this
      ensures !confirmed ==> items == old(items) && sent == old(sent)
      ensures confirmed ==> items == Renumbered(Without(old(items), itemId)) && sent == old(sent) + [items]
      ensures confirmed ==> Numbered(items) && forall k :: 0 <= k < |items| ==> items[k].id != itemId
      ensures newItemText == old(newItemText) && addingItem == old(addingItem)
      ensures selectedItem == old(selectedItem) && shortcuts == old(shortcuts)
    {
      if !confirmed {
        return;
      }
      items := Renumbered(Without(items, itemId));
      sent := sent + [items];
    }

    /** `handleSelectItem`: a click on a card passes its index; a click on the selected
        card passes null (None) to deselect. With nothing selected the argument becomes
        the selection. Otherwise the page asks the server to swap the selected position
        with the argument, null included, and clears the selection. The request is the
        result. */
    method SelectItem(index: Option<nat>) returns (swap: Option<(nat, Option<nat>)>)
      modifies this
      ensures old(selectedItem).None? ==> selectedItem == index && swap.None?
      ensures old(selectedItem).Some? ==> selectedItem.None? && swap == Some((old(selectedItem).value, index))
      ensures items == old(items) && sent == old(sent) && shortcuts == old(shortcuts)
      ensures newItemText == old(newItemText) && addingItem == old(addingItem)
    {
      if selectedItem.None? {
        selectedItem := index;
        swap := None;
      } else {
        swap := Some((selectedItem.value, index));
        selectedItem := None;
      }
    }

    /** `handleShortcutSelect`: while adding, the shortcut joins the typed text on a new
        line; otherwise it becomes the text and the input opens. */
    method ShortcutSelect(text: string)
      modifies this
      ensures old(addingItem) ==> newItemText == WithShortcut(old(newItemText), text)
      ensures !old(addingItem) ==> newItemText == text
      ensures addingItem
      ensures items == old(items) && sent == old(sent) && shortcuts == old(shortcuts)
      ensures selectedItem == old(selectedItem)
    {
      if addingItem {
        newItemText := WithShortcut(newItemText, text);
      } else {
        newItemText := text;
        addingItem := true;
      }
    }

    /** `handleAddShortcut`: the new shortcut goes last. */
    method AddShortcut(s: Shortcut)
      modifies this
      ensures shortcuts == old(shortcuts) + [s]
      ensures items == old(items) && sent == old(sent) && selectedItem == old(selectedItem)
      ensures newItemText == old(newItemText) && addingItem == old(addingItem)
    {
      shortcuts := shortcuts + [s];
    }

    /** `handleDeleteShortcut`: only when the server confirmed the deletion are the
        shortcuts with that key dropped from the page. */
    method DeleteShortcut(key: string, deleted: bool)
      modifies this
      ensures deleted ==> shortcuts == WithoutKey(old(shortcuts), key)
      ensures !deleted ==> shortcuts == old(shortcuts)
      ensures items == old(items) && sent == old(sent) && selectedItem == old(selectedItem)
      ensures newItemText == old(newItemText) && addingItem == old(addingItem)
    {
      if deleted {
        shortcuts := WithoutKey(shortcuts, key);
      }
    }
  }

  /** The index pair a swap request carries, as `updateItemOrder` receives it. */
  function SwapIndices(swap: (nat, Option<nat>)): (Option<int>, Option<int>)
  {
    (Some(swap.0 as int), if swap.1.Some? then Some(swap.1.value as int) else None)
  }

  /** Deselecting by clicking the selected card again still sends a swap, and the server
      refuses it with 400 because the second index is null; a request with two indices
      passes the check exactly when both are within the stored list. */
  lemma DeselectSwapRefused(selected: nat, clicked: Option<nat>, length: int)
    ensures var (i1, i2) := SwapIndices((selected, clicked));
            IndicesValid(i1, i2, length) <==> clicked.Some? && selected < length && clicked.value < length
  {
  }

  /** Deleting from a numbered list keeps the remaining items in their order: the
      result is the numbered list of what the filter kept, and deleting an id no item
      has changes nothing. */
  lemma DeleteUnknownIdKeepsList(items: seq<PageItem>, id: Option<string>)
    requires Numbered(items)
    requires forall k :: 0 <= k < |items| ==> items[k].id != id
    ensures Renumbered(Without(items, id)) == items
  {
    RenumberedNumbered(items);
  }

  /** Items added on the page have no id, so one edit or delete by the missing id
      reaches them: an edit changes only the first of them, a delete removes them all. */
  lemma NewItemsShareMissingId(a: PageItem, b: PageItem)
    requires a.id.None? && b.id.None?
    ensures FirstWithId([a, b], None) == Some(0)
    ensures Without([a, b], None) == []
  {
    assert [a, b][1..] == [b];
  }
}
