/** The stack handlers of backend/src/controllers/stack.controller.js: the order sort of
    `getStack`, the item normalisation of `createStack` and `updateStack`, the two-item
    order swap, the counters of `saveSession` and the pagination of `getSessions`. */
module StackController {
  import opened Wrappers
  import opened Text
  import opened UserModel
  import opened StackModel

  /** The key both sorts compare: an item without an order counts as 0 (`a.order ?? 0`). */
  function OrderKey(it: Item): int
  {
    it.order.GetOr(0)
  }

  predicate SortedByOrder(s: seq<Item>)
  {
    forall i, j :: 0 <= i < j < |s| ==> OrderKey(s[i]) <= OrderKey(s[j])
  }

  function Texts(s: seq<Item>): (r: seq<string>)
    ensures |r| == |s| && forall i :: 0 <= i < |s| ==> r[i] == s[i].text
  {
    seq(|s|, i requires 0 <= i < |s| => s[i].text)
  }

  /** One step of a stable insertion sort: `x` goes after every entry whose key is not
      above its own. */
  function InsertByOrder(x: Item, s: seq<Item>): (r: seq<Item>)
    ensures |r| == |s| + 1
  {
    if s == [] then [x]
    else if OrderKey(x) < OrderKey(s[0]) then [x] + s
    else [s[0]] + InsertByOrder(x, s[1..])
  }

  /** Insertion adds exactly the one entry. */
  lemma {:induction false} InsertPermutes(x: Item, s: seq<Item>)
    ensures multiset(InsertByOrder(x, s)) == multiset(s) + multiset{x}
  {
    if s != [] && OrderKey(x) >= OrderKey(s[0]) {
      InsertPermutes(x, s[1..]);
      assert s == [s[0]] + s[1..];
    }
  }

  /** An entry whose key is not below any other goes to the end. */
  lemma {:induction false} InsertAfterAll(x: Item, s: seq<Item>)
    requires forall i :: 0 <= i < |s| ==> OrderKey(s[i]) <= OrderKey(x)
    ensures InsertByOrder(x, s) == s + [x]
  {
    if s != [] {
      InsertAfterAll(x, s[1..]);
      assert s == [s[0]] + s[1..];
    }
  }

  /** Inserting into a sorted list keeps it sorted. */
  lemma {:induction false} InsertKeepsSorted(x: Item, s: seq<Item>)
    requires SortedByOrder(s)
    ensures SortedByOrder(InsertByOrder(x, s))
  {
    if s != [] && OrderKey(x) >= OrderKey(s[0]) {
      var rest := InsertByOrder(x, s[1..]);
      InsertKeepsSorted(x, s[1..]);
      InsertPermutes(x, s[1..]);
      forall k | 0 <= k < |rest| ensures OrderKey(s[0]) <= OrderKey(rest[k]) {
        assert rest[k] in multiset(rest);
        if rest[k] != x {
          assert rest[k] in multiset(s[1..]);
          var m :| 0 <= m < |s[1..]| && s[1..][m] == rest[k];
          assert s[m + 1] == rest[k];
        }
      }
    }
  }

  /** `Array.prototype.sort` by order, which is stable; here as insertion sort. */
  function SortByOrder(s: seq<Item>): (r: seq<Item>)
    ensures |r| == |s|
  {
    if s == [] then [] else InsertByOrder(s[|s| - 1], SortByOrder(s[..|s| - 1]))
  }

  /** The sort's result is sorted by order. */
  lemma {:induction false} SortedSort(s: seq<Item>)
    ensures SortedByOrder(SortByOrder(s))
  {
    if s != [] {
      SortedSort(s[..|s| - 1]);
      InsertKeepsSorted(s[|s| - 1], SortByOrder(s[..|s| - 1]));
    }
  }

  /** The sort holds the same entries. */
  lemma {:induction false} SortPermutes(s: seq<Item>)
    ensures multiset(SortByOrder(s)) == multiset(s)
  {
    if s != [] {
      var init := s[..|s| - 1];
      SortPermutes(init);
      InsertPermutes(s[|s| - 1], SortByOrder(init));
      assert s == init + [s[|s| - 1]];
    }
  }

  /** The sort leaves an already sorted list as it is. */
  lemma {:induction false} SortOfSorted(s: seq<Item>)
    requires SortedByOrder(s)
    ensures SortByOrder(s) == s
  {
    if s != [] {
      var init, last := s[..|s| - 1], s[|s| - 1];
      assert SortedByOrder(init) by {
        forall i, j | 0 <= i < j < |init| ensures OrderKey(init[i]) <= OrderKey(init[j]) {
          assert init[i] == s[i] && init[j] == s[j];
        }
      }
      SortOfSorted(init);
      forall i | 0 <= i < |init| ensures OrderKey(init[i]) <= OrderKey(last) {
        assert init[i] == s[i];
      }
      InsertAfterAll(last, init);
      assert s == init + [last];
    }
  }

  /** `getStack`: no stack of the caller gives 404 (None); otherwise the stack comes back
      with the same entries sorted by order, every other field as stored. */
  function GetStack(found: Option<Stack>): (r: Option<Stack>)
    ensures r.None? <==> found.None?
    ensures r.Some? ==> r.value == found.value.(items := r.value.items)
    ensures r.Some? ==> SortedByOrder(r.value.items)
    ensures r.Some? ==> multiset(r.value.items) == multiset(found.value.items)
  {
    if found.None? then None
    else
      SortedSort(found.value.items);
      SortPermutes(found.value.items);
      Some(found.value.(items := SortByOrder(found.value.items)))
  }

  /** The text `createStack` and `updateStack` keep for one submitted entry
      (`item && item.text ? item.text.trim() : ''`); a missing entry or text is None. */
  function NormalisedText(text: Option<string>): string
  {
    if text.Some? then Trim(text.value) else ""
  }

  /** The submitted entries renumbered by position with trimmed texts. */
  function NormaliseItems(texts: seq<Option<string>>): (r: seq<Item>)
    ensures |r| == |texts|
    ensures forall i :: 0 <= i < |r| ==> r[i] == Item(Some(i), NormalisedText(texts[i]))
  {
    seq(|texts|, i requires 0 <= i < |texts| => Item(Some(i), NormalisedText(texts[i])))
  }

  /** Numbering entries by position sorts them: the sort then keeps the submitted order. */
  lemma NormalisedIsSorted(texts: seq<Option<string>>)
    ensures SortedByOrder(NormaliseItems(texts))
    ensures SortByOrder(NormaliseItems(texts)) == NormaliseItems(texts)
  {
    var r := NormaliseItems(texts);
    forall i, j | 0 <= i < j < |r| ensures OrderKey(r[i]) <= OrderKey(r[j]) {
      assert r[i].order == Some(i) && r[j].order == Some(j);
    }
    SortOfSorted(r);
  }

  /** The `items` field of a request body: an array of entries, or anything else. */
  datatype ItemsInput = NotAnArray | ItemArray(texts: seq<Option<string>>)

  /** The body of `createStack`. An absent field is None. */
  datatype CreateBody = CreateBody(
    name: Option<string>,
    note: Option<string>,
    defaultDuration: Option<int>,
    preferences: Option<PreferencesDraft>,
    items: ItemsInput)

  /** The values `createStack` passes to the constructor: a falsy name becomes
      'New Stack', a falsy note the empty note, a falsy duration 60, absent preferences
      one vibration and 'ding', and the items are renumbered from 0 with trimmed texts
      (none unless an array). */
  function CreatedName(b: CreateBody): string
  {
    if b.name.Some? && b.name.value != "" then Trim(b.name.value) else "New Stack"
  }

  function CreatedNote(b: CreateBody): string
  {
    if b.note.Some? && b.note.value != "" then Trim(b.note.value) else ""
  }

  function CreatedDuration(b: CreateBody): int
  {
    if b.defaultDuration.Some? && b.defaultDuration.value != 0 then b.defaultDuration.value else DefaultDuration
  }

  function CreatedPreferences(b: CreateBody): PreferencesDraft
  {
    if b.preferences.Some? then b.preferences.value else PreferencesDraft(Some(DefaultVibrations), Some(DefaultSound))
  }

  function CreatedItems(b: CreateBody): seq<Item>
  {
    if b.items.ItemArray? then NormaliseItems(b.items.texts) else []
  }

  /** The document `createStack` builds, as the schema constructor turns those values
      into a stack (`new Stack({...})`). */
  function CreatedStack(owner: nat, b: CreateBody): Stack
  {
    NewStack(owner, CreatedName(b), Some(CreatedNote(b)), Some(CreatedDuration(b)),
             Some(CreatedPreferences(b)), CreatedItems(b))
  }

  /** What the document holds: the setters find every value already trimmed, so the
      fields are exactly the values above, with the schema's preference defaults and
      a fresh stack's counters. */
  lemma CreatedStackFields(owner: nat, b: CreateBody)
    ensures CreatedStack(owner, b)
            == Stack(owner, CreatedName(b), Some(CreatedNote(b)), CreatedDuration(b),
                     Preferences(CreatedPreferences(b).vibrations.GetOr(DefaultVibrations),
                                 CreatedPreferences(b).sound.GetOr(DefaultSound)),
                     CreatedItems(b), false, None, 0)
  {
    CreatedNameTrimmed(b);
    CreatedNoteTrimmed(b);
    CreatedItemsTrimmed(b);
    NewStackOfTrimmed(owner, CreatedName(b), CreatedNote(b), CreatedDuration(b), CreatedPreferences(b), CreatedItems(b));
  }

  /** The name `createStack` hands to the schema is already trimmed. */
  lemma CreatedNameTrimmed(b: CreateBody)
    ensures Trim(CreatedName(b)) == CreatedName(b)
  {
    if b.name.Some? && b.name.value != "" {
      TrimIdempotent(b.name.value);
    } else {
      DefaultNameTrimmed();
    }
  }

  /** So is the note. */
  lemma CreatedNoteTrimmed(b: CreateBody)
    ensures Trim(CreatedNote(b)) == CreatedNote(b)
  {
    if b.note.Some? && b.note.value != "" {
      TrimIdempotent(b.note.value);
    }
  }

  /** And so are the item texts. */
  lemma CreatedItemsTrimmed(b: CreateBody)
    ensures forall i :: 0 <= i < |CreatedItems(b)| ==> Trim(CreatedItems(b)[i].text) == CreatedItems(b)[i].text
  {
    if b.items.ItemArray? {
      var texts := b.items.texts;
      forall i | 0 <= i < |texts|
        ensures Trim(NormaliseItems(texts)[i].text) == NormaliseItems(texts)[i].text
      {
        if texts[i].Some? {
          TrimIdempotent(texts[i].value);
        }
      }
    }
  }

  /** The default name has no surrounding white space. */
  lemma DefaultNameTrimmed()
    ensures Trim("New Stack") == "New Stack"
  {
    var n := "New Stack";
    assert n[0] == 'N' && n[|n| - 1] == 'k';
    TrimOfUnpadded(n);
  }

  datatype CreateResponse = StackCreated(stack: Stack) | CreateInvalid
  {
    function Status(): int
    {
      if StackCreated? then 201 else 400
    }
  }

  /** `createStack`: the built document is stored when the schema accepts it (201),
      otherwise the validation error gives 400. */
  function CreateStack(owner: nat, b: CreateBody): (r: CreateResponse)
    ensures r.StackCreated? <==> SchemaValid(CreatedStack(owner, b))
    ensures r.StackCreated? ==> r.stack == CreatedStack(owner, b)
  {
    var s := CreatedStack(owner, b);
    if SchemaValid(s) then StackCreated(s) else CreateInvalid
  }

  /** A created stack is read back by `getStack` with its items in the submitted order. */
  lemma CreatedItemsComeBackInOrder(owner: nat, b: CreateBody)
    requires CreateStack(owner, b).StackCreated?
    ensures GetStack(Some(CreateStack(owner, b).stack)) == Some(CreateStack(owner, b).stack)
  {
    CreatedStackFields(owner, b);
    if b.items.ItemArray? {
      NormalisedIsSorted(b.items.texts);
    }
  }

  /** The body of `updateStack` (`$set: updates`); `user` is dropped before the update. */
  datatype UpdateBody = UpdateBody(
    name: Option<string>,
    note: Option<string>,
    defaultDuration: Option<int>,
    preferences: Option<Preferences>,
    items: Option<seq<Option<string>>>,
    isArchived: Option<bool>,
    lastPlayed: Option<Option<Timestamp>>,
    playCount: Option<int>,
    user: Option<nat>)

  /** The update validators: each path that is set must pass its own rule, after the
      trimming setters; paths that are not set are not checked. */
  predicate UpdateValid(u: UpdateBody)
  {
    && (u.name.Some? ==> NameValid(Trim(u.name.value)))
    && (u.note.Some? ==> NoteValid(Some(Trim(u.note.value))))
    && (u.defaultDuration.Some? ==> DurationValid(u.defaultDuration.value))
    && (u.preferences.Some? ==> PreferencesValid(u.preferences.value))
    && (u.items.Some? ==> ItemsValid(NormaliseItems(u.items.value)))
  }

  /** The document after the update: every field present in the body replaced (name,
      note and item texts trimmed, items renumbered), the owner and every absent field
      kept. The counters are schema paths without validators, so a body that carries
      them overwrites them too. */
  function ApplyUpdate(s: Stack, u: UpdateBody): (r: Stack)
    ensures r.owner == s.owner
    ensures r.lastPlayed == u.lastPlayed.GetOr(s.lastPlayed) && r.playCount == u.playCount.GetOr(s.playCount)
    ensures r.name == (if u.name.Some? then Trim(u.name.value) else s.name)
    ensures r.note == (if u.note.Some? then Some(Trim(u.note.value)) else s.note)
    ensures r.defaultDuration == u.defaultDuration.GetOr(s.defaultDuration)
    ensures r.preferences == u.preferences.GetOr(s.preferences)
    ensures r.items == (if u.items.Some? then NormaliseItems(u.items.value) else s.items)
    ensures r.isArchived == u.isArchived.GetOr(s.isArchived)
  {
    Stack(s.owner,
          if u.name.Some? then Trim(u.name.value) else s.name,
          if u.note.Some? then Some(Trim(u.note.value)) else s.note,
          u.defaultDuration.GetOr(s.defaultDuration),
          u.preferences.GetOr(s.preferences),
          if u.items.Some? then NormaliseItems(u.items.value) else s.items,
          u.isArchived.GetOr(s.isArchived),
          u.lastPlayed.GetOr(s.lastPlayed),
          u.playCount.GetOr(s.playCount))
  }

  /** An update that passes the validators keeps a valid stack valid: each field is
      either kept or replaced by a value its own rule accepted. */
  lemma ApplyUpdateKeepsValid(s: Stack, u: UpdateBody)
    requires UpdateValid(u) && SchemaValid(s)
    ensures SchemaValid(ApplyUpdate(s, u))
  {
    var r := ApplyUpdate(s, u);
    assert NameValid(r.name);
    assert NoteValid(r.note);
    assert DurationValid(r.defaultDuration);
    assert PreferencesValid(r.preferences);
    assert ItemsValid(r.items);
  }

  datatype UpdateResponse = UpdateInvalid | UpdateNotFound | StackUpdated(stack: Stack)
  {
    function Status(): int
    {
      match this
      case UpdateInvalid => 400
      case UpdateNotFound => 404
      case StackUpdated(_) => 200
    }
  }

  /** `updateStack`: the update validators run before the stack is looked up, so an
      invalid body gives 400 even for a stack that is not the caller's; then no stack
      gives 404, and otherwise the updated document is returned. An update that passes
      the validators keeps a valid stack valid. */
  function UpdateStack(found: Option<Stack>, u: UpdateBody): (r: UpdateResponse)
    ensures r == UpdateInvalid <==> !UpdateValid(u)
    ensures r == UpdateNotFound <==> UpdateValid(u) && found.None?
    ensures r.StackUpdated? ==> r.stack == ApplyUpdate(found.value, u) && r.stack.owner == found.value.owner
    ensures r.StackUpdated? && SchemaValid(found.value) ==> SchemaValid(r.stack)
  {
    if !UpdateValid(u) then UpdateInvalid
    else if found.None? then UpdateNotFound
    else
      if SchemaValid(found.value) then
        ApplyUpdateKeepsValid(found.value, u);
        StackUpdated(ApplyUpdate(found.value, u))
      else StackUpdated(ApplyUpdate(found.value, u))
  }

  /** The order value an entry takes part in the swap with: its own, or its position. */
  function EffectiveOrders(s: seq<Item>): (r: seq<int>)
    ensures |r| == |s|
    ensures forall k :: 0 <= k < |s| ==> r[k] == s[k].order.GetOr(k)
  {
    seq(|s|, k requires 0 <= k < |s| => s[k].order.GetOr(k))
  }

  /** The swap of `updateItemOrder` on stored positions `i` and `j`: the first entry takes
      the second's order (or `j`), the second the first's old order (or `i`). */
  function SwapOrders(s: seq<Item>, i: nat, j: nat): (r: seq<Item>)
    requires i < |s| && j < |s|
    ensures |r| == |s| && Texts(r) == Texts(s)
    ensures forall k :: 0 <= k < |s| && k != i && k != j ==> r[k] == s[k]
    ensures r[i].order == Some(EffectiveOrders(s)[j]) && r[j].order == Some(EffectiveOrders(s)[i])
  {
    var temp := s[i].order.GetOr(i);
    var s1 := s[i := s[i].(order := Some(s[j].order.GetOr(j)))];
    s1[j := s1[j].(order := Some(temp))]
  }

  /** The swap exchanges two order values and keeps every other: the multiset of
      effective orders is preserved, and swapping an entry with itself changes nothing
      when the entry has an order. */
  lemma SwapOrdersPermutes(s: seq<Item>, i: nat, j: nat)
    requires i < |s| && j < |s|
    ensures multiset(EffectiveOrders(SwapOrders(s, i, j))) == multiset(EffectiveOrders(s))
    ensures i == j && s[i].order.Some? ==> SwapOrders(s, i, j) == s
  {
    var e := EffectiveOrders(s);
    var r := SwapOrders(s, i, j);
    assert EffectiveOrders(r) == e[i := e[j]][j := e[i]];
    if i == j && s[i].order.Some? {
      assert r[i] == s[i];
    }
  }

  /** The index check of `updateItemOrder`: both present, neither negative nor past the end. */
  predicate IndicesValid(index1: Option<int>, index2: Option<int>, length: int)
  {
    && index1.Some? && index2.Some?
    && 0 <= index1.value < length && 0 <= index2.value < length
  }

  datatype OrderResponse = OrderStackNotFound | InvalidIndices | Reordered(items: seq<Item>) | ReorderFailed
  {
    function Status(): int
    {
      match this
      case OrderStackNotFound => 404
      case InvalidIndices => 400
      case Reordered(_) => 200
      case ReorderFailed => 500
    }
  }

  /** `updateItemOrder` on the item array of the loaded document. A missing stack gives
      404 and bad indices 400, with nothing changed and nothing stored. Otherwise the two
      entries' orders are swapped in place and the stack saved; a save the validators
      refuse gives 500 and stores nothing. `stored` is the item list the store keeps:
      the swapped list, unsorted, because the save comes first. Only afterwards is the
      loaded document's array sorted in place by order and sent back, so the next
      request reads the unsorted list again. */
  method UpdateItemOrder(found: Option<array<Item>>, index1: Option<int>, index2: Option<int>)
    returns (response: OrderResponse, stored: Option<seq<Item>>)
    modifies if found.Some? then {found.value} else {}
    ensures found.None? ==> response == OrderStackNotFound && stored.None?
    ensures found.Some? && !IndicesValid(index1, index2, found.value.Length) ==>
              response == InvalidIndices && stored.None? && unchanged(found.value)
    ensures found.Some? && IndicesValid(index1, index2, found.value.Length) ==>
              var swapped := SwapOrders(old(found.value[..]), index1.value, index2.value);
              && (ItemsValid(swapped) ==>
                    && stored == Some(swapped)
                    && found.value[..] == SortByOrder(swapped)
                    && response == Reordered(SortByOrder(swapped)))
              && (!ItemsValid(swapped) ==>
                    stored.None? && found.value[..] == swapped && response == ReorderFailed)
  {
    if found.None? {
      return OrderStackNotFound, None;
    }
    var a := found.value;
    if index1.None? || index2.None? || index1.value < 0 || index2.value < 0
       || index1.value >= a.Length || index2.value >= a.Length {
      return InvalidIndices, None;
    }
    var i, j := index1.value, index2.value;
    SwapInPlace(a, i, j);
    if !ItemsValid(a[..]) {
      return ReorderFailed, None;
    }
    stored := Some(a[..]);
    var sorted := SortByOrder(a[..]);
    CopyInto(a, sorted);
    response := Reordered(a[..]);
  }

  /** The swap statements of `updateItemOrder`. With `i == j` both names denote the
      same entry, so the second assignment reads the first one's result. */
  method SwapInPlace(a: array<Item>, i: nat, j: nat)
    requires i < a.Length && j < a.Length
    modifies a
    ensures a[..] == SwapOrders(old(a[..]), i, j)
  {
    var tempOrder := a[i].order.GetOr(i);
    a[i] := a[i].(order := Some(a[j].order.GetOr(j)));
    a[j] := a[j].(order := Some(tempOrder));
  }

  /** The in-place sort's effect on the array: it now holds `s`. */
  method CopyInto(a: array<Item>, s: seq<Item>)
    requires |s| == a.Length
    modifies a
    ensures a[..] == s
  {
    forall k | 0 <= k < a.Length {
      a[k] := s[k];
    }
  }

  /** The entries numbered by their position. */
  function Renumber(s: seq<Item>): (r: seq<Item>)
    ensures |r| == |s| && Texts(r) == Texts(s)
    ensures forall k :: 0 <= k < |s| ==> r[k].order == Some(k)
    ensures SortedByOrder(r)
  {
    seq(|s|, k requires 0 <= k < |s| => s[k].(order := Some(k)))
  }

  /** The list `getStack` shows after swapping the orders of stored positions 0 and 1,
      when a previous swap has already made the stored and the shown order differ. The
      page asked to exchange the first two shown entries ("c" and "b"), expecting
      "b", "c", "a"; the stored swap moves "a" instead. */
  lemma StoredPositionsAreNotViewPositions()
    ensures var stored := SwapOrders([Item(Some(0), "a"), Item(Some(1), "b"), Item(Some(2), "c")], 0, 2);
            && Texts(SortByOrder(stored)) == ["c", "b", "a"]
            && Texts(SortByOrder(SwapOrders(stored, 0, 1))) == ["c", "a", "b"]
  {
    var a, b, c := Item(Some(0), "a"), Item(Some(1), "b"), Item(Some(2), "c");
    var a2, c0 := Item(Some(2), "a"), Item(Some(0), "c");
    var stored := SwapOrders([a, b, c], 0, 2);
    assert stored == [a2, b, c0];
    ShownAfterFirstSwap(a2, b, c0);
    var a1, b2 := Item(Some(1), "a"), Item(Some(2), "b");
    assert SwapOrders(stored, 0, 1) == [a1, b2, c0];
    ShownAfterSecondSwap(a1, b2, c0);
  }

  lemma ShownAfterFirstSwap(a2: Item, b: Item, c0: Item)
    requires a2 == Item(Some(2), "a") && b == Item(Some(1), "b") && c0 == Item(Some(0), "c")
    ensures Texts(SortByOrder([a2, b, c0])) == ["c", "b", "a"]
  {
    assert [a2, b][..1] == [a2];
    assert SortByOrder([a2, b]) == [b, a2];
    SortOfThree(a2, b, c0, [b, a2], [c0, b, a2]);
    TextsOfThree(c0, b, a2);
  }

  lemma ShownAfterSecondSwap(a1: Item, b2: Item, c0: Item)
    requires a1 == Item(Some(1), "a") && b2 == Item(Some(2), "b") && c0 == Item(Some(0), "c")
    ensures Texts(SortByOrder([a1, b2, c0])) == ["c", "a", "b"]
  {
    assert [a1, b2][..1] == [a1];
    assert SortByOrder([a1]) == [a1];
    assert [a1][1..] == [];
    assert InsertByOrder(b2, [a1]) == [a1, b2];
    SortOfThree(a1, b2, c0, [a1, b2], [c0, a1, b2]);
    TextsOfThree(c0, a1, b2);
  }

  /** The sort of a three-entry list, from the sort of its first two entries and the
      insertion of the third. */
  lemma SortOfThree(x: Item, y: Item, z: Item, firstTwo: seq<Item>, all: seq<Item>)
    requires SortByOrder([x, y]) == firstTwo && InsertByOrder(z, firstTwo) == all
    ensures SortByOrder([x, y, z]) == all
  {
    assert [x, y, z][..2] == [x, y];
  }

  lemma TextsOfThree(x: Item, y: Item, z: Item)
    ensures Texts([x, y, z]) == [x.text, y.text, z.text]
  {
  }

  /** The swap addressed by positions in the list `getStack` shows: exchange the two
      shown entries and number the list by position. */
  function SwapInView(stored: seq<Item>, p: nat, q: nat): (r: seq<Item>)
    requires p < |stored| && q < |stored|
    ensures |r| == |stored|
    ensures forall k :: 0 <= k < |r| ==> r[k].order == Some(k)
  {
    var v := SortByOrder(stored);
    Renumber(v[p := v[q]][q := v[p]])
  }

  /** After the corrected swap, the shown list is the previous shown list with the two
      chosen positions exchanged and every other entry in place. */
  lemma SwapInViewExchangesShownEntries(stored: seq<Item>, p: nat, q: nat)
    requires p < |stored| && q < |stored|
    ensures var v := Texts(SortByOrder(stored));
            Texts(SortByOrder(SwapInView(stored, p, q))) == v[p := v[q]][q := v[p]]
  {
    var v := SortByOrder(stored);
    var w := v[p := v[q]][q := v[p]];
    var r := SwapInView(stored, p, q);
    assert r == Renumber(w);
    SortOfSorted(r);
    TextsOfExchange(v, p, q);
  }

  /** Exchanging two entries exchanges their texts. */
  lemma TextsOfExchange(v: seq<Item>, p: nat, q: nat)
    requires p < |v| && q < |v|
    ensures var t := Texts(v); Texts(v[p := v[q]][q := v[p]]) == t[p := t[q]][q := t[p]]
  {
    var t := Texts(v);
    var w := v[p := v[q]][q := v[p]];
    var expected := t[p := t[q]][q := t[p]];
    forall k | 0 <= k < |w| ensures Texts(w)[k] == expected[k] {
      assert Texts(w)[k] == w[k].text;
    }
  }

  /** The stack after a played session: one more play, last played now. */
  function Played(s: Stack, now: Timestamp): (r: Stack)
    ensures r.playCount == s.playCount + 1 && r.lastPlayed == Some(now)
    ensures r.items == s.items && r.name == s.name && r.owner == s.owner
    ensures SchemaValid(r) <==> SchemaValid(s)
  {
    s.(playCount := s.playCount + 1, lastPlayed := Some(now))
  }

  datatype SessionResponse = SessionStackNotFound | SessionSaved | SessionFailed
  {
    function Status(): int
    {
      match this
      case SessionStackNotFound => 404
      case SessionSaved => 201
      case SessionFailed => 500
    }
  }

  /** `saveSession`. A stack that is not the caller's gives 404 and nothing is touched.
      Otherwise the stack's play count and last-played time are saved first (a refused
      save gives 500 and nothing else happens); then the user's counters grow by one
      session, the posted duration and the number of completed entries, the streak is
      updated and the user saved. `stored` is the stack as stored afterwards. */
  method SaveSession(found: Option<Stack>, user: User, completedItems: nat, totalDuration: int,
                     now: Timestamp, hash: string -> string)
    returns (response: SessionResponse, stored: Option<Stack>)
    requires !user.isNew && !user.tokenModified
    modifies user
    ensures found.None? ==> response == SessionStackNotFound && stored.None? && unchanged(user)
    ensures found.Some? && !SchemaValid(found.value) ==>
              response == SessionFailed && stored == found && unchanged(user)
    ensures found.Some? && SchemaValid(found.value) ==>
              && stored == Some(Played(found.value, now))
              && user.StatsOf() == Stats(old(user.totalSessions) + 1, old(user.totalTime) + totalDuration,
                                         old(user.totalItems) + completedItems)
              && user.StreakOf() == NextStreak(old(user.StreakOf()), now)
              && user.hashedToken == old(user.hashedToken) && user.shortcuts == old(user.shortcuts)
              && (response == SessionSaved <==> user.SchemaValid())
              && (response == SessionFailed <==> !user.SchemaValid())
  {
    if found.None? {
      return SessionStackNotFound, None;
    }
    var played := Played(found.value, now);
    if !SchemaValid(played) {
      return SessionFailed, found;
    }
    stored := Some(played);
    user.totalSessions := user.totalSessions + 1;
    user.totalTime := user.totalTime + totalDuration;
    user.totalItems := user.totalItems + completedItems;
    ghost var stats := user.StatsOf();
    user.UpdateStreak(now);
    assert user.StatsOf() == stats;
    ghost var valid := user.SchemaValid();
    var outcome := user.Save(hash, false);
    assert user.hashedToken == old(user.hashedToken);
    assert user.SchemaValid() == valid;
    assert outcome == Saved <==> valid;
    response := if outcome == Saved then SessionSaved else SessionFailed;
  }

  /** `Math.ceil(total / limit)` for a non-zero limit. */
  function CeilDiv(total: nat, limit: int): int
    requires limit != 0
  {
    if limit > 0 then (total + limit - 1) / limit else -(total / -limit)
  }

  /** The `pagination` object of `getSessions` and the number of records skipped.
      `pages` is None where JavaScript divides by zero (`limit=0`). */
  datatype Pagination = Pagination(total: nat, page: int, limit: int, pages: Option<int>, skip: int)

  /** `getSessions` with limit 20 and page 1 when absent: skip `(page - 1) * limit`
      records, and count `ceil(total / limit)` pages. */
  function Paginate(total: nat, limit: Option<int>, page: Option<int>): (p: Pagination)
    ensures p.limit == limit.GetOr(20) && p.page == page.GetOr(1) && p.total == total
    ensures p.skip == (p.page - 1) * p.limit
    ensures p.pages.None? <==> p.limit == 0
  {
    var l := limit.GetOr(20);
    var pg := page.GetOr(1);
    Pagination(total, pg, l, if l == 0 then None else Some(CeilDiv(total, l)), (pg - 1) * l)
  }

  /** A product of two positive numbers is positive. */
  lemma PositiveProduct(a: int, b: int)
    requires a > 0 && b > 0
    ensures a * b > 0
  {
  }

  /** Negating one factor negates the product. */
  lemma NegatedFactor(a: int, b: int)
    ensures (-a) * b == -(a * b) && a * (-b) == -(a * b) && (-a) * (-b) == a * b
  {
  }

  /** The skip is negative exactly when the page lies before the first with a positive
      limit, or after it with a negative one. */
  lemma SkipSign(page: int, limit: int)
    ensures (page - 1) * limit < 0 <==> (limit > 0 && page < 1) || (limit < 0 && page > 1)
  {
    var k := page - 1;
    NegatedFactor(k, limit);
    if k > 0 && limit > 0 {
      PositiveProduct(k, limit);
    } else if k < 0 && limit < 0 {
      PositiveProduct(-k, -limit);
    } else if k > 0 && limit < 0 {
      PositiveProduct(k, -limit);
    } else if k < 0 && limit > 0 {
      PositiveProduct(-k, limit);
    } else {
      assert k == 0 || limit == 0;
    }
  }

  datatype SessionsResponse = SessionsFailed | SessionsPage(pagination: Pagination)
  {
    function Status(): int
    {
      match this
      case SessionsFailed => 500
      case SessionsPage(_) => 200
    }
  }

  /** `getSessions`: the store refuses a negative skip, and the handler answers that
      with 500; otherwise the page and its `pagination` object. */
  function GetSessions(total: nat, limit: Option<int>, page: Option<int>): (r: SessionsResponse)
    ensures var l, pg := limit.GetOr(20), page.GetOr(1);
            r.SessionsFailed? <==> (l > 0 && pg < 1) || (l < 0 && pg > 1)
    ensures r.SessionsPage? ==> r.pagination == Paginate(total, limit, page) && r.pagination.skip >= 0
  {
    var p := Paginate(total, limit, page);
    SkipSign(p.page, p.limit);
    if p.skip < 0 then SessionsFailed else SessionsPage(p)
  }

  /** With a positive limit the pages cover the records exactly: the last page is not
      empty and there are no pages when there are no records. */
  lemma PagesCoverTotal(total: nat, limit: int)
    requires limit > 0
    ensures var pages := CeilDiv(total, limit);
            && 0 <= pages
            && (pages == 0 <==> total == 0)
            && total <= pages * limit
            && (total > 0 ==> (pages - 1) * limit < total)
  {
    var pages := CeilDiv(total, limit);
    var q, r := (total + limit - 1) / limit, (total + limit - 1) % limit;
    assert total + limit - 1 == q * limit + r;
    assert pages == q;
    if total == 0 {
      assert q == 0;
    } else {
      assert q >= 1;
    }
  }

  /** A page (from 1) holds records exactly when it is at most the page count. */
  lemma PageHasRecords(total: nat, limit: int, page: int)
    requires limit > 0 && page >= 1
    ensures (page - 1) * limit < total <==> page <= CeilDiv(total, limit)
  {
    PagesCoverTotal(total, limit);
    var pages := CeilDiv(total, limit);
    if page <= pages {
      assert (page - 1) * limit <= (pages - 1) * limit;
    } else {
      assert (page - 1) * limit >= pages * limit;
    }
  }
}
