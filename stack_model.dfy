/** The stack document of backend/src/models/Stack.js: its fields, the defaults the
    schema fills in, the trimming setters and the limits its validators enforce. */
module StackModel {
  import opened Wrappers
  import opened Text
  import opened UserModel

  const MaxNameLength: int := 100
  const MaxNoteLength: int := 500
  const MaxItemTextLength: int := 500
  const MinDuration: int := 5
  const MaxDuration: int := 3600
  const DefaultDuration: int := 60
  const MaxVibrations: int := 5
  const DefaultVibrations: int := 1
  const DefaultSound: string := "ding"

  /** The sounds the `sound` enum admits. */
  predicate IsSound(s: string)
  {
    s == "none" || s == "ding" || s == "bell" || s == "chime"
  }

  datatype Preferences = Preferences(vibrations: int, sound: string)

  /** One list entry. `order` is required by the schema, but documents reaching the
      controllers may lack it, so it is optional here. */
  datatype Item = Item(order: Option<int>, text: string)

  datatype Stack = Stack(
    owner: nat,
    name: string,
    note: Option<string>,
    defaultDuration: int,
    preferences: Preferences,
    items: seq<Item>,
    isArchived: bool,
    lastPlayed: Option<Timestamp>,
    playCount: int)

  /** The preference fields as supplied, each possibly absent. */
  datatype PreferencesDraft = PreferencesDraft(vibrations: Option<int>, sound: Option<string>)

  predicate ItemValid(it: Item)
  {
    it.order.Some? && it.text != "" && |it.text| <= MaxItemTextLength
  }

  /** The rules of the individual paths, as the update validators check them one by one. */
  predicate NameValid(name: string)
  {
    name != "" && |name| <= MaxNameLength
  }

  predicate NoteValid(note: Option<string>)
  {
    note.Some? ==> |note.value| <= MaxNoteLength
  }

  predicate DurationValid(d: int)
  {
    MinDuration <= d <= MaxDuration
  }

  predicate PreferencesValid(p: Preferences)
  {
    0 <= p.vibrations <= MaxVibrations && IsSound(p.sound)
  }

  predicate ItemsValid(items: seq<Item>)
  {
    forall i :: 0 <= i < |items| ==> ItemValid(items[i])
  }

  /** What the schema validators accept when the whole document is saved. */
  predicate SchemaValid(s: Stack)
  {
    && NameValid(s.name)
    && NoteValid(s.note)
    && DurationValid(s.defaultDuration)
    && PreferencesValid(s.preferences)
    && ItemsValid(s.items)
  }

  /** `new Stack({...})`: the trimming setters on name, note and item texts, and the
      schema defaults for every absent field (duration 60, one vibration, the 'ding'
      sound, not archived, never played). */
  function NewStack(owner: nat, name: string, note: Option<string>, defaultDuration: Option<int>,
                    preferences: Option<PreferencesDraft>, items: seq<Item>): (s: Stack)
    ensures s.owner == owner && s.name == Trim(name)
    ensures s.note.Some? <==> note.Some?
    ensures note.Some? ==> s.note.value == Trim(note.value)
    ensures s.defaultDuration == defaultDuration.GetOr(DefaultDuration)
    ensures preferences.None? ==> s.preferences == Preferences(DefaultVibrations, DefaultSound)
    ensures preferences.Some? ==>
              s.preferences == Preferences(preferences.value.vibrations.GetOr(DefaultVibrations),
                                           preferences.value.sound.GetOr(DefaultSound))
    ensures |s.items| == |items|
    ensures forall i :: 0 <= i < |items| ==>
              s.items[i] == Item(items[i].order, Trim(items[i].text))
    ensures !s.isArchived && s.lastPlayed.None? && s.playCount == 0
  {
    var prefs := if preferences.None? then PreferencesDraft(None, None) else preferences.value;
    Stack(owner, Trim(name),
          if note.None? then None else Some(Trim(note.value)),
          defaultDuration.GetOr(DefaultDuration),
          Preferences(prefs.vibrations.GetOr(DefaultVibrations), prefs.sound.GetOr(DefaultSound)),
          seq(|items|, i requires 0 <= i < |items| => Item(items[i].order, Trim(items[i].text))),
          false, None, 0)
  }

  /** Values that are already trimmed pass through the setters unchanged. */
  lemma NewStackOfTrimmed(owner: nat, name: string, note: string, defaultDuration: int,
                          preferences: PreferencesDraft, items: seq<Item>)
    requires Trim(name) == name && Trim(note) == note
    requires forall i :: 0 <= i < |items| ==> Trim(items[i].text) == items[i].text
    ensures NewStack(owner, name, Some(note), Some(defaultDuration), Some(preferences), items)
            == Stack(owner, name, Some(note), defaultDuration,
                     Preferences(preferences.vibrations.GetOr(DefaultVibrations), preferences.sound.GetOr(DefaultSound)),
                     items, false, None, 0)
  {
    var s := NewStack(owner, name, Some(note), Some(defaultDuration), Some(preferences), items);
    assert s.items == items;
  }

  /** The defaults are within the limits: a stack given only a name that is non-blank
      and at most 100 characters after trimming passes validation. */
  lemma DefaultsAreValid(owner: nat, name: string)
    requires !IsBlank(name) && |Trim(name)| <= MaxNameLength
    ensures SchemaValid(NewStack(owner, name, None, None, None, []))
  {
  }

  /** Items whose order is set and whose text is non-blank and at most 500 characters
      after trimming are stored valid, whatever white space surrounded them. */
  lemma TrimmedItemsValid(owner: nat, name: string, items: seq<Item>)
    requires !IsBlank(name) && |Trim(name)| <= MaxNameLength
    requires forall i :: 0 <= i < |items| ==>
               items[i].order.Some? && !IsBlank(items[i].text) && |Trim(items[i].text)| <= MaxItemTextLength
    ensures SchemaValid(NewStack(owner, name, None, None, None, items))
  {
    var s := NewStack(owner, name, None, None, None, items);
    forall i | 0 <= i < |s.items| ensures ItemValid(s.items[i]) {
      assert s.items[i] == Item(items[i].order, Trim(items[i].text));
    }
  }
}
