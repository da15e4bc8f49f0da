/** The stack form of frontend/src/components/dashboard/CreateStackModal.jsx: its state
    cells, the item list handlers, the client-side check before submitting, the
    submitted body, the fields filled in when an existing stack is edited, and the
    vibration preview. */
module CreateStackModal {
  import opened Wrappers
  import opened Text
  import opened StackModel
  import opened StackController
  import opened Validation
  import opened UseTimer

  /** The keys of the `errors` object: `name`, `note`, `duration` and `item-<index>`. */
  datatype ErrorKey = NameField | NoteField | DurationField | ItemField(index: nat)
  {
    function Text(): string
    {
      match this
      case NameField => "name"
      case NoteField => "note"
      case DurationField => "duration"
      case ItemField(i) => "item-" + NatToString(i)
    }
  }

  datatype FormError = BlankName | LongName | LongNote | BadDuration | BlankItem | LongItem
  {
    function Text(): string
    {
      match this
      case BlankName => "Stack name is required"
      case LongName => "Name cannot exceed 100 characters"
      case LongNote => "Note cannot exceed 500 characters"
      case BadDuration => "Duration must be between 5 and 3600 seconds"
      case BlankItem => "Item text is required"
      case LongItem => "Item cannot exceed 500 characters"
    }
  }

  /** An item text the form accepts: something besides white space, and at most 500
      characters as typed. */
  predicate ItemOk(text: string)
  {
    Trim(text) != "" && |text| <= 500
  }

  /** Everything `validateForm` checks. The name and note limits apply to the text as
      typed, the emptiness checks to the trimmed text. */
  predicate FormValid(name: string, note: string, duration: int, items: seq<string>)
  {
    && Trim(name) != "" && |name| <= 100
    && |note| <= 500
    && 5 <= duration <= 3600
    && forall i :: 0 <= i < |items| ==> ItemOk(items[i])
  }

  /** The error `validateForm` reports for a rejected item: a blank item is reported as
      required even when it is long. */
  function ItemError(text: string): FormError
  {
    if Trim(text) == "" then BlankItem else LongItem
  }

  /** The loop of `validateForm` over the items: one entry per rejected item, keyed by
      its index. */
  method ItemErrors(items: seq<string>) returns (errors: map<ErrorKey, FormError>)
    ensures forall k :: k in errors ==> k.ItemField? && k.index < |items|
    ensures forall i :: 0 <= i < |items| ==> (ItemField(i) in errors <==> !ItemOk(items[i]))
    ensures forall i :: 0 <= i < |items| && ItemField(i) in errors ==> errors[ItemField(i)] == ItemError(items[i])
    ensures errors == map[] <==> forall i :: 0 <= i < |items| ==> ItemOk(items[i])
  {
    errors := map[];
    var i := 0;
    while i < |items|
      invariant 0 <= i <= |items|
      invariant forall k :: k in errors ==> k.ItemField? && k.index < i
      invariant forall j :: 0 <= j < i ==> (ItemField(j) in errors <==> !ItemOk(items[j]))
      invariant forall j :: 0 <= j < i && ItemField(j) in errors ==> errors[ItemField(j)] == ItemError(items[j])
    {
      if Trim(items[i]) == "" {
        errors := errors[ItemField(i) := BlankItem];
      } else if |items[i]| > 500 {
        errors := errors[ItemField(i) := LongItem];
      }
      i := i + 1;
    }
    if errors == map[] {
      forall j | 0 <= j < |items| ensures ItemOk(items[j]) {
        assert ItemField(j) !in errors;
      }
    } else {
      var k :| k in errors;
      assert !ItemOk(items[k.index]);
    }
  }

  /** The checks of `validateForm` on the fields other than the items, given whether the
      name is blank and the lengths as typed. */
  method FieldErrors(nameBlank: bool, nameLength: nat, noteLength: nat, duration: int)
    returns (errors: map<ErrorKey, FormError>)
    ensures forall k :: k in errors ==> !k.ItemField?
    ensures NameField in errors <==> nameBlank || nameLength > 100
    ensures NameField in errors ==> errors[NameField] == if nameBlank then BlankName else LongName
    ensures NoteField in errors <==> noteLength > 500
    ensures NoteField in errors ==> errors[NoteField] == LongNote
    ensures DurationField in errors <==> duration < 5 || duration > 3600
    ensures DurationField in errors ==> errors[DurationField] == BadDuration
    ensures errors == map[] <==> !nameBlank && nameLength <= 100 && noteLength <= 500 && 5 <= duration <= 3600
  {
    errors := map[];
    if nameBlank {
      errors := errors[NameField := BlankName];
    } else if nameLength > 100 {
      errors := errors[NameField := LongName];
    }
    if noteLength > 500 {
      errors := errors[NoteField := LongNote];
    }
    if duration < 5 || duration > 3600 {
      errors := errors[DurationField := BadDuration];
    }
    if errors == map[] {
      assert NameField !in errors && NoteField !in errors && DurationField !in errors;
    }
  }

  /** `validateForm`'s errors object: at most one error per field and per item, the
      required-error taking precedence over the too-long one, and empty exactly when
      the form is valid. */
  method FormErrors(name: string, note: string, duration: int, items: seq<string>)
    returns (errors: map<ErrorKey, FormError>)
    ensures NameField in errors <==> Trim(name) == "" || |name| > 100
    ensures NameField in errors ==> errors[NameField] == if Trim(name) == "" then BlankName else LongName
    ensures NoteField in errors <==> |note| > 500
    ensures NoteField in errors ==> errors[NoteField] == LongNote
    ensures DurationField in errors <==> duration < 5 || duration > 3600
    ensures DurationField in errors ==> errors[DurationField] == BadDuration
    ensures forall i :: 0 <= i < |items| ==> (ItemField(i) in errors <==> !ItemOk(items[i]))
    ensures forall i :: 0 <= i < |items| && ItemField(i) in errors ==> errors[ItemField(i)] == ItemError(items[i])
    ensures forall k :: k in errors && k.ItemField? ==> k.index < |items|
    ensures errors == map[] <==> FormValid(name, note, duration, items)
  {
    var fixed := FieldErrors(Trim(name) == "", |name|, |note|, duration);
    var perItem := ItemErrors(items);
    errors := fixed + perItem;
    assert errors == map[] <==> fixed == map[] && perItem == map[] by {
      if errors == map[] {
        assert forall k :: k !in fixed && k !in perItem;
      }
    }
  }

  /** The body `handleSubmit` passes on: name, note and every item text trimmed, item
      order kept, duration and preferences as chosen. */
  datatype StackData = StackData(name: string, note: string, defaultDuration: int,
                                 preferences: Preferences, items: seq<string>)

  function TrimAll(items: seq<string>): (r: seq<string>)
    ensures |r| == |items| && forall i :: 0 <= i < |items| ==> r[i] == Trim(items[i])
  {
    seq(|items|, i requires 0 <= i < |items| => Trim(items[i]))
  }

  /** The body as the server's validators receive it. */
  function ItemsOf(data: StackData): ItemsInput
  {
    ItemArray(seq(|data.items|, i requires 0 <= i < |data.items| => Some(data.items[i])))
  }

  /** Item texts the client accepts, trimmed, pass the server's per-item rule after
      the server trims them again. */
  lemma SubmittedItemsPass(items: seq<string>, texts: seq<Option<string>>)
    requires forall i :: 0 <= i < |items| ==> ItemOk(items[i])
    requires |texts| == |items| && forall i :: 0 <= i < |items| ==> texts[i] == Some(Trim(items[i]))
    ensures ItemsFieldOk(TrimmedItems(Some(ItemArray(texts))))
  {
    var sanitized := TrimmedTexts(texts);
    forall i | 0 <= i < |sanitized| ensures EntryOk(sanitized[i]) {
      TrimIdempotent(items[i]);
      assert sanitized[i] == Some(Trim(items[i]));
    }
  }

  /** A sanitized body whose fields each pass their rule passes `stackValidation`. */
  lemma SanitizedBodyPasses(name: Option<string>, note: Option<string>, duration: int, items: Option<ItemsInput>)
    requires name.Some? && NameValid(name.value) && NoteValid(note) && DurationValid(duration)
    requires ItemsFieldOk(items)
    ensures Validate(StackErrors(name, note, Some(duration), items)).Next?
  {
    assert BodyErrors(note, Some(duration), items) == [];
  }

  /** A form the client accepts is a body the server's `stackValidation` accepts: the
      client's limits on the typed text bound the trimmed text the server sees. */
  lemma FormValidPassesServer(name: string, note: string, duration: int, items: seq<string>, prefs: Preferences)
    requires FormValid(name, note, duration, items)
    ensures var data := StackData(Trim(name), Trim(note), duration, prefs, TrimAll(items));
            StackValidation(Some(data.name), Some(data.note), Some(data.defaultDuration), Some(ItemsOf(data))).Next?
  {
    var data := StackData(Trim(name), Trim(note), duration, prefs, TrimAll(items));
    var texts := ItemsOf(data).texts;
    SubmittedItemsPass(items, texts);
    TrimIdempotent(name);
    TrimIdempotent(note);
    var n := TrimmedOpt(Some(data.name));
    var m := TrimmedOpt(Some(data.note));
    assert n == Some(Trim(name));
    assert m == Some(Trim(note));
    SanitizedBodyPasses(n, m, duration, TrimmedItems(Some(ItemsOf(data))));
  }

  /** The server is more lenient with padding: a name of 100 letters followed by a space
      is refused by the form but accepted by the server once trimmed. */
  lemma PaddedNameOnlyRefusedByForm()
    ensures var name := seq(100, i => 'a') + " ";
            !FormValid(name, "", 60, []) && NameValid(Trim(name))
  {
    var name := seq(100, i => 'a') + " ";
    var core := seq(100, i => 'a');
    assert Trim(name) == core by {
      assert name[..|name| - 1] == core;
      TrimOfUnpadded(core);
    }
  }

  /** The fields the form shows. */
  datatype FormFields = FormFields(name: string, note: string, duration: int, vibrations: int,
                                   sound: string, items: seq<string>)

  /** `resetForm`: an empty form with 60 seconds, one vibration and the 'ding' sound. */
  const BlankForm: FormFields := FormFields("", "", 60, 1, "ding", [])

  function ItemTexts(items: seq<Item>): (r: seq<string>)
    ensures |r| == |items| && forall i :: 0 <= i < |items| ==> r[i] == items[i].text
  {
    seq(|items|, i requires 0 <= i < |items| => items[i].text)
  }

  /** The form filled from an existing stack as written, with `||` defaults: a falsy
      value, including a duration or a vibration count of 0, gets the default. */
  function EditFormAsWritten(s: Stack): (f: FormFields)
    ensures s.preferences.vibrations == 0 ==> f.vibrations == 1
    ensures s.preferences.vibrations != 0 ==> f.vibrations == s.preferences.vibrations
  {
    FormFields(s.name, s.note.GetOr(""),
               if s.defaultDuration == 0 then 60 else s.defaultDuration,
               if s.preferences.vibrations == 0 then 1 else s.preferences.vibrations,
               if s.preferences.sound == "" then "ding" else s.preferences.sound,
               ItemTexts(s.items))
  }

  /** The form filled from an existing stack with defaults only for absent values: every
      stored value is shown as it is. */
  function EditForm(s: Stack): (f: FormFields)
    ensures f.duration == s.defaultDuration && f.vibrations == s.preferences.vibrations
    ensures f.sound == s.preferences.sound
    ensures f.name == s.name && f.items == ItemTexts(s.items)
  {
    FormFields(s.name, s.note.GetOr(""), s.defaultDuration, s.preferences.vibrations,
               s.preferences.sound, ItemTexts(s.items))
  }

  /** The body submitted for a form. */
  function Submitted(f: FormFields): StackData
  {
    StackData(Trim(f.name), Trim(f.note), f.duration, Preferences(f.vibrations, f.sound), TrimAll(f.items))
  }

  /** Opening a stored stack for editing and saving it unchanged keeps its preferences
      and duration with the corrected defaults; as written it does so exactly when the
      stack vibrates at least once, so 'None' silently becomes one vibration. */
  lemma EditRoundTrip(s: Stack)
    requires SchemaValid(s)
    ensures Submitted(EditForm(s)).preferences == s.preferences
    ensures Submitted(EditForm(s)).defaultDuration == s.defaultDuration
    ensures Submitted(EditFormAsWritten(s)).defaultDuration == s.defaultDuration
    ensures Submitted(EditFormAsWritten(s)).preferences == s.preferences <==> s.preferences.vibrations != 0
  {
    assert s.preferences.sound != "";
  }

  /** The form's state cells and handlers. */
  class StackForm {
    var name: string
    var note: string
    var duration: int
    var vibrations: int
    var sound: string
    var items: seq<string>
    var errors: map<ErrorKey, FormError>

    function Fields(): FormFields
      reads this
    {
      FormFields(name, note, duration, vibrations, sound, items)
    }

    constructor ()
      ensures Fields() == BlankForm && errors == map[]
    {
      name, note, duration, vibrations, sound, items := "", "", 60, 1, "ding", [];
      errors := map[];
    }

    /** The effect that fills the form when it opens: the stack being edited, or a
        blank form with no errors. Errors are kept when a stack is loaded. */
    method Load(editing: Option<Stack>)
      modifies this
      ensures editing.Some? ==> Fields() == EditFormAsWritten(editing.value) && errors == old(errors)
      ensures editing.None? ==> Fields() == BlankForm && errors == map[]
    {
      if editing.Some? {
        var f := EditFormAsWritten(editing.value);
        name, note, duration, vibrations, sound, items := f.name, f.note, f.duration, f.vibrations, f.sound, f.items;
      } else {
        name, note, duration, vibrations, sound, items := "", "", 60, 1, "ding", [];
        errors := map[];
      }
    }

    /** `handleAddItem`: one empty item at the end. */
    method AddItem()
      modifies this
      ensures items == old(items) + [""]
      ensures name == old(name) && note == old(note) && duration == old(duration)
      ensures vibrations == old(vibrations) && sound == old(sound) && errors == old(errors)
    {
      items := items + [""];
    }

    /** `handleRemoveItem`: `splice(index, 1)` removes exactly that index when it is in
        range, keeping the others in order, and does nothing past the end. */
    method RemoveItem(index: nat)
      modifies this
      ensures index < |old(items)| ==> items == old(items)[..index] + old(items)[index + 1..]
      ensures index >= |old(items)| ==> items == old(items)
      ensures name == old(name) && note == old(note) && duration == old(duration)
      ensures vibrations == old(vibrations) && sound == old(sound) && errors == old(errors)
    {
      if index < |items| {
        items := items[..index] + items[index + 1..];
      }
    }

    /** `handleItemChange`: the text of that item only. */
    method ChangeItem(index: nat, value: string)
      requires index < |items|
      modifies this
      ensures items == old(items)[index := value]
      ensures name == old(name) && note == old(note) && duration == old(duration)
      ensures vibrations == old(vibrations) && sound == old(sound) && errors == old(errors)
    {
      items := items[index := value];
    }

    /** `validateForm`: stores the errors and passes exactly when the form is valid. */
    method ValidateForm() returns (ok: bool)
      modifies this
      ensures Fields() == old(Fields())
      ensures ok <==> errors == map[]
      ensures ok <==> FormValid(name, note, duration, items)
    {
      errors := FormErrors(name, note, duration, items);
      ok := errors == map[];
    }

    /** `handleSubmit`: the body is passed on only when the form is valid, and then the
        server's validators accept it. */
    method Submit() returns (data: Option<StackData>)
      modifies this
      ensures Fields() == old(Fields())
      ensures data.Some? <==> FormValid(name, note, duration, items)
      ensures data.Some? ==> data.value == Submitted(Fields())
      ensures data.Some? ==>
                StackValidation(Some(data.value.name), Some(data.value.note), Some(data.value.defaultDuration),
                                Some(ItemsOf(data.value))).Next?
    {
      var ok := ValidateForm();
      if !ok {
        return None;
      }
      FormValidPassesServer(name, note, duration, items, Preferences(vibrations, sound));
      data := Some(Submitted(Fields()));
    }
  }

  /** `handleTestVibration`: nothing for zero vibrations; otherwise a 200 ms pulse per
      vibration with 100 ms between pulses. */
  method TestVibration(vibrations: int) returns (pattern: Option<seq<int>>)
    ensures vibrations == 0 <==> pattern.None?
    ensures pattern.Some? ==> pattern.value == Pulsed(vibrations, 200, 100)
    ensures pattern.Some? ==> Pulses(pattern.value) == if vibrations < 0 then 0 else vibrations
  {
    if vibrations == 0 {
      return None;
    }
    var p: seq<int> := [];
    var i := 0;
    while i < vibrations
      invariant 0 <= i && (vibrations > 0 ==> i <= vibrations) && (vibrations <= 0 ==> i == 0)
      invariant |p| == if vibrations > 0 && i == vibrations then 2 * i - 1 else 2 * i
      invariant forall k :: 0 <= k < |p| ==> p[k] == if k % 2 == 0 then 200 else 100
    {
      p := p + [200];
      if i < vibrations - 1 {
        p := p + [100];
      }
      i := i + 1;
    }
    var q := Pulsed(vibrations, 200, 100);
    assert |p| == |q|;
    assert forall k :: 0 <= k < |p| ==> p[k] == q[k];
    pattern := Some(p);
  }
}
