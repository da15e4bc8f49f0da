/** The request validators of backend/src/middleware/validation.js and the routes they
    guard (backend/src/routes/stack.routes.js, backend/src/routes/user.routes.js).
    Each rule chain is a function from the body's fields to the list of failures it
    reports, one entry per failing rule (the chains do not stop at the first failure),
    and `validate` passes the request on exactly when that list is empty. Sanitizers
    (`trim`, `toUpperCase`) rewrite the body the handler then sees. */
module Validation {
  import opened Wrappers
  import opened Text
  import opened UserModel
  import opened StackModel
  import opened StackController
  import opened UserController

  /** The rules' messages; `Text` gives the words the response carries. */
  datatype Message =
    | UsernameLength | UsernameChars | InvalidAvatar
    | NameRequired | NameEmpty | NameTooLong | NoteTooLong | DurationOutOfRange
    | ItemsNotArray | ItemTextRequired | ItemTextTooLong
    | KeyLength | KeyLetters | TextRequired | TextTooLong
  {
    function Text(): string
    {
      match this
      case UsernameLength => "Username must be between 2 and 30 characters"
      case UsernameChars => "Username can only contain letters, numbers, spaces, hyphens and underscores"
      case InvalidAvatar => "Invalid avatar selection"
      case NameRequired => "Stack name is required"
      case NameEmpty => "Stack name cannot be empty"
      case NameTooLong => "Stack name cannot exceed 100 characters"
      case NoteTooLong => "Note cannot exceed 500 characters"
      case DurationOutOfRange => "Duration must be between 5 and 3600 seconds"
      case ItemsNotArray => "Items must be an array"
      case ItemTextRequired => "Item text is required"
      case ItemTextTooLong => "Item text cannot exceed 500 characters"
      case KeyLength => "Shortcut key must be 1-3 characters"
      case KeyLetters => "Shortcut key can only contain letters"
      case TextRequired => "Text is required"
      case TextTooLong => "Text cannot exceed 200 characters"
    }
  }

  /** The body paths the rules look at; `ItemText(i)` is `items[i].text`. */
  datatype Path = Username | Avatar | Name | Note | Duration | Items | ItemText(index: nat) | Key | ShortcutText
  {
    function Text(): string
    {
      match this
      case Username => "username"
      case Avatar => "avatar"
      case Name => "name"
      case Note => "note"
      case Duration => "defaultDuration"
      case Items => "items"
      case ItemText(i) => "items[" + NatToString(i) + "].text"
      case Key => "key"
      case ShortcutText => "text"
    }
  }

  /** One entry of the `details` of a refused request: the path and the rule's message. */
  datatype FieldError = FieldError(field: Path, message: Message)

  /** What `validate` does: call `next`, or answer 400 with the failures. */
  datatype Gate = Next | Refused(details: seq<FieldError>)

  /** `validate`: `next` is called exactly when no rule failed; otherwise the answer is
      400 and lists every failure. */
  function Validate(errors: seq<FieldError>): (g: Gate)
    ensures g.Next? <==> errors == []
    ensures g.Refused? ==> g.details == errors
  {
    if errors == [] then Next else Refused(errors)
  }

  /** A route guarded by a validator: refused with the failures, or handled. */
  datatype Routed<R> = Rejected(details: seq<FieldError>) | Handled(response: R)

  /** One rule: no entry when it holds, its message under its path when it fails. */
  function Check(ok: bool, field: Path, message: Message): seq<FieldError>
  {
    if ok then [] else [FieldError(field, message)]
  }

  /** A value a sanitizer `trim` has rewritten; an absent value stays absent. */
  function TrimmedOpt(o: Option<string>): Option<string>
  {
    if o.Some? then Some(Trim(o.value)) else None
  }

  // ----- registerValidation (guards PATCH /users/profile) -----

  predicate IsUsernameChar(c: char)
  {
    ('a' <= c <= 'z') || ('A' <= c <= 'Z') || IsDigit(c) || c == '_' || c == '-' || c == ' '
  }

  /** `/^[a-zA-Z0-9_\- ]+$/`. */
  predicate UsernamePattern(s: string)
  {
    s != [] && forall i :: 0 <= i < |s| ==> IsUsernameChar(s[i])
  }

  /** `isLength({ min: 2, max: 30 })`. */
  predicate UsernameLengthOk(s: string)
  {
    2 <= |s| <= 30
  }

  /** `/^avatar[1-9]\d*$/`: 'avatar' and a positive number without leading zeros. */
  predicate IsAvatarName(s: string)
  {
    |s| > 6 && s[..6] == "avatar" && s[6] != '0' && AllDigits(s[6..])
  }

  /** The failures of `registerValidation` on the body after its sanitizer has trimmed
      the username. Both fields are optional; a username can fail its length and its
      alphabet at once. */
  function RegisterErrors(username: Option<string>, avatar: Option<string>): (r: seq<FieldError>)
    ensures FieldError(Username, UsernameLength) in r <==> username.Some? && !UsernameLengthOk(username.value)
    ensures FieldError(Username, UsernameChars) in r <==> username.Some? && !UsernamePattern(username.value)
    ensures FieldError(Avatar, InvalidAvatar) in r <==> avatar.Some? && !IsAvatarName(avatar.value)
    ensures r == [] <==>
              (username.Some? ==> UsernameLengthOk(username.value) && UsernamePattern(username.value))
              && (avatar.Some? ==> IsAvatarName(avatar.value))
  {
    (if username.Some? then
       Check(UsernameLengthOk(username.value), Username, UsernameLength)
       + Check(UsernamePattern(username.value), Username, UsernameChars)
     else [])
    + (if avatar.Some? then Check(IsAvatarName(avatar.value), Avatar, InvalidAvatar) else [])
  }

  /** `validate(registerValidation)` on a profile body. */
  function RegisterValidation(username: Option<string>, avatar: Option<string>): Gate
  {
    Validate(RegisterErrors(TrimmedOpt(username), avatar))
  }

  /** A profile body that passes `registerValidation` reaches `updateProfile` with a
      username (trimmed by the sanitizer, trimmed again there) inside the schema's
      limits, so the update validators never refuse it, and with a well-formed avatar. */
  lemma RegisterPassKeepsProfileValid(username: Option<string>, avatar: Option<string>)
    requires RegisterValidation(username, avatar).Next?
    ensures TrimmedOpt(username).Some? ==> UsernameWithinLimits(Trim(TrimmedOpt(username).value))
    ensures avatar.Some? ==> IsAvatarName(avatar.value)
  {
    if username.Some? {
      TrimIdempotent(username.value);
    }
  }

  /** Every 'avatar' followed by the decimal form of a positive number is accepted. */
  lemma NumberedAvatarsPass(n: nat)
    requires n >= 1
    ensures IsAvatarName("avatar" + NatToString(n))
  {
    var d := NatToString(n);
    var s := "avatar" + d;
    assert s[..6] == "avatar";
    assert s[6..] == d;
    assert s[6] == d[0];
  }

  /** 'avatar13' is accepted; 'avatar0', 'avatar01' and a bare 'avatar' are not. */
  lemma AvatarExamples()
    ensures IsAvatarName("avatar13")
    ensures !IsAvatarName("avatar0") && !IsAvatarName("avatar01") && !IsAvatarName("avatar")
  {
    NumberedAvatarsPass(13);
    assert NatToString(13) == "13" by {
      assert NatToString(1) == "1";
    }
    assert "avatar0"[6] == '0';
    assert "avatar01"[6] == '0';
  }

  // ----- stackValidation and updateStackValidation -----

  /** Different entries are reported under different paths. */
  lemma ItemPathsDistinct(i: nat, j: nat)
    requires ItemText(i).Text() == ItemText(j).Text()
    ensures i == j
  {
    var p := ItemText(i).Text();
    var q := ItemText(j).Text();
    assert p[6..|p| - 6] == NatToString(i);
    assert q[6..|q| - 6] == NatToString(j);
    ParseNatToString(i);
    ParseNatToString(j);
  }

  /** The entries after the sanitizer (a missing text stays missing). */
  function TrimmedTexts(texts: seq<Option<string>>): (r: seq<Option<string>>)
    ensures |r| == |texts|
    ensures forall i :: 0 <= i < |r| ==> r[i] == TrimmedOpt(texts[i])
  {
    seq(|texts|, i requires 0 <= i < |texts| => TrimmedOpt(texts[i]))
  }

  function TrimmedItems(items: Option<ItemsInput>): Option<ItemsInput>
  {
    if items.Some? && items.value.ItemArray? then Some(ItemArray(TrimmedTexts(items.value.texts))) else items
  }

  /** The per-entry rule on a sanitized text (a missing one counts as ''): non-empty
      and at most 500 characters. */
  predicate EntryOk(t: Option<string>)
  {
    t.GetOr("") != "" && |t.GetOr("")| <= MaxItemTextLength
  }

  /** The rule on entry `i`: an empty text is reported as missing (and then not as too
      long), a long one as too long. */
  function EntryErrors(t: Option<string>, i: nat): (r: seq<FieldError>)
    ensures r == [] <==> EntryOk(t)
    ensures FieldError(ItemText(i), ItemTextRequired) in r <==> t.GetOr("") == ""
    ensures FieldError(ItemText(i), ItemTextTooLong) in r <==> |t.GetOr("")| > MaxItemTextLength
    ensures forall e :: e in r ==> e.field == ItemText(i)
  {
    var text := t.GetOr("");
    Check(text != "", ItemText(i), ItemTextRequired)
    + Check(|text| <= MaxItemTextLength, ItemText(i), ItemTextTooLong)
  }

  /** `items.*.text` from entry `start` on, each entry under its own path. */
  function ItemTextErrors(texts: seq<Option<string>>, start: nat): (r: seq<FieldError>)
    requires start <= |texts|
    ensures forall e :: e in r ==> e.field.ItemText?
    decreases |texts| - start
  {
    if start == |texts| then [] else EntryErrors(texts[start], start) + ItemTextErrors(texts, start + 1)
  }

  /** The rule reports nothing exactly when every entry passes. */
  lemma {:induction false} ItemTextErrorsEmpty(texts: seq<Option<string>>, start: nat)
    requires start <= |texts|
    ensures ItemTextErrors(texts, start) == [] <==> forall i :: start <= i < |texts| ==> EntryOk(texts[i])
    decreases |texts| - start
  {
    if start < |texts| {
      ItemTextErrorsEmpty(texts, start + 1);
      var e := EntryErrors(texts[start], start);
      var rest := ItemTextErrors(texts, start + 1);
      assert ItemTextErrors(texts, start) == e + rest;
      assert e + rest == [] <==> e == [] && rest == [] by {
        assert |e + rest| == |e| + |rest|;
      }
      assert (forall i :: start <= i < |texts| ==> EntryOk(texts[i]))
             <==> EntryOk(texts[start]) && (forall i :: start + 1 <= i < |texts| ==> EntryOk(texts[i]));
    }
  }

  /** Entry `i` is reported as missing exactly when its text is empty, and as too long
      exactly when it exceeds 500 characters, so a blank entry is never reported as too
      long; entries outside the list are never reported. */
  lemma {:induction false} ItemErrorsByIndex(texts: seq<Option<string>>, start: nat, i: nat)
    requires start <= |texts|
    ensures FieldError(ItemText(i), ItemTextRequired) in ItemTextErrors(texts, start)
            <==> start <= i < |texts| && texts[i].GetOr("") == ""
    ensures FieldError(ItemText(i), ItemTextTooLong) in ItemTextErrors(texts, start)
            <==> start <= i < |texts| && |texts[i].GetOr("")| > MaxItemTextLength
    decreases |texts| - start
  {
    if start < |texts| {
      ItemErrorsByIndex(texts, start + 1, i);
      var e := EntryErrors(texts[start], start);
      var rest := ItemTextErrors(texts, start + 1);
      assert ItemTextErrors(texts, start) == e + rest;
      if i != start {
        assert FieldError(ItemText(i), ItemTextRequired) !in e;
        assert FieldError(ItemText(i), ItemTextTooLong) !in e;
      }
    }
  }

  /** Sanitizing the entries does not change what the controllers store for them. */
  lemma TrimmedTextsNormaliseAlike(texts: seq<Option<string>>)
    ensures NormaliseItems(TrimmedTexts(texts)) == NormaliseItems(texts)
  {
    forall i | 0 <= i < |texts|
      ensures NormalisedText(TrimmedTexts(texts)[i]) == NormalisedText(texts[i])
    {
      if texts[i].Some? {
        TrimIdempotent(texts[i].value);
      }
    }
  }

  /** The sanitized entries pass the per-entry rule exactly when the renumbered list
      the controllers build satisfies the schema's item rules. */
  lemma ItemRuleMatchesSchema(texts: seq<Option<string>>)
    ensures (forall i :: 0 <= i < |texts| ==> EntryOk(TrimmedTexts(texts)[i])) <==> ItemsValid(NormaliseItems(texts))
  {
    var t := TrimmedTexts(texts);
    var items := NormaliseItems(texts);
    forall i | 0 <= i < |t| ensures ItemValid(items[i]) <==> EntryOk(t[i]) {
      assert items[i].text == t[i].GetOr("");
    }
  }

  /** The `items` field of a sanitized body is acceptable: absent, or an array whose
      entries pass. */
  predicate ItemsFieldOk(items: Option<ItemsInput>)
  {
    items.None? || (items.value.ItemArray? && forall i :: 0 <= i < |items.value.texts| ==> EntryOk(items.value.texts[i]))
  }

  function NoteErrors(note: Option<string>): (r: seq<FieldError>)
    ensures r == [] <==> NoteValid(note)
    ensures forall e :: e in r ==> e == FieldError(Note, NoteTooLong)
  {
    if note.Some? then Check(|note.value| <= MaxNoteLength, Note, NoteTooLong) else []
  }

  function DurationErrors(defaultDuration: Option<int>): (r: seq<FieldError>)
    ensures r == [] <==> defaultDuration.Some? ==> DurationValid(defaultDuration.value)
    ensures forall e :: e in r ==> e == FieldError(Duration, DurationOutOfRange)
  {
    if defaultDuration.Some? then Check(DurationValid(defaultDuration.value), Duration, DurationOutOfRange) else []
  }

  /** `items` must be an array when present, and then its entries are checked. */
  function ItemsErrors(items: Option<ItemsInput>): (r: seq<FieldError>)
    ensures r == [] <==> ItemsFieldOk(items)
    ensures FieldError(Items, ItemsNotArray) in r <==> items.Some? && items.value.NotAnArray?
    ensures forall e :: e in r ==> e.field.Items? || e.field.ItemText?
  {
    var texts := if items.Some? && items.value.ItemArray? then items.value.texts else [];
    ItemTextErrorsEmpty(texts, 0);
    (if items.Some? then Check(items.value.ItemArray?, Items, ItemsNotArray) else [])
    + ItemTextErrors(texts, 0)
  }

  /** The failures of the rules both stack chains share (note, duration, items), on a
      sanitized body. */
  function BodyErrors(note: Option<string>, defaultDuration: Option<int>, items: Option<ItemsInput>): (r: seq<FieldError>)
    ensures r == [] <==>
              NoteValid(note) && (defaultDuration.Some? ==> DurationValid(defaultDuration.value)) && ItemsFieldOk(items)
    ensures forall e :: e in r ==> !e.field.Name?
  {
    var a := NoteErrors(note);
    var b := DurationErrors(defaultDuration);
    var c := ItemsErrors(items);
    assert |a + b + c| == |a| + |b| + |c|;
    a + b + c
  }

  /** `stackValidation` on a sanitized body: the name is required, so a missing or
      empty one is reported as required. */
  function StackErrors(name: Option<string>, note: Option<string>, defaultDuration: Option<int>,
                       items: Option<ItemsInput>): (r: seq<FieldError>)
    ensures FieldError(Name, NameRequired) in r <==> name.GetOr("") == ""
    ensures r == [] <==> name.Some? && NameValid(name.value) && BodyErrors(note, defaultDuration, items) == []
  {
    var n := name.GetOr("");
    Check(n != "", Name, NameRequired) + Check(|n| <= MaxNameLength, Name, NameTooLong)
    + BodyErrors(note, defaultDuration, items)
  }

  /** `updateStackValidation` on a sanitized body: the same rules with the name
      optional, but not empty when present. */
  function UpdateStackErrors(name: Option<string>, note: Option<string>, defaultDuration: Option<int>,
                             items: Option<ItemsInput>): (r: seq<FieldError>)
    ensures FieldError(Name, NameEmpty) in r <==> name == Some("")
    ensures r == [] <==> (name.Some? ==> NameValid(name.value)) && BodyErrors(note, defaultDuration, items) == []
  {
    (if name.Some? then
       Check(name.value != "", Name, NameEmpty) + Check(|name.value| <= MaxNameLength, Name, NameTooLong)
     else [])
    + BodyErrors(note, defaultDuration, items)
  }

  /** `validate(stackValidation)` and `validate(updateStackValidation)` on a raw body:
      the sanitizers run first, then the rules. */
  function StackValidation(name: Option<string>, note: Option<string>, defaultDuration: Option<int>,
                           items: Option<ItemsInput>): Gate
  {
    Validate(StackErrors(TrimmedOpt(name), TrimmedOpt(note), defaultDuration, TrimmedItems(items)))
  }

  function UpdateStackValidation(name: Option<string>, note: Option<string>, defaultDuration: Option<int>,
                                 items: Option<ItemsInput>): Gate
  {
    Validate(UpdateStackErrors(TrimmedOpt(name), TrimmedOpt(note), defaultDuration, TrimmedItems(items)))
  }

  /** The chain with the required name accepts only what the other accepts, and on a
      body that has a name the two agree. */
  lemma StackChainIsStricter(name: Option<string>, note: Option<string>, defaultDuration: Option<int>,
                             items: Option<ItemsInput>)
    ensures StackValidation(name, note, defaultDuration, items).Next? ==>
              UpdateStackValidation(name, note, defaultDuration, items).Next?
    ensures name.Some? ==>
              (StackValidation(name, note, defaultDuration, items).Next? <==>
               UpdateStackValidation(name, note, defaultDuration, items).Next?)
  {
  }

  /** A body without a name fails `stackValidation` with 'Stack name is required',
      whatever else it holds. */
  lemma NamelessBodyRefused(note: Option<string>, defaultDuration: Option<int>, items: Option<ItemsInput>)
    ensures StackValidation(None, note, defaultDuration, items).Refused?
    ensures FieldError(Name, NameRequired) in StackValidation(None, note, defaultDuration, items).details
  {
  }

  /** POST /stacks: `stackValidation`, then `createStack` on the sanitized body (an
      absent `items` is not an array there). */
  function PostStack(owner: nat, name: Option<string>, note: Option<string>, defaultDuration: Option<int>,
                     preferences: Option<PreferencesDraft>, items: Option<ItemsInput>): Routed<CreateResponse>
  {
    var gate := StackValidation(name, note, defaultDuration, items);
    if gate.Refused? then Rejected(gate.details)
    else Handled(CreateStack(owner, CreateBody(TrimmedOpt(name), TrimmedOpt(note), defaultDuration, preferences,
                                               TrimmedItems(items).GetOr(NotAnArray))))
  }

  /** A name the sanitizer trimmed and the rules accepted is what `createStack` keeps. */
  lemma ValidatedName(b: CreateBody, name: string)
    requires b.name == Some(Trim(name)) && NameValid(Trim(name))
    ensures NameValid(CreatedName(b))
  {
    TrimIdempotent(name);
  }

  lemma ValidatedNote(b: CreateBody, note: Option<string>)
    requires b.note == TrimmedOpt(note) && NoteValid(TrimmedOpt(note))
    ensures NoteValid(Some(CreatedNote(b)))
  {
    if note.Some? {
      TrimIdempotent(note.value);
    }
  }

  lemma ValidatedItems(b: CreateBody, items: Option<ItemsInput>)
    requires b.items == TrimmedItems(items).GetOr(NotAnArray) && ItemsFieldOk(TrimmedItems(items))
    ensures ItemsValid(CreatedItems(b))
  {
    if items.Some? {
      ItemRuleMatchesSchema(items.value.texts);
      TrimmedTextsNormaliseAlike(items.value.texts);
    }
  }

  /** The sanitized body of a request `stackValidation` lets through gives `createStack`
      a valid name, note, duration and item list. */
  lemma ValidatedCreateFields(b: CreateBody, name: Option<string>, note: Option<string>, items: Option<ItemsInput>)
    requires StackValidation(name, note, b.defaultDuration, items).Next?
    requires b.name == TrimmedOpt(name) && b.note == TrimmedOpt(note) && b.items == TrimmedItems(items).GetOr(NotAnArray)
    ensures NameValid(CreatedName(b)) && NoteValid(Some(CreatedNote(b)))
    ensures DurationValid(CreatedDuration(b)) && ItemsValid(CreatedItems(b))
  {
    var errors := StackErrors(TrimmedOpt(name), TrimmedOpt(note), b.defaultDuration, TrimmedItems(items));
    assert errors == [];
    assert BodyErrors(TrimmedOpt(note), b.defaultDuration, TrimmedItems(items)) == [];
    ValidatedName(b, name.value);
    ValidatedNote(b, note);
    ValidatedItems(b, items);
  }

  /** The route checks every field the schema checks except the preferences: a body it
      lets through is stored exactly when its preferences (after the defaults) are
      valid. */
  lemma PostStackStoresValidated(owner: nat, name: Option<string>, note: Option<string>, defaultDuration: Option<int>,
                                 preferences: Option<PreferencesDraft>, items: Option<ItemsInput>)
    requires PostStack(owner, name, note, defaultDuration, preferences, items).Handled?
    ensures var d := if preferences.Some? then preferences.value else PreferencesDraft(Some(DefaultVibrations), Some(DefaultSound));
            PostStack(owner, name, note, defaultDuration, preferences, items).response.StackCreated?
            <==> PreferencesValid(Preferences(d.vibrations.GetOr(DefaultVibrations), d.sound.GetOr(DefaultSound)))
  {
    var b := CreateBody(TrimmedOpt(name), TrimmedOpt(note), defaultDuration, preferences,
                        TrimmedItems(items).GetOr(NotAnArray));
    CreatedStackFields(owner, b);
    ValidatedCreateFields(b, name, note, items);
  }

  /** The `items` PATCH /stacks/:id hands the validators: arrays there. */
  function UpdateItemsField(u: UpdateBody): Option<ItemsInput>
  {
    if u.items.Some? then Some(ItemArray(u.items.value)) else None
  }

  /** The body `updateStack` sees after the sanitizers. */
  function SanitizedUpdate(u: UpdateBody): UpdateBody
  {
    u.(name := TrimmedOpt(u.name), note := TrimmedOpt(u.note),
       items := if u.items.Some? then Some(TrimmedTexts(u.items.value)) else None)
  }

  /** PATCH /stacks/:id as routed: guarded by `stackValidation`, whose name rule is
      not optional. */
  function PatchStackAsWritten(found: Option<Stack>, u: UpdateBody): Routed<UpdateResponse>
  {
    var gate := StackValidation(u.name, u.note, u.defaultDuration, UpdateItemsField(u));
    if gate.Refused? then Rejected(gate.details) else Handled(UpdateStack(found, SanitizedUpdate(u)))
  }

  /** PATCH /stacks/:id guarded by `updateStackValidation`, the chain written for it. */
  function PatchStack(found: Option<Stack>, u: UpdateBody): Routed<UpdateResponse>
  {
    var gate := UpdateStackValidation(u.name, u.note, u.defaultDuration, UpdateItemsField(u));
    if gate.Refused? then Rejected(gate.details) else Handled(UpdateStack(found, SanitizedUpdate(u)))
  }

  /** The fields `updateStackValidation` checks, once it has let the body through,
      pass the update validators after the sanitizers. */
  lemma ValidatedUpdateFields(u: UpdateBody)
    requires UpdateStackValidation(u.name, u.note, u.defaultDuration, UpdateItemsField(u)).Next?
    ensures u.name.Some? ==> NameValid(Trim(Trim(u.name.value)))
    ensures u.note.Some? ==> NoteValid(Some(Trim(Trim(u.note.value))))
    ensures u.defaultDuration.Some? ==> DurationValid(u.defaultDuration.value)
    ensures u.items.Some? ==> ItemsValid(NormaliseItems(TrimmedTexts(u.items.value)))
  {
    var body := BodyErrors(TrimmedOpt(u.note), u.defaultDuration, TrimmedItems(UpdateItemsField(u)));
    assert UpdateStackErrors(TrimmedOpt(u.name), TrimmedOpt(u.note), u.defaultDuration, TrimmedItems(UpdateItemsField(u))) == [];
    assert body == [];
    if u.name.Some? {
      TrimIdempotent(u.name.value);
    }
    if u.note.Some? {
      TrimIdempotent(u.note.value);
    }
    if u.items.Some? {
      ValidatedUpdateItems(u.items.value);
    }
  }

  lemma ValidatedUpdateItems(texts: seq<Option<string>>)
    requires ItemsFieldOk(TrimmedItems(Some(ItemArray(texts))))
    ensures ItemsValid(NormaliseItems(TrimmedTexts(texts)))
  {
    TrimmedTextsNormaliseAlike(texts);
    ItemRuleMatchesSchema(texts);
  }

  /** After the sanitizers, such a body fails the update validators only on its
      preferences. */
  lemma SanitizedUpdateValid(u: UpdateBody)
    requires UpdateStackValidation(u.name, u.note, u.defaultDuration, UpdateItemsField(u)).Next?
    ensures UpdateValid(SanitizedUpdate(u)) <==> u.preferences.None? || PreferencesValid(u.preferences.value)
  {
    ValidatedUpdateFields(u);
    var v := SanitizedUpdate(u);
    assert v.name == TrimmedOpt(u.name) && v.note == TrimmedOpt(u.note);
    assert v.defaultDuration == u.defaultDuration && v.preferences == u.preferences;
    assert v.items.Some? ==> v.items.value == TrimmedTexts(u.items.value);
  }

  /** A body that passes `updateStackValidation` passes the update validators too,
      unless its preferences are out of range: those only the schema checks. */
  lemma PatchStackPassesUpdateValidators(found: Option<Stack>, u: UpdateBody)
    requires PatchStack(found, u).Handled?
    ensures PatchStack(found, u).response != UpdateInvalid
            <==> u.preferences.None? || PreferencesValid(u.preferences.value)
  {
    SanitizedUpdateValid(u);
  }

  /** The body the dashboard's archive toggle sends: only `isArchived`. */
  function ArchiveBody(archived: bool): UpdateBody
  {
    UpdateBody(None, None, None, None, None, Some(archived), None, None, None)
  }

  /** As routed, every archive toggle is refused with 400 because it has no name. */
  lemma ArchiveToggleRefused(found: Option<Stack>, archived: bool)
    ensures PatchStackAsWritten(found, ArchiveBody(archived)) == Rejected([FieldError(Name, NameRequired)])
  {
    assert BodyErrors(None, None, None) == [] by {
      assert ItemTextErrors([], 0) == [];
    }
    assert StackErrors(None, None, None, None) == [FieldError(Name, NameRequired)];
  }

  /** With `updateStackValidation` the toggle reaches `updateStack`, which changes the
      flag and nothing else. */
  lemma ArchiveToggleApplied(s: Stack, archived: bool)
    ensures PatchStack(Some(s), ArchiveBody(archived)) == Handled(StackUpdated(s.(isArchived := archived)))
  {
  }

  // ----- shortcutValidation (guards POST /users/shortcuts) -----

  /** The key after the sanitizers (a missing key is trimmed to ''). */
  function SanitizedKey(key: Option<string>): string
  {
    Upper(Trim(key.GetOr("")))
  }

  function SanitizedText(text: Option<string>): string
  {
    Trim(text.GetOr(""))
  }

  /** `/^[A-Z]+$/`. */
  predicate CapitalLetters(s: string)
  {
    s != [] && forall i :: 0 <= i < |s| ==> 'A' <= s[i] <= 'Z'
  }

  /** The failures of `shortcutValidation` on the sanitized key and text; an empty key
      fails both key rules. */
  function ShortcutErrors(key: string, text: string): (r: seq<FieldError>)
    ensures key == "" ==> FieldError(Key, KeyLength) in r && FieldError(Key, KeyLetters) in r
    ensures FieldError(ShortcutText, TextRequired) in r <==> text == ""
    ensures r == [] <==> 1 <= |key| <= 3 && CapitalLetters(key) && text != "" && |text| <= 200
  {
    Check(1 <= |key| <= 3, Key, KeyLength) + Check(CapitalLetters(key), Key, KeyLetters)
    + Check(text != "", ShortcutText, TextRequired) + Check(|text| <= 200, ShortcutText, TextTooLong)
  }

  /** `validate(shortcutValidation)` on a raw body. */
  function ShortcutValidation(key: Option<string>, text: Option<string>): Gate
  {
    Validate(ShortcutErrors(SanitizedKey(key), SanitizedText(text)))
  }

  /** After the validator the key is already trimmed and upper-case, so the controller's
      `toUpperCase` and the schema's setters change nothing: the entry stored is the
      sanitized key and text, within the schema's limits, and `addShortcut`'s guarantee
      that a trimmed key keeps the keys unique applies. */
  lemma ShortcutPassStoresAsSent(key: Option<string>, text: Option<string>)
    requires ShortcutValidation(key, text).Next?
    ensures var k := SanitizedKey(key);
            Trim(k) == k && Upper(k) == k
            && StoredShortcut(Upper(k), Trim(SanitizedText(text))) == Shortcut(k, SanitizedText(text))
            && ShortcutWithinLimits(Shortcut(k, SanitizedText(text)))
  {
    var raw := key.GetOr("");
    TrimOfUpperTrimmed(raw);
    UpperIdempotent(Trim(raw));
    TrimIdempotent(text.GetOr(""));
  }
}
