/** Profile update and the per-user shortcut list of
    backend/src/controllers/user.controller.js, acting on the stored user object. */
module UserController {
  import opened Wrappers
  import opened Text
  import opened UserModel

  datatype ProfileResponse = ProfileNotFound | ProfileInvalid | ProfileUpdated(id: nat, username: Option<string>, avatar: string)
  {
    function Status(): int
    {
      match this
      case ProfileNotFound => 404
      case ProfileInvalid => 400
      case ProfileUpdated(_, _, _) => 200
    }
  }

  /** The username limits the update validators check (`minlength`/`maxlength`). */
  predicate UsernameWithinLimits(name: string)
  {
    2 <= |name| <= 30
  }

  /** `updateProfile`: the update validators run before the user is looked up, so a
      username outside 2..30 characters after trimming gives 400 with nothing written,
      whether or not the user exists; then no user gives 404; otherwise only the fields
      present in the body are written, the username trimmed. */
  method UpdateProfile(found: Option<User>, username: Option<string>, avatar: Option<string>)
    returns (response: ProfileResponse)
    modifies if found.Some? then {found.value} else {}
    ensures username.Some? && !UsernameWithinLimits(Trim(username.value)) ==>
              response == ProfileInvalid && (found.Some? ==> unchanged(found.value))
    ensures (username.None? || UsernameWithinLimits(Trim(username.value))) && found.None? ==>
              response == ProfileNotFound
    ensures found.Some? && (username.None? || UsernameWithinLimits(Trim(username.value))) ==>
              var u := found.value;
              && u.username == (if username.Some? then Some(Trim(username.value)) else old(u.username))
              && u.avatar == (if avatar.Some? then avatar.value else old(u.avatar))
              && u.StreakOf() == old(u.StreakOf()) && u.StatsOf() == old(u.StatsOf())
              && u.shortcuts == old(u.shortcuts) && u.hashedToken == old(u.hashedToken)
              && u.tokenPrefix == old(u.tokenPrefix)
              && u.isNew == old(u.isNew) && u.tokenModified == old(u.tokenModified)
              && response == ProfileUpdated(u.id, u.username, u.avatar)
  {
    var newName: Option<string> := None;
    if username.Some? {
      newName := Some(Trim(username.value));
      if !UsernameWithinLimits(newName.value) {
        return ProfileInvalid;
      }
    }
    if found.None? {
      return ProfileNotFound;
    }
    var user := found.value;
    if newName.Some? {
      user.username := newName;
    }
    if avatar.Some? {
      user.avatar := avatar.value;
    }
    response := ProfileUpdated(user.id, user.username, user.avatar);
  }

  /** `getShortcuts`: the stored list, or the empty list when there is no user. */
  function GetShortcuts(found: Option<UserRecord>): (r: seq<Shortcut>)
    ensures found.None? ==> r == []
    ensures found.Some? ==> r == found.value.shortcuts
  {
    if found.None? then [] else found.value.shortcuts
  }

  /** Some entry of the list has exactly this key (`shortcuts.some(s => s.key === key)`). */
  predicate HasKey(list: seq<Shortcut>, key: string)
  {
    exists i :: 0 <= i < |list| && list[i].key == key
  }

  /** No two entries share a key. */
  predicate KeysUnique(list: seq<Shortcut>)
  {
    forall i, j :: 0 <= i < j < |list| ==> list[i].key != list[j].key
  }

  /** `shortcuts.filter(s => s.key !== key)`: the entries with another key, in order.
      It is as long as the input exactly when no entry had the key. */
  function RemoveKey(list: seq<Shortcut>, key: string): (r: seq<Shortcut>)
    ensures |r| <= |list|
    ensures forall s :: s in r <==> s in list && s.key != key
    ensures |r| == |list| <==> !HasKey(list, key)
    ensures !HasKey(list, key) ==> r == list
  {
    if list == [] then []
    else
      var rest := RemoveKey(list[1..], key);
      assert HasKey(list, key) <==> list[0].key == key || HasKey(list[1..], key) by {
        if HasKey(list[1..], key) {
          var i :| 0 <= i < |list[1..]| && list[1..][i].key == key;
          assert list[i + 1].key == key;
        }
        if HasKey(list, key) && list[0].key != key {
          var i :| 0 <= i < |list| && list[i].key == key;
          assert list[1..][i - 1].key == key;
        }
      }
      if list[0].key == key then rest else [list[0]] + rest
  }

  /** Filtering distributes over concatenation, so the kept entries stay in their
      original relative order. */
  lemma {:induction false} RemoveKeyAppend(a: seq<Shortcut>, b: seq<Shortcut>, key: string)
    ensures RemoveKey(a + b, key) == RemoveKey(a, key) + RemoveKey(b, key)
  {
    if a != [] {
      assert (a + b)[1..] == a[1..] + b;
      RemoveKeyAppend(a[1..], b, key);
    } else {
      assert a + b == b;
    }
  }

  /** The `some` scan of `addShortcut`, entry by entry. */
  method FindKey(list: seq<Shortcut>, key: string) returns (found: bool)
    ensures found <==> HasKey(list, key)
  {
    found := false;
    var i := 0;
    while i < |list|
      invariant 0 <= i <= |list|
      invariant found <==> exists j :: 0 <= j < i && list[j].key == key
    {
      if list[i].key == key {
        found := true;
      }
      i := i + 1;
    }
  }

  /** Appending an entry whose key is not yet taken keeps the keys unique. */
  lemma AppendKeepsUnique(list: seq<Shortcut>, s: Shortcut)
    requires KeysUnique(list) && !HasKey(list, s.key)
    ensures KeysUnique(list + [s])
  {
    var l := list + [s];
    forall i, j | 0 <= i < j < |l| ensures l[i].key != l[j].key {
      if j == |list| {
        assert l[i] == list[i];
      } else {
        assert l[i] == list[i] && l[j] == list[j];
      }
    }
  }

  /** For a key that is already trimmed (as the validator leaves it), the stored entry
      keeps the upper-cased key the uniqueness check compared against, so appending it
      to a list without that key keeps the keys unique. */
  lemma AddKeepsUnique(list: seq<Shortcut>, key: string, text: string)
    requires !HasKey(list, Upper(key))
    ensures Trim(key) == key && KeysUnique(list) ==>
              KeysUnique(list + [StoredShortcut(Upper(key), Trim(text))])
  {
    if Trim(key) == key && KeysUnique(list) {
      TrimOfUpperTrimmed(key);
      UpperIdempotent(key);
      AppendKeepsUnique(list, StoredShortcut(Upper(key), Trim(text)));
    }
  }

  /** Replaces the stored list and saves the user, which is not new and whose token is
      unchanged, so the hash stays as it is. The save succeeds exactly when the schema
      validators accept the document with the new list. */
  method SaveWithShortcuts(user: User, list: seq<Shortcut>, hash: string -> string) returns (saved: bool)
    requires !user.isNew && !user.tokenModified
    modifies user
    ensures user.shortcuts == list && user.hashedToken == old(user.hashedToken)
    ensures user.tokenPrefix == old(user.tokenPrefix) && user.username == old(user.username)
    ensures user.avatar == old(user.avatar)
    ensures user.StreakOf() == old(user.StreakOf()) && user.StatsOf() == old(user.StatsOf())
    ensures saved <==> user.SchemaValid()
  {
    user.shortcuts := list;
    var outcome := user.Save(hash, false);
    saved := outcome == Saved;
  }

  datatype AddResponse = ShortcutExists | ShortcutAdded(key: string, text: string) | AddFailed
  {
    function Status(): int
    {
      match this
      case ShortcutExists => 409
      case ShortcutAdded(_, _) => 201
      case AddFailed => 500
    }
  }

  /** `addShortcut`. If some entry already has the upper-cased key: 409 and the list is
      untouched. Otherwise exactly one entry is appended (upper-cased key, trimmed text,
      then the schema setters), the entries before it unchanged, and the user saved:
      201, or 500 when validation refuses the save. A trimmed key keeps keys unique. */
  method AddShortcut(user: User, key: string, text: string, hash: string -> string)
    returns (response: AddResponse)
    requires !user.isNew && !user.tokenModified
    modifies user
    ensures HasKey(old(user.shortcuts), Upper(key)) ==> response == ShortcutExists && unchanged(user)
    ensures !HasKey(old(user.shortcuts), Upper(key)) ==>
              && user.shortcuts == old(user.shortcuts) + [StoredShortcut(Upper(key), Trim(text))]
              && user.hashedToken == old(user.hashedToken)
              && user.StreakOf() == old(user.StreakOf()) && user.StatsOf() == old(user.StatsOf())
              && (response == ShortcutAdded(Upper(key), Trim(text)) <==> user.SchemaValid())
              && (response == AddFailed <==> !user.SchemaValid())
    ensures Trim(key) == key && KeysUnique(old(user.shortcuts)) ==> KeysUnique(user.shortcuts)
  {
    var upper := Upper(key);
    var taken := FindKey(user.shortcuts, upper);
    if taken {
      return ShortcutExists;
    }
    var entry := StoredShortcut(upper, Trim(text));
    AddKeepsUnique(user.shortcuts, key, text);
    var saved := SaveWithShortcuts(user, user.shortcuts + [entry], hash);
    response := if saved then ShortcutAdded(upper, Trim(text)) else AddFailed;
  }

  datatype DeleteResponse = ShortcutNotFound | ShortcutDeleted | DeleteFailed
  {
    function Status(): int
    {
      match this
      case ShortcutNotFound => 404
      case ShortcutDeleted => 200
      case DeleteFailed => 500
    }
  }

  /** `deleteShortcut`: every entry whose key is the upper-cased key is removed, the
      others kept in order. When nothing was removed the answer is 404 and nothing is
      saved; otherwise the user is saved (200, or 500 when validation refuses). */
  method DeleteShortcut(user: User, key: string, hash: string -> string)
    returns (response: DeleteResponse)
    requires !user.isNew && !user.tokenModified
    modifies user
    ensures user.shortcuts == RemoveKey(old(user.shortcuts), Upper(key))
    ensures !HasKey(old(user.shortcuts), Upper(key)) ==> response == ShortcutNotFound && unchanged(user)
    ensures HasKey(old(user.shortcuts), Upper(key)) ==>
              && user.hashedToken == old(user.hashedToken)
              && user.StreakOf() == old(user.StreakOf()) && user.StatsOf() == old(user.StatsOf())
              && (response == ShortcutDeleted <==> user.SchemaValid())
              && (response == DeleteFailed <==> !user.SchemaValid())
  {
    var remaining := RemoveKey(user.shortcuts, Upper(key));
    if |remaining| == |user.shortcuts| {
      return ShortcutNotFound;
    }
    var saved := SaveWithShortcuts(user, remaining, hash);
    response := if saved then ShortcutDeleted else DeleteFailed;
  }
}
