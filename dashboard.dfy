/** The dashboard's pure logic (frontend/src/pages/Dashboard.jsx): the search and
    archive filter over the listed stacks, the archive toggle's request body and the
    profile-setup trigger, together with the fields `getStacks`
    (backend/src/controllers/stack.controller.js) lists for each stack. */
module Dashboard {
  import opened Wrappers
  import opened Text
  import opened UserModel
  import opened StackModel
  import opened UserController
  import opened StackController
  import opened Validation

  /** A stack as the dashboard receives it. A field the listing does not select is
      absent (`undefined`), which reads as false. */
  datatype Listed = Listed(name: string, note: Option<string>, isArchived: Option<bool>)

  /** `stack.isArchived` as a condition. */
  predicate Archived(d: Listed)
  {
    d.isArchived == Some(true)
  }

  /** The search: the lower-cased term occurs in the lower-cased name, or in the
      lower-cased note when there is one. */
  predicate MatchesSearch(d: Listed, term: string)
  {
    Contains(Lower(d.name), Lower(term)) || (d.note.Some? && Contains(Lower(d.note.value), Lower(term)))
  }

  /** The archive filter: 'archived' keeps archived stacks, 'active' the others, and
      'all' or any other value keeps every stack. */
  predicate MatchesFilter(d: Listed, filter: string)
  {
    if filter == "all" then true
    else if filter == "archived" then Archived(d)
    else if filter == "active" then !Archived(d)
    else true
  }

  predicate Shown(d: Listed, term: string, filter: string)
  {
    MatchesSearch(d, term) && MatchesFilter(d, filter)
  }

  /** `filteredStacks`: the stacks both the search and the archive filter keep. */
  function FilteredStacks(stacks: seq<Listed>, term: string, filter: string): (r: seq<Listed>)
    ensures |r| <= |stacks|
    ensures forall d :: d in r <==> d in stacks && Shown(d, term, filter)
  {
    if stacks == [] then []
    else if Shown(stacks[0], term, filter) then [stacks[0]] + FilteredStacks(stacks[1..], term, filter)
    else FilteredStacks(stacks[1..], term, filter)
  }

  /** Filtering a list in two parts filters each part, so the shown stacks keep the
      order of the listing. */
  lemma {:induction false} FilterDistributes(a: seq<Listed>, b: seq<Listed>, term: string, filter: string)
    ensures FilteredStacks(a + b, term, filter) == FilteredStacks(a, term, filter) + FilteredStacks(b, term, filter)
  {
    if a != [] {
      var c := a + b;
      assert c[0] == a[0] && c[1..] == a[1..] + b;
      FilterDistributes(a[1..], b, term, filter);
      var rest := FilteredStacks(a[1..], term, filter);
      if Shown(a[0], term, filter) {
        assert FilteredStacks(c, term, filter) == [a[0]] + (rest + FilteredStacks(b, term, filter));
        assert [a[0]] + (rest + FilteredStacks(b, term, filter)) == ([a[0]] + rest) + FilteredStacks(b, term, filter);
      }
    } else {
      assert a + b == b;
    }
  }

  /** A listing none of whose stacks the filter keeps shows nothing. */
  lemma {:induction false} NoneShown(stacks: seq<Listed>, term: string, filter: string)
    requires forall i :: 0 <= i < |stacks| ==> !Shown(stacks[i], term, filter)
    ensures FilteredStacks(stacks, term, filter) == []
  {
    if stacks != [] {
      NoneShown(stacks[1..], term, filter);
    }
  }

  /** An empty search term matches every stack. */
  lemma EmptyTermMatches(d: Listed)
    ensures MatchesSearch(d, "")
  {
    assert Lower("") == "";
    ContainsEmpty(Lower(d.name));
  }

  /** With an empty search and the 'all' filter, or any filter value the dashboard does
      not know, every stack is shown in the listed order. */
  lemma {:induction false} NoFilterShowsAll(stacks: seq<Listed>, filter: string)
    requires filter != "archived" && filter != "active"
    ensures FilteredStacks(stacks, "", filter) == stacks
  {
    if stacks != [] {
      EmptyTermMatches(stacks[0]);
      NoFilterShowsAll(stacks[1..], filter);
      assert stacks == [stacks[0]] + stacks[1..];
    }
  }

  /** The 'archived' and 'active' views split the shown stacks between them. */
  lemma ViewsPartition(d: Listed, term: string)
    ensures MatchesSearch(d, term) ==> (Shown(d, term, "archived") <==> !Shown(d, term, "active"))
    ensures Shown(d, term, "archived") || Shown(d, term, "active") <==> Shown(d, term, "all")
  {
  }

  /** `handleArchiveStack`'s body: the negation of the stack's flag as the dashboard
      holds it. */
  function ToggleBody(d: Listed): (r: UpdateBody)
    ensures r == ArchiveBody(!Archived(d))
    ensures r.isArchived == Some(!Archived(d)) && r.name.None?
  {
    ArchiveBody(!Archived(d))
  }

  /** The fields `getStacks` selects: name, note and the playing fields, but not
      `isArchived`. */
  function ListedAsWritten(s: Stack): (r: Listed)
    ensures r.name == s.name && r.note == s.note && r.isArchived.None?
  {
    Listed(s.name, s.note, None)
  }

  /** The listing with `isArchived` selected as well. */
  function ListedWithFlag(s: Stack): (r: Listed)
    ensures r.name == s.name && r.note == s.note && (Archived(r) <==> s.isArchived)
  {
    Listed(s.name, s.note, Some(s.isArchived))
  }

  function ListingAsWritten(stacks: seq<Stack>): (r: seq<Listed>)
    ensures |r| == |stacks| && forall i :: 0 <= i < |r| ==> r[i] == ListedAsWritten(stacks[i])
  {
    seq(|stacks|, i requires 0 <= i < |stacks| => ListedAsWritten(stacks[i]))
  }

  function Listing(stacks: seq<Stack>): (r: seq<Listed>)
    ensures |r| == |stacks| && forall i :: 0 <= i < |r| ==> r[i] == ListedWithFlag(stacks[i])
  {
    seq(|stacks|, i requires 0 <= i < |stacks| => ListedWithFlag(stacks[i]))
  }

  /** As listed, no stack reads as archived: the 'archived' view is always empty, and
      the toggle always asks to archive, even a stack that is archived already. */
  lemma ArchivedViewEmptyAsWritten(stacks: seq<Stack>, term: string, s: Stack)
    ensures FilteredStacks(ListingAsWritten(stacks), term, "archived") == []
    ensures ToggleBody(ListedAsWritten(s)) == ArchiveBody(true)
  {
    NoneShown(ListingAsWritten(stacks), term, "archived");
  }

  /** With the flag listed, the 'archived' view shows exactly the archived stacks that
      match the search, and the toggle, once the update chain lets it through, flips
      the stored flag. */
  lemma ArchivedViewShowsArchived(stacks: seq<Stack>, term: string, s: Stack)
    ensures forall i :: 0 <= i < |stacks| ==>
              (ListedWithFlag(stacks[i]) in FilteredStacks(Listing(stacks), term, "archived") <==>
               stacks[i].isArchived && MatchesSearch(ListedWithFlag(stacks[i]), term))
    ensures PatchStack(Some(s), ToggleBody(ListedWithFlag(s))) == Handled(StackUpdated(s.(isArchived := !s.isArchived)))
  {
    forall i | 0 <= i < |stacks|
      ensures ListedWithFlag(stacks[i]) in Listing(stacks)
    {
      assert Listing(stacks)[i] == ListedWithFlag(stacks[i]);
    }
    ArchiveToggleApplied(s, !s.isArchived);
  }

  /** The profile-setup dialog opens when a user is loaded whose username is missing
      or empty. */
  predicate ProfileSetupOpens(user: Option<UserRecord>)
  {
    user.Some? && user.value.username.GetOr("") == ""
  }

  /** A user who registered without a username is asked for one, and once a username
      the profile update accepts has been stored, the dialog no longer opens. */
  lemma ProfileSetupUntilNamed(u: UserRecord, name: string)
    requires UsernameWithinLimits(Trim(name))
    ensures u.username.None? ==> ProfileSetupOpens(Some(u))
    ensures !ProfileSetupOpens(Some(u.(username := Some(Trim(name)))))
    ensures !ProfileSetupOpens(None)
  {
  }
}
