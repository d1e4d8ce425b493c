/**
 * The field-service groups view: the accent-insensitive search over group names and the names
 * of the people a group refers to, the natural order of the list, and the create / edit form
 * (which users may be picked as supervisor, auxiliary or member, and the group a save builds).
 *
 * The view compares users with group references by trailing id, the text after the last ':'
 * of the reference, except where the form collects the members of other groups: there it uses
 * the bare local id of each member reference.
 */
module FieldServiceGroups {
  import opened Common
  import opened Text
  import opened Records
  import opened Seqs
  import opened NaturalSort

  // ---------------------------------------------------------------- search

  /** The user a group reference points at: the first user with the same trailing id. */
  function Resolve(users: seq<User>, r: Ref): Option<User> {
    FindByTrailingId(users, TrailingId(r))
  }

  /** The reference resolves to a user whose normalized "first last" contains `q`. */
  predicate RefMatches(users: seq<User>, r: Ref, q: string) {
    match Resolve(users, r)
    case Some(u) => Contains(Normalize(FullName(u)), q)
    case None => false
  }

  predicate OptRefMatches(users: seq<User>, r: Option<Ref>, q: string) {
    r.Some? && RefMatches(users, r.value, q)
  }

  /** A group matches a normalized query through its name, its supervisor, its auxiliary or
      any of its members. */
  predicate GroupMatches(users: seq<User>, g: Group, q: string) {
    Contains(Normalize(g.name), q)
    || OptRefMatches(users, g.supervisor, q)
    || OptRefMatches(users, g.auxiliary, q)
    || exists i | 0 <= i < |g.members| :: RefMatches(users, g.members[i], q)
  }

  /** Group order: the natural keys of the names. */
  predicate NameLe(a: Group, b: Group) {
    KeyLe(Key(a.name), Key(b.name))
  }

  lemma NameLeTotal(s: seq<Group>)
    ensures TotalOn(s, NameLe)
  {
    forall i, j | 0 <= i < |s| && 0 <= j < |s| ensures NameLe(s[i], s[j]) || NameLe(s[j], s[i]) {
      KeyLeTotal(Key(s[i].name), Key(s[j].name));
    }
  }

  /** `apply_search`: with a query that normalizes to nothing every group is listed, otherwise
      the matching ones; either way in natural name order. */
  function ApplySearch(groups: seq<Group>, users: seq<User>, query: string): (r: seq<Group>)
    ensures forall g :: g in r <==> g in groups && (Normalize(query) == [] || GroupMatches(users, g, Normalize(query)))
    ensures SortedBy(r, NameLe)
    ensures multiset(r) <= multiset(groups)
    ensures Normalize(query) == [] ==> multiset(r) == multiset(groups)
  {
    var q := Normalize(query);
    var filtered := if q == [] then groups else Filter(groups, g => GroupMatches(users, g, q));
    NameLeTotal(filtered);
    SortBySameElements(filtered, NameLe);
    SortBy(filtered, NameLe)
  }

  /** A group that matches a longer query also matches its prefix. */
  lemma GroupMatchesPrefix(users: seq<User>, g: Group, a: string, b: string)
    requires GroupMatches(users, g, a + b)
    ensures GroupMatches(users, g, a)
  {
    if Contains(Normalize(g.name), a + b) {
      ContainsPrefix(Normalize(g.name), a, b);
    } else if OptRefMatches(users, g.supervisor, a + b) {
      ContainsPrefix(Normalize(FullName(Resolve(users, g.supervisor.value).value)), a, b);
    } else if OptRefMatches(users, g.auxiliary, a + b) {
      ContainsPrefix(Normalize(FullName(Resolve(users, g.auxiliary.value).value)), a, b);
    } else {
      var i :| 0 <= i < |g.members| && RefMatches(users, g.members[i], a + b);
      ContainsPrefix(Normalize(FullName(Resolve(users, g.members[i]).value)), a, b);
      assert RefMatches(users, g.members[i], a);
    }
  }

  /** Typing more into the search box can only narrow the list. */
  lemma SearchNarrows(groups: seq<Group>, users: seq<User>, query: string, more: string)
    ensures forall g :: g in ApplySearch(groups, users, query + more) ==> g in ApplySearch(groups, users, query)
  {
    NormalizeAppend(query, more);
    forall g | g in ApplySearch(groups, users, query + more)
      ensures g in ApplySearch(groups, users, query)
    {
      if Normalize(query) != [] {
        GroupMatchesPrefix(users, g, Normalize(query), Normalize(more));
      }
    }
  }

  /** A search finds a group through its supervisor's name, whatever the accents or case. */
  lemma SearchFindsSupervisor(groups: seq<Group>, users: seq<User>, query: string, g: Group, i: nat)
    requires g in groups && g.supervisor.Some?
    requires FirstMatchAt(users, TrailingId(g.supervisor.value), i)
    requires Contains(Normalize(FullName(users[i])), Normalize(query))
    ensures g in ApplySearch(groups, users, query)
  {
    var u := Resolve(users, g.supervisor.value);
    var k :| FirstMatchAt(users, TrailingId(g.supervisor.value), k) && users[k] == u.value;
    FirstMatchUnique(users, TrailingId(g.supervisor.value), i, k);
  }

  /** "jose" finds "José Silva". */
  lemma AccentInsensitiveExample()
    ensures Contains(Normalize("José Silva"), Normalize("jose"))
  {
    var n := Normalize("José Silva");
    NormalizeAppend("José", " Silva");
    assert "José" + " Silva" == "José Silva";
    assert Normalize("José") == "jose" == Normalize("jose");
    assert n[..4] == "jose";
    assert OccursAt(n, Normalize("jose"), 0);
  }

  // ---------------------------------------------------------------- names shown in the list

  const NOT_ASSIGNED := "Not assigned"

  /** `get_user_name`: "first last" of the referenced user, or "Not assigned". */
  function UserName(users: seq<User>, r: Option<Ref>): (s: string)
    ensures r.None? ==> s == NOT_ASSIGNED
    ensures r.Some? && (forall u :: u in users ==> !HasTrailingId(u, TrailingId(r.value))) ==> s == NOT_ASSIGNED
    ensures r.Some? ==> forall i :: FirstMatchAt(users, TrailingId(r.value), i) ==> s == FullName(users[i])
  {
    match r
    case None => NOT_ASSIGNED
    case Some(ref) =>
      var found := Resolve(users, ref);
      if found.None? then NOT_ASSIGNED
      else
        var k :| FirstMatchAt(users, TrailingId(ref), k) && users[k] == found.value;
        assert forall i :: FirstMatchAt(users, TrailingId(ref), i) ==> i == k by {
          forall i | FirstMatchAt(users, TrailingId(ref), i) ensures i == k {
            FirstMatchUnique(users, TrailingId(ref), i, k);
          }
        }
        FullName(found.value)
  }

  /** The display name of the user a member reference resolves to. */
  function MemberName(users: seq<User>, m: Ref, order: Option<NameOrder>): Option<string> {
    match Resolve(users, m)
    case Some(u) => Some(DisplayName(u, order))
    case None => None
  }

  /** The names of the members that resolve to a user, in member order. */
  function ResolvedNames(members: seq<Ref>, users: seq<User>, order: Option<NameOrder>): (r: seq<string>)
    ensures |r| <= |members|
    ensures forall i :: 0 <= i < |members| && MemberName(users, members[i], order).Some? ==>
      MemberName(users, members[i], order).value in r
    ensures forall x :: x in r ==> exists i :: 0 <= i < |members| && MemberName(users, members[i], order) == Some(x)
    ensures (forall i :: 0 <= i < |members| ==> MemberName(users, members[i], order).Some?) ==>
      |r| == |members| && forall i :: 0 <= i < |members| ==> r[i] == MemberName(users, members[i], order).value
  {
    var r := FilterMap(members, m => MemberName(users, m, order));
    assert forall x :: x in r ==> ImageOf(members, m => MemberName(users, m, order), x);
    r
  }

  /** Each member contributes its own name, or nothing when it resolves to no user, and the
      names of a longer list are those of its parts in order: one name per resolvable member,
      in member order. */
  lemma ResolvedNamesInOrder(a: seq<Ref>, b: seq<Ref>, m: Ref, users: seq<User>, order: Option<NameOrder>)
    ensures ResolvedNames(a + b, users, order) == ResolvedNames(a, users, order) + ResolvedNames(b, users, order)
    ensures ResolvedNames([m], users, order) ==
      if MemberName(users, m, order).Some? then [MemberName(users, m, order).value] else []
  {
    FilterMapAppend(a, b, m => MemberName(users, m, order));
    FilterMapSingle(m, m => MemberName(users, m, order));
  }

  /** Case-insensitive name order: compare the lower-cased names. */
  predicate LowerLe(a: string, b: string) {
    StrLe(ToLower(a), ToLower(b))
  }

  lemma LowerLeTotal(s: seq<string>)
    ensures TotalOn(s, LowerLe)
  {
    forall i, j | 0 <= i < |s| && 0 <= j < |s| ensures LowerLe(s[i], s[j]) || LowerLe(s[j], s[i]) {
      StrLeTotal(ToLower(s[i]), ToLower(s[j]));
    }
  }

  /** `get_sorted_member_names`: the resolved members' display names, case-insensitively
      sorted; members that resolve to no user are dropped. */
  function SortedMemberNames(members: seq<Ref>, users: seq<User>, order: Option<NameOrder>): (r: seq<string>)
    ensures multiset(r) == multiset(ResolvedNames(members, users, order))
    ensures SortedBy(r, LowerLe)
    ensures |r| <= |members|
  {
    var names := ResolvedNames(members, users, order);
    LowerLeTotal(names);
    SortBy(names, LowerLe)
  }

  // ---------------------------------------------------------------- who is taken elsewhere

  /** The form skips the group being edited, recognised by equal ids when both have one. */
  predicate Skipped(g: Group, editing: Option<Group>) {
    editing.Some? && g.id.Some? && editing.value.id.Some? && g.id.value == editing.value.id.value
  }

  /** `x` is the printed key of a member of a group other than the edited one. */
  predicate MemberElsewhere(groups: seq<Group>, editing: Option<Group>, x: string) {
    exists i, j :: 0 <= i < |groups| && !Skipped(groups[i], editing) &&
                   0 <= j < |groups[i].members| && KeyText(groups[i].members[j].local) == x
  }

  /** `member.id.to_string()` for each reference: the printed keys, in order. */
  function MemberKeys(refs: seq<Ref>): (r: seq<string>)
    ensures |r| == |refs|
    ensures forall j :: 0 <= j < |refs| ==> r[j] == KeyText(refs[j].local)
  {
    seq(|refs|, j requires 0 <= j < |refs| => KeyText(refs[j].local))
  }

  /** `get_assigned_users`: the printed keys of the members of every group but the edited one. */
  function AssignedMembers(groups: seq<Group>, editing: Option<Group>): (r: seq<string>)
    ensures forall x :: x in r <==> MemberElsewhere(groups, editing, x)
  {
    if |groups| == 0 then []
    else
      var init := groups[..|groups| - 1];
      var g := groups[|groups| - 1];
      var rest := AssignedMembers(init, editing);
      var own := if Skipped(g, editing) then [] else MemberKeys(g.members);
      assert forall x :: MemberElsewhere(groups, editing, x) <==> MemberElsewhere(init, editing, x) || x in own by {
        forall x ensures MemberElsewhere(groups, editing, x) <==> MemberElsewhere(init, editing, x) || x in own {
          if MemberElsewhere(groups, editing, x) {
            var i, j :| 0 <= i < |groups| && !Skipped(groups[i], editing) &&
                        0 <= j < |groups[i].members| && KeyText(groups[i].members[j].local) == x;
            if i < |init| { assert init[i] == groups[i]; } else { assert own[j] == x; }
          }
          if MemberElsewhere(init, editing, x) {
            var i, j :| 0 <= i < |init| && !Skipped(init[i], editing) &&
                        0 <= j < |init[i].members| && KeyText(init[i].members[j].local) == x;
            assert init[i] == groups[i];
          }
          if x in own {
            var j :| 0 <= j < |own| && own[j] == x;
            assert KeyText(g.members[j].local) == x;
          }
        }
      }
      rest + own
  }

  datatype Role = Supervisor | Auxiliary

  function LeaderOf(g: Group, role: Role): Option<Ref> {
    match role
    case Supervisor => g.supervisor
    case Auxiliary => g.auxiliary
  }

  /** The trailing id a group puts on the list for `role`: none when it is the edited group or
      has no leader in that role. */
  function LeaderKey(g: Group, editing: Option<Group>, role: Role): Option<string> {
    if !Skipped(g, editing) && LeaderOf(g, role).Some? then Some(TrailingId(LeaderOf(g, role).value)) else None
  }

  function LeaderKeyOf(editing: Option<Group>, role: Role): Group -> Option<string> {
    (g: Group) => LeaderKey(g, editing, role)
  }

  /** `x` is the trailing id of the supervisor (auxiliary) of a group other than the edited one. */
  predicate LeadsElsewhere(groups: seq<Group>, editing: Option<Group>, role: Role, x: string) {
    ImageOf(groups, LeaderKeyOf(editing, role), x)
  }

  /** `get_assigned_supervisors` / `get_assigned_auxiliaries`: the trailing ids of the
      supervisors (auxiliaries) of every group but the edited one, in group order. */
  function AssignedLeaders(groups: seq<Group>, editing: Option<Group>, role: Role): (r: seq<string>)
    ensures forall x :: x in r <==> LeadsElsewhere(groups, editing, role, x)
    ensures |r| <= |groups|
  {
    FilterMap(groups, LeaderKeyOf(editing, role))
  }

  /** The option a user gets in the supervisor (auxiliary) select: only brothers with an id who
      lead no other group in that role; the option's value is the user's trailing id. */
  function LeaderOption(u: User, groups: seq<Group>, editing: Option<Group>, role: Role): (r: Option<string>)
    ensures r.Some? <==> u.gender && u.id.Some? && !LeadsElsewhere(groups, editing, role, TrailingId(u.id.value))
    ensures r.Some? ==> HasTrailingId(u, r.value)
  {
    if u.gender && u.id.Some? && TrailingId(u.id.value) !in AssignedLeaders(groups, editing, role) then
      Some(TrailingId(u.id.value))
    else None
  }

  /** The group being edited never hides its own leader: a brother whom no other group has as
      leader in the role is offered while the group is edited, whatever the group itself names;
      on a new group the same person is hidden when the group already leads with them. */
  lemma EditedGroupKeepsItsLeader(u: User, groups: seq<Group>, e: Group, role: Role)
    requires u.gender && u.id.Some? && e.id.Some?
    requires forall i :: 0 <= i < |groups| && groups[i].id != e.id && LeaderOf(groups[i], role).Some? ==>
      TrailingId(LeaderOf(groups[i], role).value) != TrailingId(u.id.value)
    ensures LeaderOption(u, groups, Some(e), role) == Some(TrailingId(u.id.value))
    ensures e in groups && LeaderOf(e, role) == u.id ==> LeaderOption(u, groups, None, role).None?
  {
    if e in groups && LeaderOf(e, role) == u.id {
      var i :| 0 <= i < |groups| && groups[i] == e;
      assert LeaderKeyOf(None, role)(groups[i]) == Some(TrailingId(u.id.value));
      assert LeadsElsewhere(groups, None, role, TrailingId(u.id.value));
    }
  }

  // ---------------------------------------------------------------- the form

  /** The form's state: the name, the selected supervisor and auxiliary ids ("" for none) and the
      ids of the ticked members. */
  datatype Form = Form(name: string, supervisorId: string, auxiliaryId: string, members: seq<string>)

  function TrailingOr(r: Option<Ref>): string {
    match r
    case Some(x) => TrailingId(x)
    case None => ""
  }

  /** The form as it opens: blank for a new group, the group's name and trailing ids for an
      existing one. */
  function LoadForm(existing: Option<Group>): (f: Form)
    ensures existing.None? ==> f == Form("", "", "", [])
    ensures existing.Some? ==> f.name == existing.value.name && |f.members| == |existing.value.members|
    ensures existing.Some? ==> forall i :: 0 <= i < |f.members| ==> f.members[i] == TrailingId(existing.value.members[i])
    ensures existing.Some? && existing.value.supervisor.Some? ==> f.supervisorId == TrailingId(existing.value.supervisor.value)
    ensures existing.Some? && existing.value.auxiliary.Some? ==> f.auxiliaryId == TrailingId(existing.value.auxiliary.value)
  {
    match existing
    case None => Form("", "", "", [])
    case Some(g) =>
      Form(g.name, TrailingOr(g.supervisor), TrailingOr(g.auxiliary),
        seq(|g.members|, i requires 0 <= i < |g.members| => TrailingId(g.members[i])))
  }

  /** Append `id` unless it is empty or already there. */
  function AddIfAbsent(ids: seq<string>, id: string): (r: seq<string>)
    ensures forall x :: x in r <==> x in ids || (x == id && id != [])
    ensures |ids| <= |r| <= |ids| + 1 && r[..|ids|] == ids
    ensures NoDuplicates(ids) ==> NoDuplicates(r)
  {
    if id != [] && id !in ids then ids + [id] else ids
  }

  /** Choosing in the supervisor (auxiliary) select sets the id and ticks that user. */
  function ChooseLeader(f: Form, role: Role, id: string): (g: Form)
    ensures role == Supervisor ==> g.supervisorId == id && g.auxiliaryId == f.auxiliaryId
    ensures role == Auxiliary ==> g.auxiliaryId == id && g.supervisorId == f.supervisorId
    ensures id != [] ==> id in g.members
    ensures forall x :: x in g.members <==> x in f.members || (x == id && id != [])
    ensures NoDuplicates(f.members) ==> NoDuplicates(g.members)
    ensures g.name == f.name
  {
    match role
    case Supervisor => f.(supervisorId := id, members := AddIfAbsent(f.members, id))
    case Auxiliary => f.(auxiliaryId := id, members := AddIfAbsent(f.members, id))
  }

  /** Clicking a member's checkbox: a disabled box (the user is in another group and not
      ticked here) does nothing. */
  function ClickMember(f: Form, id: string, taken: seq<string>): (g: Form)
    ensures id in taken && id !in f.members ==> g == f
    ensures id in f.members ==> id !in g.members
    ensures id !in taken && id !in f.members ==> id in g.members
  {
    if id in taken && id !in f.members then f else f.(members := Toggle(f.members, id))
  }

  /** The members list of the form: a row for every user with an id whose normalized name
      contains the normalized search; the box is disabled for users in another group unless they
      are ticked here. */
  datatype MemberRow = MemberRow(id: string, checked: bool, disabled: bool)

  function MemberRowOf(u: User, search: string, f: Form, taken: seq<string>): (r: Option<MemberRow>)
    ensures r.Some? <==> u.id.Some? && (Normalize(search) == [] || Contains(Normalize(FullName(u)), Normalize(search)))
    ensures r.Some? ==> HasTrailingId(u, r.value.id)
    ensures r.Some? ==> (r.value.checked <==> r.value.id in f.members)
    ensures r.Some? ==> (r.value.disabled <==> r.value.id in taken && r.value.id !in f.members)
  {
    if u.id.Some? then
      var id := TrailingId(u.id.value);
      var q := Normalize(search);
      if q == [] || Contains(Normalize(FullName(u)), q) then
        Some(MemberRow(id, id in f.members, id in taken && id !in f.members))
      else None
    else None
  }

  /** Clicks through the member rows never tick a user who belongs to another group. */
  lemma ClicksNeverTakeAssigned(f: Form, clicks: seq<string>, taken: seq<string>, x: string)
    requires x in taken && x !in f.members
    ensures x !in ClickAll(f, clicks, taken).members
    decreases |clicks|
  {
    if |clicks| > 0 {
      ClicksNeverTakeAssigned(ClickMember(f, clicks[0], taken), clicks[1..], taken, x);
    }
  }

  function ClickAll(f: Form, clicks: seq<string>, taken: seq<string>): Form
    decreases |clicks|
  {
    if |clicks| == 0 then f else ClickAll(ClickMember(f, clicks[0], taken), clicks[1..], taken)
  }

  /** The Save button is enabled when no save is running and the name is not blank. */
  predicate SaveEnabled(saving: bool, name: string) {
    !saving && !IsBlank(name)
  }

  lemma SaveEnabledNeedsName(saving: bool, name: string)
    ensures SaveEnabled(saving, name) <==> !saving && exists i :: 0 <= i < |name| && !IsWhitespace(name[i])
  {
    BlankIffAllWhitespace(name);
  }

  // ---------------------------------------------------------------- saving

  /** `format!("user:{}", id).parse().ok()`: a user reference, when the id is a key the parser
      reads, bare or bracketed. */
  function ParseUserRef(id: string): (r: Option<Ref>)
    ensures r.Some? <==> IsPlainId(id) || IsBracketedKey(id)
    ensures r.Some? ==> r.value.table == "user" && (id == r.value.local || id == ['⟨'] + r.value.local + ['⟩'])
    ensures IsPlainId(id) ==> r == Some(Ref("user", id))
  {
    match ParseKey(id)
    case Some(k) => Some(Ref("user", k))
    case None => None
  }

  /** Parsing the trailing id of a reference an id parsed to gives that reference again, and the
      trailing id is the id itself when the id was written the way the store prints it. */
  lemma ParseUserRefTrailing(id: string)
    requires ParseUserRef(id).Some? && ':' !in id
    ensures ParseUserRef(TrailingId(ParseUserRef(id).value)) == ParseUserRef(id)
    ensures IsPrintedKey(id) ==> TrailingId(ParseUserRef(id).value) == id
  {
    var r := ParseUserRef(id).value;
    assert ':' !in r.local by {
      if id != r.local { assert r.local == id[1..|id| - 1]; }
    }
    TrailingIdOfPlainLocal(r);
    KeyRoundTrip(r.local);
  }

  /** The references of the ids that parse, in order. */
  function UserRefs(ids: seq<string>): (r: seq<Ref>)
    ensures |r| <= |ids|
    ensures forall x :: x in r ==> x.table == "user" && exists i :: 0 <= i < |ids| && ParseUserRef(ids[i]) == Some(x)
    ensures forall i :: 0 <= i < |ids| && ParseUserRef(ids[i]).Some? ==> ParseUserRef(ids[i]).value in r
    ensures (forall i :: 0 <= i < |ids| ==> ParseUserRef(ids[i]).Some?) ==>
      |r| == |ids| && forall i :: 0 <= i < |ids| ==> r[i] == ParseUserRef(ids[i]).value
    ensures NoDuplicates(ids) && (forall i :: 0 <= i < |ids| ==> IsPrintedKey(ids[i])) ==> NoDuplicates(r)
  {
    var r := FilterMap(ids, ParseUserRef);
    assert forall x :: x in r ==> ImageOf(ids, ParseUserRef, x);
    assert NoDuplicates(ids) && (forall i :: 0 <= i < |ids| ==> IsPrintedKey(ids[i])) ==> NoDuplicates(r) by {
      if NoDuplicates(ids) && (forall i :: 0 <= i < |ids| ==> IsPrintedKey(ids[i])) {
        FilterMapDistinct(ids, ParseUserRef);
      }
    }
    r
  }

  datatype Mode = Create | Edit

  const NO_GROUP := "No group to update"
  const GROUP_HAS_NO_ID := "Group has no ID"

  /** The leader reference a save stores: none for an empty id. */
  function LeaderRef(id: string): Option<Ref> {
    if id == [] then None else ParseUserRef(id)
  }

  /** An id the save turns into a member: a ticked member, the supervisor or the auxiliary. */
  predicate SavedId(f: Form, id: string) {
    id in f.members || id == f.supervisorId || id == f.auxiliaryId
  }

  /** Every id of the form is written as the store prints keys, as the trailing ids the form is
      filled from are. */
  predicate PrintedIds(f: Form) {
    (forall i :: 0 <= i < |f.members| ==> IsPrintedKey(f.members[i]))
    && IsPrintedKey(f.supervisorId) && IsPrintedKey(f.auxiliaryId)
  }

  /** The ids a save collects: the ticked members, then the supervisor and the auxiliary when
      they are not empty and not ticked. */
  function SavedIds(f: Form): (all: seq<string>)
    ensures forall x :: x in all <==> SavedId(f, x) && (x in f.members || x != [])
    ensures NoDuplicates(f.members) ==> NoDuplicates(all)
    ensures PrintedIds(f) ==> forall i :: 0 <= i < |all| ==> IsPrintedKey(all[i])
  {
    var all := AddIfAbsent(AddIfAbsent(f.members, f.supervisorId), f.auxiliaryId);
    assert PrintedIds(f) ==> forall i :: 0 <= i < |all| ==> IsPrintedKey(all[i]) by {
      if PrintedIds(f) {
        forall i | 0 <= i < |all| ensures IsPrintedKey(all[i]) {
          assert all[i] in all;
          if all[i] in f.members { var j :| 0 <= j < |f.members| && f.members[j] == all[i]; }
        }
      }
    }
    all
  }

  /** The references a save stores as members. */
  function SavedMembers(f: Form): (r: seq<Ref>)
    ensures forall m :: m in r <==> exists id :: SavedId(f, id) && ParseUserRef(id) == Some(m)
    ensures NoDuplicates(f.members) && PrintedIds(f) ==> NoDuplicates(r)
  {
    var all := SavedIds(f);
    forall id | SavedId(f, id) && ParseUserRef(id).Some? ensures ParseUserRef(id).value in UserRefs(all) {
      var i :| 0 <= i < |all| && all[i] == id;
    }
    UserRefs(all)
  }

  /** `handle_save`: the supervisor and auxiliary are added to the members, every id becomes a
      `user:` reference, and a new group gets no id while an edited one keeps its own. */
  function BuildGroup(mode: Mode, existing: Option<Group>, f: Form): (r: Result<Group>)
    ensures mode == Create ==> r.Ok? && r.value.id.None?
    ensures mode == Edit && existing.None? ==> r == Err(NO_GROUP)
    ensures mode == Edit && existing.Some? && existing.value.id.None? ==> r == Err(GROUP_HAS_NO_ID)
    ensures mode == Edit && existing.Some? && existing.value.id.Some? ==> r.Ok? && r.value.id == existing.value.id
    ensures r.Ok? ==> r.value.name == f.name
    ensures r.Ok? && ParseUserRef(f.supervisorId).Some? ==>
      r.value.supervisor == ParseUserRef(f.supervisorId) && r.value.supervisor.value in r.value.members
    ensures r.Ok? && ParseUserRef(f.supervisorId).None? ==> r.value.supervisor.None?
    ensures r.Ok? && ParseUserRef(f.auxiliaryId).Some? ==>
      r.value.auxiliary == ParseUserRef(f.auxiliaryId) && r.value.auxiliary.value in r.value.members
    ensures r.Ok? && ParseUserRef(f.auxiliaryId).None? ==> r.value.auxiliary.None?
    ensures r.Ok? ==> forall m :: m in r.value.members <==> exists id :: SavedId(f, id) && ParseUserRef(id) == Some(m)
    ensures r.Ok? && NoDuplicates(f.members) && PrintedIds(f) ==> NoDuplicates(r.value.members)
  {
    var members := SavedMembers(f);
    var sup := LeaderRef(f.supervisorId);
    var aux := LeaderRef(f.auxiliaryId);
    assert sup.Some? ==> sup.value in members by {
      if sup.Some? { assert SavedId(f, f.supervisorId); }
    }
    assert aux.Some? ==> aux.value in members by {
      if aux.Some? { assert SavedId(f, f.auxiliaryId); }
    }
    match mode
    case Create => Ok(Group(None, f.name, sup, aux, members))
    case Edit =>
      match existing
      case None => Err(NO_GROUP)
      case Some(g) =>
        if g.id.Some? then Ok(Group(g.id, f.name, sup, aux, members)) else Err(GROUP_HAS_NO_ID)
  }

  /** A group the form can represent exactly: `user:` references whose keys survive printing
      and parsing, no member twice, and its supervisor and auxiliary among its members. */
  predicate Representable(g: Group) {
    (forall i :: 0 <= i < |g.members| ==> g.members[i].table == "user" && IsFormKey(g.members[i].local))
    && NoDuplicates(g.members)
    && (g.supervisor.Some? ==> g.supervisor.value in g.members)
    && (g.auxiliary.Some? ==> g.auxiliary.value in g.members)
  }

  /** Opening a group in the form and saving it unchanged stores the same group. */
  lemma EditRoundTrip(g: Group)
    requires g.id.Some? && Representable(g)
    ensures BuildGroup(Edit, Some(g), LoadForm(Some(g))) == Ok(g)
  {
    var f := LoadForm(Some(g));
    LoadedMembersSaveBack(g);
    LeaderRoundTrip(g.supervisor);
    LeaderRoundTrip(g.auxiliary);
    assert BuildGroup(Edit, Some(g), f) == Ok(Group(g.id, f.name, LeaderRef(f.supervisorId), LeaderRef(f.auxiliaryId), SavedMembers(f)));
  }

  /** The leaders of a loaded group are already ticked, so a save collects its members only. */
  lemma LoadedMembersSaveBack(g: Group)
    requires Representable(g)
    ensures SavedMembers(LoadForm(Some(g))) == g.members
  {
    var f := LoadForm(Some(g));
    MembersRoundTrip(g);
    assert f.supervisorId == [] || f.supervisorId in f.members by {
      if g.supervisor.Some? {
        var i :| 0 <= i < |g.members| && g.members[i] == g.supervisor.value;
        assert f.members[i] == f.supervisorId;
      }
    }
    assert f.auxiliaryId == [] || f.auxiliaryId in f.members by {
      if g.auxiliary.Some? {
        var i :| 0 <= i < |g.members| && g.members[i] == g.auxiliary.value;
        assert f.members[i] == f.auxiliaryId;
      }
    }
    var once := AddIfAbsent(f.members, f.supervisorId);
    assert once == f.members;
    assert SavedIds(f) == f.members;
  }

  /** A loaded form holds only printed keys, so a save of it keeps members distinct. */
  lemma LoadedFormIsPrinted(g: Group)
    requires Representable(g)
    ensures PrintedIds(LoadForm(Some(g)))
  {
    var f := LoadForm(Some(g));
    MembersRoundTrip(g);
    forall i | 0 <= i < |f.members| ensures IsPrintedKey(f.members[i]) {
      KeyTextIsPrinted(g.members[i].local);
    }
    assert IsPrintedKey(f.supervisorId) by {
      if g.supervisor.Some? {
        var i :| 0 <= i < |g.members| && g.members[i] == g.supervisor.value;
        assert f.members[i] == f.supervisorId;
      } else {
        assert f.supervisorId == [];
      }
    }
    assert IsPrintedKey(f.auxiliaryId) by {
      if g.auxiliary.Some? {
        var i :| 0 <= i < |g.members| && g.members[i] == g.auxiliary.value;
        assert f.members[i] == f.auxiliaryId;
      } else {
        assert f.auxiliaryId == [];
      }
    }
  }

  /** The form shows a representable group's members by their printed keys, and saving turns
      those ids back into the same references. */
  lemma MembersRoundTrip(g: Group)
    requires Representable(g)
    ensures var f := LoadForm(Some(g));
      (forall i :: 0 <= i < |g.members| ==> f.members[i] == KeyText(g.members[i].local)) && UserRefs(f.members) == g.members
  {
    var f := LoadForm(Some(g));
    forall i | 0 <= i < |g.members|
      ensures f.members[i] == KeyText(g.members[i].local)
      ensures ParseUserRef(f.members[i]) == Some(g.members[i])
    {
      TrailingIdOfPlainLocal(g.members[i]);
      KeyRoundTrip(g.members[i].local);
    }
  }

  /** A leader shows as its printed key and saving turns it back into the same reference. */
  lemma LeaderRoundTrip(o: Option<Ref>)
    requires o.Some? ==> o.value.table == "user" && IsFormKey(o.value.local)
    ensures LeaderRef(TrailingOr(o)) == o
    ensures o.Some? ==> TrailingOr(o) == KeyText(o.value.local)
  {
    if o.Some? {
      TrailingIdOfPlainLocal(o.value);
      KeyRoundTrip(o.value.local);
    }
  }
}
