// The user administration hook: the e-mail filter sent with the user search,
// the list order that puts the signed-in administrator first, the roles an
// administrator may hand out, and the local list updates after a role is
// assigned or an account is switched on or off.

module Users {

  import opened Common

  /** A role as the server lists it. */
  datatype Role = Role(name: string)

  /** A row of the user list; `roles` is missing for users that have none. */
  datatype User = User(id: int, email: string, isActive: bool, roles: Option<seq<string>>)

  /** The signed-in account's profile (`currentUser`). */
  datatype Profile = Profile(email: string, roles: Option<seq<string>>)

  /** `roles || []` */
  function RolesOf(roles: Option<seq<string>>): seq<string> {
    if roles.Some? then roles.value else []
  }

  // ---------------------------------------------------------------------
  // Search filter

  /**
   * buildFiltersArray: one non-range "email" filter carrying the term as
   * typed, unless the term is blank.
   */
  method BuildEmailFilters(searchTerm: string) returns (filtersArray: seq<FilterEntry>)
    ensures AllSpace(searchTerm) ==> filtersArray == []
    ensures !AllSpace(searchTerm) ==> filtersArray == [FilterEntry("email", searchTerm, false)]
  {
    BlankIffAllSpace(searchTerm);
    filtersArray := [];
    if Trim(searchTerm) != "" {
      filtersArray := filtersArray + [FilterEntry("email", searchTerm, false)];
    }
  }

  // ---------------------------------------------------------------------
  // Current user first

  /** The rows of the signed-in account. */
  function SameEmail(email: string): User -> bool {
    (u: User) => u.email == email
  }

  /** All other rows. */
  function OtherEmail(email: string): User -> bool {
    (u: User) => u.email != email
  }

  /**
   * What getSortedUsers returns: the list itself when nobody is signed in,
   * otherwise the signed-in account's rows first and the others after them,
   * both in list order (a stable sort whose comparator puts that e-mail
   * before every other).
   */
  function CurrentUserFirst(usersList: seq<User>, currentUser: Option<Profile>): seq<User> {
    if currentUser.None? then usersList
    else
      var email := currentUser.value.email;
      Filter(usersList, SameEmail(email)) + Filter(usersList, OtherEmail(email))
  }

  /** Appending a row puts it at the end of its group. */
  lemma PartitionSnoc(s: seq<User>, x: User, email: string)
    ensures Filter(s + [x], SameEmail(email)) == Filter(s, SameEmail(email)) + (if x.email == email then [x] else [])
    ensures Filter(s + [x], OtherEmail(email)) == Filter(s, OtherEmail(email)) + (if x.email == email then [] else [x])
  {
    FilterConcat(s, [x], SameEmail(email));
    FilterConcat(s, [x], OtherEmail(email));
  }

  /**
   * Moves the row at position `i` to position `k`, shifting the rows
   * between them one place to the right.
   */
  method MoveForward(a: array<User>, k: int, i: int)
    requires 0 <= k <= i < a.Length
    modifies a
    ensures a[..k] == old(a[..k])
    ensures a[k] == old(a[i])
    ensures a[k + 1..i + 1] == old(a[k..i])
    ensures a[i + 1..] == old(a[i + 1..])
  {
    var x := a[i];
    var j := i;
    while j > k
      invariant k <= j <= i
      invariant forall t :: 0 <= t < j ==> a[t] == old(a[t])
      invariant forall t :: j < t <= i ==> a[t] == old(a[t - 1])
      invariant forall t :: i < t < a.Length ==> a[t] == old(a[t])
    {
      a[j] := a[j - 1];
      j := j - 1;
    }
    a[k] := x;
    forall t | 0 <= t < i - k
      ensures a[k + 1..i + 1][t] == old(a[k..i])[t]
    {
      assert a[k + 1 + t] == old(a[k + t]);
    }
  }

  /**
   * getSortedUsers: copies the list into an array and moves each row of the
   * signed-in account forward past the other rows, keeping both groups in
   * their original order.
   */
  method SortUsers(usersList: seq<User>, currentUser: Option<Profile>) returns (sorted: seq<User>)
    ensures sorted == CurrentUserFirst(usersList, currentUser)
  {
    if currentUser.None? {
      return usersList;
    }
    var email := currentUser.value.email;
    var a := new User[|usersList|](i requires 0 <= i < |usersList| => usersList[i]);
    var i := 0;
    var k := 0;
    while i < a.Length
      invariant a.Length == |usersList|
      invariant Grouped(a[..], usersList, email, k, i)
    {
      if a[i].email == email {
        ghost var before := a[..];
        MoveForward(a, k, i);
        GroupedOwnRow(before, a[..], usersList, email, k, i);
        k := k + 1;
      } else {
        GroupedOtherRow(a[..], usersList, email, k, i);
      }
      i := i + 1;
    }
    assert usersList[..a.Length] == usersList;
    assert a[..] == a[..k] + a[k..a.Length];
    sorted := a[..];
  }

  /**
   * The loop invariant of getSortedUsers: after `i` rows, the first `k`
   * places hold the account's rows so far, the next ones the other rows so
   * far, and the rest is untouched.
   */
  ghost predicate Grouped(a: seq<User>, usersList: seq<User>, email: string, k: int, i: int) {
    && 0 <= k <= i <= |a| == |usersList|
    && a[..k] == Filter(usersList[..i], SameEmail(email))
    && a[k..i] == Filter(usersList[..i], OtherEmail(email))
    && a[i..] == usersList[i..]
  }

  /** Moving a row of the account forward to place `k` extends the first group. */
  lemma GroupedOwnRow(before: seq<User>, after: seq<User>, usersList: seq<User>, email: string, k: int, i: int)
    requires Grouped(before, usersList, email, k, i) && i < |before| && before[i].email == email
    requires |after| == |before|
    requires after[..k] == before[..k] && after[k] == before[i]
    requires after[k + 1..i + 1] == before[k..i] && after[i + 1..] == before[i + 1..]
    ensures Grouped(after, usersList, email, k + 1, i + 1)
  {
    var x := before[i];
    assert x == usersList[i];
    assert usersList[..i + 1] == usersList[..i] + [x];
    PartitionSnoc(usersList[..i], x, email);
    assert after[..k + 1] == after[..k] + [x];
    assert before[i + 1..] == before[i..][1..];
  }

  /** A row of another account at place `i` already ends the second group. */
  lemma GroupedOtherRow(a: seq<User>, usersList: seq<User>, email: string, k: int, i: int)
    requires Grouped(a, usersList, email, k, i) && i < |a| && a[i].email != email
    ensures Grouped(a, usersList, email, k, i + 1)
  {
    var x := a[i];
    assert x == usersList[i];
    assert usersList[..i + 1] == usersList[..i] + [x];
    PartitionSnoc(usersList[..i], x, email);
    assert a[k..i + 1] == a[k..i] + [x];
    assert a[i + 1..] == a[i..][1..];
  }

  /** The two groups together hold every row once. */
  lemma {:induction false} PartitionMultiset(s: seq<User>, email: string)
    ensures multiset(Filter(s, SameEmail(email))) + multiset(Filter(s, OtherEmail(email))) == multiset(s)
  {
    if s != [] {
      var x := s[0];
      var t := s[1..];
      PartitionMultiset(t, email);
      assert s == [x] + t;
    }
  }

  /** Filtering the other rows again keeps them all and drops every row of the account. */
  lemma OtherOfGroups(s: seq<User>, email: string)
    ensures Filter(Filter(s, SameEmail(email)), OtherEmail(email)) == []
    ensures Filter(Filter(s, OtherEmail(email)), OtherEmail(email)) == Filter(s, OtherEmail(email))
  {
    var m := Filter(s, SameEmail(email));
    var o := Filter(s, OtherEmail(email));
    FilterSpec(s, SameEmail(email));
    FilterSpec(s, OtherEmail(email));
    assert forall i :: 0 <= i < |o| ==> o[i] in o;
    assert forall i :: 0 <= i < |m| ==> m[i] in m;
    FilterAll(o, OtherEmail(email));
    FilterNone(m, OtherEmail(email));
  }

  /** The sorted list is a reordering of the input, and the input itself when nobody is signed in. */
  lemma SortedIsPermutation(usersList: seq<User>, currentUser: Option<Profile>)
    ensures multiset(CurrentUserFirst(usersList, currentUser)) == multiset(usersList)
    ensures currentUser.None? ==> CurrentUserFirst(usersList, currentUser) == usersList
  {
    if currentUser.Some? {
      PartitionMultiset(usersList, currentUser.value.email);
    }
  }

  /**
   * Every row of the signed-in account precedes every other row, so when the
   * account is in the list its row comes first.
   */
  lemma SortedCurrentFirst(usersList: seq<User>, currentUser: Option<Profile>)
    requires currentUser.Some?
    ensures var r := CurrentUserFirst(usersList, currentUser);
      var email := currentUser.value.email;
      && (forall i, j :: 0 <= i < j < |r| && r[j].email == email ==> r[i].email == email)
      && ((exists u :: u in usersList && u.email == email) ==> |r| > 0 && r[0].email == email)
  {
    var email := currentUser.value.email;
    var mine := Filter(usersList, SameEmail(email));
    var rest := Filter(usersList, OtherEmail(email));
    FilterSpec(usersList, SameEmail(email));
    FilterSpec(usersList, OtherEmail(email));
    var r := mine + rest;
    forall k | 0 <= k < |mine|
      ensures r[k].email == email
    {
      assert r[k] == mine[k] && mine[k] in mine;
      assert SameEmail(email)(mine[k]);
    }
    forall k | |mine| <= k < |r|
      ensures r[k].email != email
    {
      assert r[k] == rest[k - |mine|] && rest[k - |mine|] in rest;
      assert OtherEmail(email)(rest[k - |mine|]);
    }
    if exists u :: u in usersList && u.email == email {
      FilterSpec(usersList, SameEmail(email));
      var u :| u in usersList && u.email == email;
      assert u in mine;
    }
  }

  /** The rows of other accounts keep their relative order. */
  lemma SortedOthersKeepOrder(usersList: seq<User>, currentUser: Option<Profile>)
    requires currentUser.Some?
    ensures var email := currentUser.value.email;
      Filter(CurrentUserFirst(usersList, currentUser), OtherEmail(email)) == Filter(usersList, OtherEmail(email))
  {
    var email := currentUser.value.email;
    var mine := Filter(usersList, SameEmail(email));
    var rest := Filter(usersList, OtherEmail(email));
    OtherOfGroups(usersList, email);
    FilterConcat(mine, rest, OtherEmail(email));
  }

  /** `isCurrentUser`: the row belongs to the signed-in account. */
  predicate IsCurrentUser(user: User, currentUser: Option<Profile>) {
    currentUser.Some? && user.email == currentUser.value.email
  }

  /** When exactly one row belongs to the signed-in account, it is moved to the front and nothing else moves. */
  lemma SortedSingleCurrent(before: seq<User>, me: User, after: seq<User>, currentUser: Option<Profile>)
    requires IsCurrentUser(me, currentUser)
    requires forall u :: u in before + after ==> !IsCurrentUser(u, currentUser)
    ensures CurrentUserFirst(before + [me] + after, currentUser) == [me] + before + after
  {
    var email := currentUser.value.email;
    assert forall u :: u in before ==> u in before + after;
    assert forall u :: u in after ==> u in before + after;
    SingleOfAccount(before, me, after, email);
  }

  /** The groups of a list whose only row of the account is `me`. */
  lemma SingleOfAccount(before: seq<User>, me: User, after: seq<User>, email: string)
    requires me.email == email
    requires forall u :: u in before ==> u.email != email
    requires forall u :: u in after ==> u.email != email
    ensures Filter(before + [me] + after, SameEmail(email)) == [me]
    ensures Filter(before + [me] + after, OtherEmail(email)) == before + after
  {
    NoneOfAccount(before, email);
    NoneOfAccount(after, email);
    PartitionSnoc(before, me, email);
    var head := before + [me];
    assert Filter(head, SameEmail(email)) == [me];
    assert Filter(head, OtherEmail(email)) == before;
    FilterConcat(head, after, SameEmail(email));
    FilterConcat(head, after, OtherEmail(email));
  }

  /** A part of the list without rows of the account falls entirely into the second group. */
  lemma NoneOfAccount(part: seq<User>, email: string)
    requires forall u :: u in part ==> u.email != email
    ensures Filter(part, SameEmail(email)) == []
    ensures Filter(part, OtherEmail(email)) == part
  {
    assert forall i :: 0 <= i < |part| ==> part[i] in part;
    FilterNone(part, SameEmail(email));
    FilterAll(part, OtherEmail(email));
  }


  // ---------------------------------------------------------------------
  // Roles

  const AdminRole: string := "Admin"
  const RestaurantRole: string := "Restaurant"

  /** getFilteredAvailableRoles */
  function FilteredAvailableRoles(currentUser: Option<Profile>, availableRoles: seq<Role>): seq<Role> {
    if currentUser.None? then availableRoles
    else
      var currentUserRoles := RolesOf(currentUser.value.roles);
      if AdminRole in currentUserRoles then availableRoles
      else if RestaurantRole in currentUserRoles && AdminRole !in currentUserRoles then
        Filter(availableRoles, (role: Role) => role.name != AdminRole)
      else availableRoles
  }

  /** The account may hand out every role except "Admin": it is a restaurant account without the admin role. */
  predicate RestaurantOnly(currentUser: Option<Profile>) {
    currentUser.Some?
    && RestaurantRole in RolesOf(currentUser.value.roles)
    && AdminRole !in RolesOf(currentUser.value.roles)
  }

  /**
   * A restaurant account without the admin role sees every role except
   * "Admin", in list order; every other account, and nobody signed in, sees
   * all roles.
   */
  lemma FilteredRolesSpec(currentUser: Option<Profile>, availableRoles: seq<Role>)
    ensures var r := FilteredAvailableRoles(currentUser, availableRoles);
      && IsSubsequence(r, availableRoles)
      && (!RestaurantOnly(currentUser) ==> r == availableRoles)
      && (RestaurantOnly(currentUser) ==>
            forall role :: role in r <==> role in availableRoles && role.name != AdminRole)
  {
    SubsequenceReflexive(availableRoles);
    if RestaurantOnly(currentUser) {
      FilterSpec(availableRoles, (role: Role) => role.name != AdminRole);
    }
  }

  /** getAvailableRolesToAssign */
  function AvailableRolesToAssign(user: User, currentUser: Option<Profile>, availableRoles: seq<Role>): seq<Role> {
    var userRoles := RolesOf(user.roles);
    Filter(FilteredAvailableRoles(currentUser, availableRoles), (role: Role) => role.name !in userRoles)
  }

  /**
   * The roles offered for a user are exactly the roles the signed-in account
   * may hand out that the user does not hold yet, in list order.
   */
  lemma RolesToAssignSpec(user: User, currentUser: Option<Profile>, availableRoles: seq<Role>)
    ensures var r := AvailableRolesToAssign(user, currentUser, availableRoles);
      var allowed := FilteredAvailableRoles(currentUser, availableRoles);
      && IsSubsequence(r, allowed)
      && IsSubsequence(r, availableRoles)
      && (forall role :: role in r <==> role in allowed && role.name !in RolesOf(user.roles))
  {
    var allowed := FilteredAvailableRoles(currentUser, availableRoles);
    var userRoles := RolesOf(user.roles);
    FilterSpec(allowed, (role: Role) => role.name !in userRoles);
    FilteredRolesSpec(currentUser, availableRoles);
    SubsequenceTransitive(AvailableRolesToAssign(user, currentUser, availableRoles), allowed, availableRoles);
  }

  // ---------------------------------------------------------------------
  // List updates

  /**
   * handleAssignRole after the request: on success the role name is appended
   * to the roles of every row with that id (no check for a duplicate); on
   * failure the list is left alone.
   */
  function AssignRole(users: seq<User>, userId: int, roleName: string, succeeded: bool): seq<User> {
    if !succeeded then users
    else seq(|users|, i requires 0 <= i < |users| =>
           if users[i].id == userId then users[i].(roles := Some(RolesOf(users[i].roles) + [roleName]))
           else users[i])
  }

  /**
   * Only the rows with that id change, only in their roles, which grow by
   * exactly the new name at the end, even when the user already held it.
   */
  lemma AssignRoleSpec(users: seq<User>, userId: int, roleName: string, succeeded: bool)
    ensures var r := AssignRole(users, userId, roleName, succeeded);
      && |r| == |users|
      && (!succeeded ==> r == users)
      && (forall i :: 0 <= i < |r| && (users[i].id != userId || !succeeded) ==> r[i] == users[i])
      && (forall i :: 0 <= i < |r| && users[i].id == userId && succeeded ==>
            && r[i].roles == Some(RolesOf(users[i].roles) + [roleName])
            && |RolesOf(r[i].roles)| == |RolesOf(users[i].roles)| + 1
            && r[i].(roles := users[i].roles) == users[i])
  {
  }

  /** Sets `isActive` on every row with that id; the other rows are untouched. */
  function SetActive(users: seq<User>, userId: int, isActive: bool): (r: seq<User>)
    ensures |r| == |users|
    ensures forall i :: 0 <= i < |users| && users[i].id != userId ==> r[i] == users[i]
    ensures forall i :: 0 <= i < |users| && users[i].id == userId ==> r[i] == users[i].(isActive := isActive)
  {
    seq(|users|, i requires 0 <= i < |users| =>
      if users[i].id == userId then users[i].(isActive := isActive) else users[i])
  }

  /** The two lists the page shows: all loaded users and the filtered view. */
  datatype UserLists = UserLists(users: seq<User>, filteredUsers: seq<User>)

  /** How the confirm dialog and the status request ended. */
  datatype ToggleOutcome = Cancelled | Saved | RequestFailed

  /**
   * handleToggleStatus: after confirmation both lists show the user with the
   * status flipped before the request is sent; if the request fails both
   * lists are rebuilt from the lists the handler captured, with the user's
   * original status.
   */
  function ToggleStatus(lists: UserLists, user: User, outcome: ToggleOutcome): UserLists {
    var newStatus := !user.isActive;
    match outcome
    case Cancelled => lists
    case Saved => UserLists(SetActive(lists.users, user.id, newStatus), SetActive(lists.filteredUsers, user.id, newStatus))
    case RequestFailed => UserLists(SetActive(lists.users, user.id, user.isActive), SetActive(lists.filteredUsers, user.id, user.isActive))
  }

  /** The optimistic update, before the request is answered. */
  function OptimisticToggle(lists: UserLists, user: User): UserLists {
    ToggleStatus(lists, user, Saved)
  }

  /** The user's rows carry the status the dialog showed. */
  predicate ShowsStatus(users: seq<User>, user: User) {
    forall i :: 0 <= i < |users| && users[i].id == user.id ==> users[i].isActive == user.isActive
  }

  /**
   * A saved toggle flips the status of that user's rows in both lists and
   * changes nothing else; toggling the flipped user again restores the lists.
   */
  lemma ToggleSavedSpec(lists: UserLists, user: User)
    requires ShowsStatus(lists.users, user) && ShowsStatus(lists.filteredUsers, user)
    ensures var r := ToggleStatus(lists, user, Saved);
      && |r.users| == |lists.users| && |r.filteredUsers| == |lists.filteredUsers|
      && (forall i :: 0 <= i < |r.users| ==>
            if lists.users[i].id == user.id
            then r.users[i].isActive == !lists.users[i].isActive && r.users[i].(isActive := lists.users[i].isActive) == lists.users[i]
            else r.users[i] == lists.users[i])
      && (forall i :: 0 <= i < |r.filteredUsers| ==>
            if lists.filteredUsers[i].id == user.id
            then r.filteredUsers[i].isActive == !lists.filteredUsers[i].isActive
            else r.filteredUsers[i] == lists.filteredUsers[i])
      && ToggleStatus(r, user.(isActive := !user.isActive), Saved) == lists
  {
    var r := ToggleStatus(lists, user, Saved);
    assert ToggleStatus(r, user.(isActive := !user.isActive), Saved).users == lists.users;
    assert ToggleStatus(r, user.(isActive := !user.isActive), Saved).filteredUsers == lists.filteredUsers;
  }

  /**
   * A failed request undoes the optimistic update: the lists come back as
   * they were before the dialog, and the optimistic lists rolled back give
   * the same result.
   */
  lemma ToggleRollbackSpec(lists: UserLists, user: User)
    requires ShowsStatus(lists.users, user) && ShowsStatus(lists.filteredUsers, user)
    ensures ToggleStatus(lists, user, RequestFailed) == lists
    ensures ToggleStatus(OptimisticToggle(lists, user), user, RequestFailed) == lists
    ensures ToggleStatus(lists, user, Cancelled) == lists
  {
    assert ToggleStatus(lists, user, RequestFailed).users == lists.users;
    assert ToggleStatus(lists, user, RequestFailed).filteredUsers == lists.filteredUsers;
    var o := OptimisticToggle(lists, user);
    assert ToggleStatus(o, user, RequestFailed).users == lists.users;
    assert ToggleStatus(o, user, RequestFailed).filteredUsers == lists.filteredUsers;
  }
}
