/** Roles of users: the counting query behind the role check, and how many roles a user can come to hold. */
module UserRoles {
  import opened Wrappers

  /** A row of `user_roles`; nothing makes (userId, roleId) unique. */
  datatype UserRole = UserRole(userId: nat, roleId: nat)

  // ---------------------------------------------------------------- what a user holds

  /** Some row of the user names a role with this name. */
  predicate Holds(rows: seq<UserRole>, roles: map<nat, string>, u: nat, name: string) {
    exists row :: row in rows && row.userId == u && row.roleId in roles && roles[row.roleId] == name
  }

  /** The result set of `SELECT DISTINCT r.name ... WHERE ur.user_id = u AND r.name IN names`. */
  function HeldNames(rows: seq<UserRole>, roles: map<nat, string>, u: nat, names: seq<string>): set<string> {
    set row | row in rows && row.userId == u && row.roleId in roles && roles[row.roleId] in names :: roles[row.roleId]
  }

  predicate NoDuplicates(names: seq<string>) {
    forall i, j :: 0 <= i < j < |names| ==> names[i] != names[j]
  }

  function Elements(names: seq<string>): set<string> {
    set name | name in names
  }

  lemma {:induction false} DistinctCount(names: seq<string>)
    ensures |Elements(names)| <= |names|
    ensures |Elements(names)| == |names| <==> NoDuplicates(names)
  {
    if names == [] {
    } else {
      var front, last := names[..|names| - 1], names[|names| - 1];
      DistinctCount(front);
      if last in front {
        assert Elements(names) == Elements(front);
        var i :| 0 <= i < |front| && front[i] == last;
        assert names[i] == names[|names| - 1];
      } else {
        assert Elements(names) == Elements(front) + {last};
        assert names == front + [last];
      }
    }
  }

  lemma {:induction false} SubsetCount(a: set<string>, b: set<string>)
    requires a <= b
    ensures |a| <= |b| && (|a| == |b| ==> a == b)
    decreases b
  {
    if b == {} {
    } else {
      var x :| x in b;
      SubsetCount(a - {x}, b - {x});
      if x in a {
        assert a == a - {x} + {x} && b == b - {x} + {x};
      } else {
        assert a - {x} == a;
      }
    }
  }

  lemma HeldNamesAreHeld(rows: seq<UserRole>, roles: map<nat, string>, u: nat, names: seq<string>, name: string)
    ensures name in HeldNames(rows, roles, u, names) <==> name in names && Holds(rows, roles, u, name)
  {
  }

  /** The count equals the length of the list iff the list repeats no name and every name is held. */
  lemma CountIsSubsetTest(rows: seq<UserRole>, roles: map<nat, string>, u: nat, names: seq<string>)
    ensures |HeldNames(rows, roles, u, names)| == |names| <==>
              NoDuplicates(names) && forall i :: 0 <= i < |names| ==> Holds(rows, roles, u, names[i])
  {
    var held := HeldNames(rows, roles, u, names);
    assert held <= Elements(names);
    DistinctCount(names);
    SubsetCount(held, Elements(names));
    if held == Elements(names) {
      forall i | 0 <= i < |names|
        ensures Holds(rows, roles, u, names[i])
      {
        assert names[i] in Elements(names);
        HeldNamesAreHeld(rows, roles, u, names, names[i]);
      }
    }
    if forall i :: 0 <= i < |names| ==> Holds(rows, roles, u, names[i]) {
      forall name | name in names
        ensures name in held
      {
        HeldNamesAreHeld(rows, roles, u, names, name);
      }
      assert held == Elements(names);
    }
  }

  /** The number of rows of the user. */
  function CountRows(rows: seq<UserRole>, u: nat): nat {
    if rows == [] then 0
    else CountRows(rows[..|rows| - 1], u) + if rows[|rows| - 1].userId == u then 1 else 0
  }

  /** A user holds at most as many names as it has rows. */
  lemma {:induction false} NamesFitRows(rows: seq<UserRole>, roles: map<nat, string>, u: nat, names: seq<string>)
    ensures |HeldNames(rows, roles, u, names)| <= CountRows(rows, u)
  {
    if rows == [] {
    } else {
      var front, last := rows[..|rows| - 1], rows[|rows| - 1];
      NamesFitRows(front, roles, u, names);
      var before, after := HeldNames(front, roles, u, names), HeldNames(rows, roles, u, names);
      assert rows == front + [last];
      if last.userId == u && last.roleId in roles {
        SubsetCount(after, before + {roles[last.roleId]});
      } else {
        assert after == before;
      }
    }
  }

  // ---------------------------------------------------------------- the tables over time

  /** How far a signup has come: the user row is inserted, then the default role row, then the role is assigned. */
  datatype Stage = Inserted | Defaulted

  datatype State = State(users: set<nat>, roles: map<nat, string>, rows: seq<UserRole>, signups: map<nat, Stage>)

  datatype Event =
    | InsertUser(user: nat)
    | InsertDefault(user: nat, role: nat)
    | FinishSignup(user: nat, role: nat)
    | AbandonSignup(user: nat)
    | Assign(user: nat, role: nat)
    | Remove(user: nat, role: nat)
    | DeleteUser(user: nat)
    | ChangeRoles(roles: map<nat, string>)

  /** Deleting the rows of the user. */
  function WithoutUser(rows: seq<UserRole>, u: nat): seq<UserRole> {
    if rows == [] then []
    else
      var front, last := WithoutUser(rows[..|rows| - 1], u), rows[|rows| - 1];
      if last.userId == u then front else front + [last]
  }

  function WithoutRole(rows: seq<UserRole>, u: nat, role: nat): seq<UserRole> {
    if rows == [] then []
    else
      var front, last := WithoutRole(rows[..|rows| - 1], u, role), rows[|rows| - 1];
      if last == UserRole(u, role) then front else front + [last]
  }

  lemma {:induction false} WithoutRoleContents(rows: seq<UserRole>, u: nat, role: nat)
    ensures UserRole(u, role) !in WithoutRole(rows, u, role)
    ensures forall row :: row != UserRole(u, role) ==> multiset(WithoutRole(rows, u, role))[row] == multiset(rows)[row]
  {
    if rows == [] {
    } else {
      var front, last := rows[..|rows| - 1], rows[|rows| - 1];
      WithoutRoleContents(front, u, role);
      assert rows == front + [last];
    }
  }

  /** Deleting a role cascades to its rows. */
  function OfRoles(rows: seq<UserRole>, roles: map<nat, string>): seq<UserRole> {
    if rows == [] then []
    else
      var front, last := OfRoles(rows[..|rows| - 1], roles), rows[|rows| - 1];
      if last.roleId in roles then front + [last] else front
  }

  function Reassigned(rows: seq<UserRole>, u: nat, role: nat): seq<UserRole> {
    WithoutUser(rows, u) + [UserRole(u, role)]
  }

  /** The signup of the user has inserted its row but not yet its default role. */
  predicate Awaiting(s: State, u: nat) {
    u in s.signups && s.signups[u] == Inserted
  }

  ghost predicate Enabled(s: State, e: Event) {
    match e
    case InsertUser(u) => u !in s.users && u !in s.signups
    case InsertDefault(u, r) => Awaiting(s, u) && u in s.users && r in s.roles
    case FinishSignup(u, r) => u in s.signups && s.signups[u] == Defaulted && u in s.users && r in s.roles
    case AbandonSignup(u) => u in s.signups
    case Assign(u, r) => u in s.users && r in s.roles
    case Remove(u, r) => true
    case DeleteUser(u) => true
    case ChangeRoles(_) => true
  }

  ghost function Next(s: State, e: Event): State
    requires Enabled(s, e)
  {
    match e
    case InsertUser(u) => s.(users := s.users + {u}, signups := s.signups[u := Inserted])
    case InsertDefault(u, r) => s.(rows := s.rows + [UserRole(u, r)], signups := s.signups[u := Defaulted])
    case FinishSignup(u, r) => s.(rows := Reassigned(s.rows, u, r), signups := s.signups - {u})
    case AbandonSignup(u) => s.(signups := s.signups - {u})
    case Assign(u, r) => s.(rows := Reassigned(s.rows, u, r))
    case Remove(u, r) => s.(rows := WithoutRole(s.rows, u, r))
    case DeleteUser(u) => s.(users := s.users - {u}, rows := WithoutUser(s.rows, u))
    case ChangeRoles(roles) => s.(roles := roles, rows := OfRoles(s.rows, roles))
  }

  ghost predicate IsRun(es: seq<Event>, ss: seq<State>) {
    && |ss| == |es| + 1
    && forall i :: 0 <= i < |es| ==> Enabled(ss[i], es[i]) && ss[i + 1] == Next(ss[i], es[i])
  }

  ghost predicate IsStart(s: State) {
    s.users == {} && s.rows == [] && s.signups == map[]
  }

  // ---------------------------------------------------------------- counting rows

  lemma {:induction false} CountWithoutUser(rows: seq<UserRole>, u: nat, v: nat)
    ensures CountRows(WithoutUser(rows, u), v) == if u == v then 0 else CountRows(rows, v)
  {
    if rows == [] {
    } else {
      CountWithoutUser(rows[..|rows| - 1], u, v);
      CountOneMore(WithoutUser(rows[..|rows| - 1], u), rows[|rows| - 1], v);
    }
  }

  lemma {:induction false} CountWithoutRole(rows: seq<UserRole>, u: nat, role: nat, v: nat)
    ensures CountRows(WithoutRole(rows, u, role), v) <= CountRows(rows, v)
  {
    if rows == [] {
    } else {
      CountWithoutRole(rows[..|rows| - 1], u, role, v);
      CountOneMore(WithoutRole(rows[..|rows| - 1], u, role), rows[|rows| - 1], v);
    }
  }

  lemma {:induction false} CountOfRoles(rows: seq<UserRole>, roles: map<nat, string>, v: nat)
    ensures CountRows(OfRoles(rows, roles), v) <= CountRows(rows, v)
  {
    if rows == [] {
    } else {
      CountOfRoles(rows[..|rows| - 1], roles, v);
      CountOneMore(OfRoles(rows[..|rows| - 1], roles), rows[|rows| - 1], v);
    }
  }

  lemma CountOneMore(rows: seq<UserRole>, row: UserRole, v: nat)
    ensures CountRows(rows + [row], v) == CountRows(rows, v) + if row.userId == v then 1 else 0
  {
    assert (rows + [row])[..|rows|] == rows;
  }

  lemma CountReassigned(rows: seq<UserRole>, u: nat, role: nat, v: nat)
    ensures CountRows(Reassigned(rows, u, role), v) == if u == v then 1 else CountRows(rows, v)
  {
    CountWithoutUser(rows, u, v);
    CountOneMore(WithoutUser(rows, u), UserRole(u, role), v);
  }

  /** The rows of `v` after an event, as far as the bounds need them. */
  lemma EventRows(s: State, e: Event, v: nat)
    requires Enabled(s, e)
    ensures var n, n' := CountRows(s.rows, v), CountRows(Next(s, e).rows, v);
            match e
            case InsertDefault(u, _) => n' == if u == v then n + 1 else n
            case FinishSignup(u, _) => n' == if u == v then 1 else n
            case Assign(u, _) => n' == if u == v then 1 else n
            case DeleteUser(u) => n' == if u == v then 0 else n
            case _ => n' <= n
  {
    match e
    case InsertDefault(u, r) => CountOneMore(s.rows, UserRole(u, r), v);
    case FinishSignup(u, r) => CountReassigned(s.rows, u, r, v);
    case Assign(u, r) => CountReassigned(s.rows, u, r, v);
    case Remove(u, r) => CountWithoutRole(s.rows, u, r, v);
    case DeleteUser(u) => CountWithoutUser(s.rows, u, v);
    case ChangeRoles(roles) => CountOfRoles(s.rows, roles, v);
    case _ =>
  }

  // ---------------------------------------------------------------- at most one role

  /** No row without its user; at most `most` rows, and one less while the default role is still to come. */
  predicate AtMost(s: State, u: nat, most: nat) {
    && (u !in s.users ==> CountRows(s.rows, u) == 0)
    && CountRows(s.rows, u) + (if Awaiting(s, u) then 1 else 0) <= most
  }

  /** No role is assigned to the user between the two inserts of its signup. */
  ghost predicate NoEarlyAssign(es: seq<Event>, ss: seq<State>, u: nat)
    requires |ss| == |es| + 1
  {
    forall i :: 0 <= i < |es| && es[i].Assign? && es[i].user == u ==> !Awaiting(ss[i], u)
  }

  lemma StepKeepsAtMost(s: State, e: Event, u: nat, most: nat)
    requires Enabled(s, e) && AtMost(s, u, most) && most >= 1
    requires e.Assign? && e.user == u && Awaiting(s, u) ==> most >= 2
    ensures AtMost(Next(s, e), u, most)
  {
    EventRows(s, e, u);
  }

  /** In every run a user has at most two rows, and at most one unless it was assigned a role mid-signup. */
  lemma {:induction false} AtMostOneRole(es: seq<Event>, ss: seq<State>, i: nat, u: nat)
    requires IsRun(es, ss) && IsStart(ss[0]) && i <= |es|
    ensures AtMost(ss[i], u, 2)
    ensures NoEarlyAssign(es, ss, u) ==> AtMost(ss[i], u, 1)
  {
    if i == 0 {
    } else {
      AtMostOneRole(es, ss, i - 1, u);
      assert Enabled(ss[i - 1], es[i - 1]) && ss[i] == Next(ss[i - 1], es[i - 1]);
      StepKeepsAtMost(ss[i - 1], es[i - 1], u, 2);
      if NoEarlyAssign(es, ss, u) {
        StepKeepsAtMost(ss[i - 1], es[i - 1], u, 1);
      }
    }
  }

  /** A second row appears exactly when the default role is inserted for a user that already has one. */
  lemma SecondRowIffDefaultAfterRole(es: seq<Event>, ss: seq<State>, i: nat, u: nat)
    requires IsRun(es, ss) && IsStart(ss[0]) && i < |es| && CountRows(ss[i].rows, u) <= 1
    ensures CountRows(ss[i + 1].rows, u) == 2 <==>
              es[i].InsertDefault? && es[i].user == u && CountRows(ss[i].rows, u) == 1
  {
    assert Enabled(ss[i], es[i]) && ss[i + 1] == Next(ss[i], es[i]);
    EventRows(ss[i], es[i], u);
  }

  /** The user holds two different roles. */
  ghost predicate HoldsTwo(rows: seq<UserRole>, u: nat) {
    exists a: nat, b: nat :: a != b && UserRole(u, a) in rows && UserRole(u, b) in rows
  }

  /** The user holds a role other than the given one. */
  ghost predicate HoldsOther(rows: seq<UserRole>, u: nat, role: nat) {
    exists a: nat :: a != role && UserRole(u, a) in rows
  }

  lemma {:induction false} WithoutUserIsPart(rows: seq<UserRole>, u: nat)
    ensures forall row :: row in WithoutUser(rows, u) ==> row in rows
  {
    if rows == [] {
    } else {
      WithoutUserIsPart(rows[..|rows| - 1], u);
    }
  }

  lemma {:induction false} OfRolesIsPart(rows: seq<UserRole>, roles: map<nat, string>)
    ensures forall row :: row in OfRoles(rows, roles) ==> row in rows
  {
    if rows == [] {
    } else {
      OfRolesIsPart(rows[..|rows| - 1], roles);
    }
  }

  /** Deleting roles takes the rows that name one of them and leaves every other as often as it was there. */
  lemma {:induction false} OfRolesContents(rows: seq<UserRole>, roles: map<nat, string>)
    ensures forall row: UserRole ::
              multiset(OfRoles(rows, roles))[row] == if row.roleId in roles then multiset(rows)[row] else 0
  {
    if rows == [] {
    } else {
      var front, last := rows[..|rows| - 1], rows[|rows| - 1];
      OfRolesContents(front, roles);
      assert rows == front + [last];
    }
  }

  lemma WithoutRoleIsPart(rows: seq<UserRole>, u: nat, role: nat)
    ensures forall row :: row in WithoutRole(rows, u, role) ==> row in rows
  {
    WithoutRoleContents(rows, u, role);
    forall row | row in WithoutRole(rows, u, role)
      ensures row in rows
    {
      assert multiset(WithoutRole(rows, u, role))[row] > 0;
      if row != UserRole(u, role) {
        assert multiset(rows)[row] > 0;
      }
    }
  }

  /** An assignment leaves its user one role and gives nobody else any. */
  lemma ReassignedHoldsOne(rows: seq<UserRole>, v: nat, role: nat, u: nat)
    requires !HoldsTwo(rows, u)
    ensures !HoldsTwo(Reassigned(rows, v, role), u)
  {
    OnlyReassigned(rows, v, role);
    WithoutUserIsPart(rows, v);
  }

  lemma OnlyInsertAddsRole(s: State, e: Event, u: nat)
    requires Enabled(s, e) && !HoldsTwo(s.rows, u) && !(e.InsertDefault? && e.user == u)
    ensures !HoldsTwo(Next(s, e).rows, u)
  {
    match e
    case InsertDefault(v, r) =>
    case FinishSignup(v, r) => ReassignedHoldsOne(s.rows, v, r, u);
    case Assign(v, r) => ReassignedHoldsOne(s.rows, v, r, u);
    case Remove(v, r) => WithoutRoleIsPart(s.rows, v, r);
    case DeleteUser(v) => WithoutUserIsPart(s.rows, v);
    case ChangeRoles(roles) => OfRolesIsPart(s.rows, roles);
    case _ =>
  }

  /** A user comes to hold two roles exactly when its signup inserts the default role and it holds another one. */
  lemma TwoRolesIffDefaultBesideAnother(s: State, e: Event, u: nat)
    requires Enabled(s, e) && !HoldsTwo(s.rows, u)
    ensures HoldsTwo(Next(s, e).rows, u) <==> e.InsertDefault? && e.user == u && HoldsOther(s.rows, u, e.role)
  {
    if e.InsertDefault? && e.user == u {
      var row, rows' := UserRole(u, e.role), Next(s, e).rows;
      assert rows'[|s.rows|] == row;
      if a: nat :| a != e.role && UserRole(u, a) in s.rows {
        assert UserRole(u, a) in rows' && UserRole(u, e.role) in rows';
      }
    } else {
      OnlyInsertAddsRole(s, e, u);
    }
  }

  /** So two different required roles are never both satisfied, three not even after a mid-signup assignment. */
  lemma RequiredRolesNeverBoth(es: seq<Event>, ss: seq<State>, i: nat, u: nat, names: seq<string>)
    requires IsRun(es, ss) && IsStart(ss[0]) && i <= |es| && NoDuplicates(names)
    requires |names| >= 3 || (|names| == 2 && NoEarlyAssign(es, ss, u))
    ensures exists k :: 0 <= k < |names| && !Holds(ss[i].rows, ss[i].roles, u, names[k])
  {
    AtMostOneRole(es, ss, i, u);
    NamesFitRows(ss[i].rows, ss[i].roles, u, names);
    CountIsSubsetTest(ss[i].rows, ss[i].roles, u, names);
  }

  /**
   A role assigned between the two inserts of a signup is held beside the default role, but only until the
   signup's own final assignment: that deletes both rows and leaves the one it inserts, so the role assigned in
   between is lost, unless the signup fails before it gets there.
   */
  lemma EarlyAssignGivesTwoRoles(s: State, u: nat, a: nat, b: nat)
    requires Awaiting(s, u) && u in s.users && a in s.roles && b in s.roles
    ensures var s1 := Next(s, Assign(u, a));
            Enabled(s1, InsertDefault(u, b))
    ensures var s2 := Next(Next(s, Assign(u, a)), InsertDefault(u, b));
            && Holds(s2.rows, s2.roles, u, s.roles[a]) && Holds(s2.rows, s2.roles, u, s.roles[b])
            && Enabled(s2, AbandonSignup(u)) && Next(s2, AbandonSignup(u)).rows == s2.rows
            && Enabled(s2, FinishSignup(u, b))
            && CountRows(Next(s2, FinishSignup(u, b)).rows, u) == 1
            && Holds(Next(s2, FinishSignup(u, b)).rows, s2.roles, u, s.roles[b])
            && (s.roles[a] != s.roles[b] ==> !Holds(Next(s2, FinishSignup(u, b)).rows, s2.roles, u, s.roles[a]))
  {
    var rows := Reassigned(s.rows, u, a) + [UserRole(u, b)];
    assert rows[|rows| - 2] == UserRole(u, a) && rows[|rows| - 1] == UserRole(u, b);
    assert UserRole(u, a) in rows && UserRole(u, b) in rows;
    CountReassigned(rows, u, b, u);
    OnlyReassigned(rows, u, b);
  }

  lemma OnlyReassigned(rows: seq<UserRole>, u: nat, role: nat)
    ensures forall row :: row in Reassigned(rows, u, role) && row.userId == u ==> row == UserRole(u, role)
    ensures UserRole(u, role) in Reassigned(rows, u, role)
  {
    NoneWithoutUser(rows, u);
    var after := Reassigned(rows, u, role);
    assert after[|after| - 1] == UserRole(u, role);
  }

  lemma {:induction false} NoneWithoutUser(rows: seq<UserRole>, u: nat)
    ensures forall row :: row in WithoutUser(rows, u) ==> row.userId != u
  {
    if rows == [] {
    } else {
      NoneWithoutUser(rows[..|rows| - 1], u);
    }
  }

  /** It happens: a signup during which an administrator assigns a role, and which then fails. */
  lemma TwoRolesReached() returns (es: seq<Event>, ss: seq<State>)
    ensures IsRun(es, ss) && IsStart(ss[0])
    ensures ss[|es|].signups == map[] && Holds(ss[|es|].rows, ss[|es|].roles, 0, "admin") && Holds(ss[|es|].rows, ss[|es|].roles, 0, "user")
  {
    var roles := map[1 := "admin", 2 := "user"];
    var s0 := State({}, roles, [], map[]);
    var s1 := State({0}, roles, [], map[0 := Inserted]);
    var s2 := s1.(rows := [UserRole(0, 1)]);
    var s3 := State({0}, roles, [UserRole(0, 1), UserRole(0, 2)], map[0 := Defaulted]);
    var s4 := s3.(signups := map[]);
    assert Reassigned([], 0, 1) == [UserRole(0, 1)];
    es, ss := [InsertUser(0), Assign(0, 1), InsertDefault(0, 2), AbandonSignup(0)], [s0, s1, s2, s3, s4];
    assert Next(s0, es[0]) == s1 && Next(s1, es[1]) == s2 && Next(s2, es[2]) == s3 && Next(s3, es[3]) == s4;
    assert s4.rows[0] == UserRole(0, 1) && s4.rows[1] == UserRole(0, 2);
  }

  // ---------------------------------------------------------------- the repository

  datatype Arg = Id(id: nat) | Name(name: string)

  /** How a transaction goes wrong, if it does; a commit may take effect and still report failure. */
  datatype TxFault = NoFault | BeginFails | DeleteFails | InsertFails | CommitFails(tookEffect: bool)

  const DEFAULT_ROLE := "user"

  datatype SignupStep = UserInsert | DefaultLookup | DefaultInsert | RoleLookup | RoleAssign

  lemma {:induction false} NothingToDelete(rows: seq<UserRole>, u: nat)
    requires CountRows(rows, u) == 0
    ensures WithoutUser(rows, u) == rows
  {
    if rows == [] {
    } else {
      NothingToDelete(rows[..|rows| - 1], u);
    }
  }

  /** One row is added: the user's, with a role named "user". */
  ghost predicate AddsDefault(rows: seq<UserRole>, rows': seq<UserRole>, u: nat, roles: map<nat, string>) {
    && |rows'| == |rows| + 1 && rows'[..|rows|] == rows
    && rows'[|rows|].userId == u && rows'[|rows|].roleId in roles && roles[rows'[|rows|].roleId] == "user"
  }

  /** The user's rows become the one assigned; the rows of everybody else stay as often as they were there. */
  ghost predicate BecomesOnly(rows: seq<UserRole>, rows': seq<UserRole>, u: nat, role: nat) {
    && (forall row: UserRole :: row.userId == u ==> multiset(rows')[row] == if row.roleId == role then 1 else 0)
    && (forall row: UserRole :: row.userId != u ==> multiset(rows')[row] == multiset(rows)[row])
  }

  lemma {:induction false} WithoutUserContents(rows: seq<UserRole>, u: nat)
    ensures forall row: UserRole ::
              multiset(WithoutUser(rows, u))[row] == if row.userId == u then 0 else multiset(rows)[row]
  {
    if rows == [] {
    } else {
      var front, last := rows[..|rows| - 1], rows[|rows| - 1];
      WithoutUserContents(front, u);
      assert rows == front + [last];
    }
  }

  lemma ReassignedIsOnly(rows: seq<UserRole>, u: nat, role: nat)
    ensures BecomesOnly(rows, Reassigned(rows, u, role), u, role)
  {
    WithoutUserContents(rows, u);
  }

  lemma ReassignDefault(rows: seq<UserRole>, rows': seq<UserRole>, u: nat, roles: map<nat, string>, role: nat)
    requires CountRows(rows, u) == 0 && AddsDefault(rows, rows', u, roles)
    requires role in roles && roles[role] == DEFAULT_ROLE
    ensures AddsDefault(rows, Reassigned(rows', u, role), u, roles)
  {
    NothingToDelete(rows, u);
    assert rows'[..|rows'| - 1] == rows;
  }

  function ArgsOf(userId: nat, names: seq<string>): seq<Arg> {
    [Id(userId)] + seq(|names|, i requires 0 <= i < |names| => Name(names[i]))
  }

  /** The names bound to the IN clause. */
  function BoundNames(args: seq<Arg>): seq<string>
    requires forall i :: 0 < i < |args| ==> args[i].Name?
  {
    if args == [] then []
    else seq(|args| - 1, i requires 0 <= i < |args| - 1 => args[i + 1].name)
  }

  class UserRoleRepository {
    var users: set<nat>
    var roles: map<nat, string>
    var userRoles: seq<UserRole>

    method BuildArgs(userId: nat, roleNames: seq<string>) returns (args: seq<Arg>)
      ensures args == ArgsOf(userId, roleNames)
    {
      args := [Id(userId)];
      for i := 0 to |roleNames|
        invariant args == ArgsOf(userId, roleNames[..i])
      {
        args := args + [Name(roleNames[i])];
      }
      assert roleNames[..|roleNames|] == roleNames;
    }

    /** True iff the list is empty, or it repeats no name and the user holds every one of them. */
    method HasAllRoles(userId: nat, roleNames: seq<string>, dbUp: bool) returns (r: Result<bool>)
      ensures r.Err? <==> roleNames != [] && !dbUp
      ensures r.Ok? ==>
                (r.value <==>
                   && (forall i, j :: 0 <= i < j < |roleNames| ==> roleNames[i] != roleNames[j])
                   && forall i :: 0 <= i < |roleNames| ==>
                        exists row :: row in userRoles && row.userId == userId && row.roleId in roles
                                      && roles[row.roleId] == roleNames[i])
    {
      if |roleNames| == 0 {
        return Ok(true);
      }
      var args := BuildArgs(userId, roleNames);
      if !dbUp {
        return Err(InternalServer);
      }
      var count := |HeldNames(userRoles, roles, args[0].id, BoundNames(args))|;
      assert BoundNames(args) == roleNames;
      CountIsSubsetTest(userRoles, roles, userId, roleNames);
      return Ok(count == |roleNames|);
    }

    /** True iff the list is empty or the user holds one of its names. */
    method HasAnyRole(userId: nat, roleNames: seq<string>, dbUp: bool) returns (r: Result<bool>)
      ensures r.Err? <==> roleNames != [] && !dbUp
      ensures r.Ok? ==>
                (r.value <==> roleNames == []
                              || exists row :: row in userRoles && row.userId == userId && row.roleId in roles
                                               && roles[row.roleId] in roleNames)
    {
      if |roleNames| == 0 {
        return Ok(true);
      }
      var args := BuildArgs(userId, roleNames);
      if !dbUp {
        return Err(InternalServer);
      }
      var held := HeldNames(userRoles, roles, args[0].id, BoundNames(args));
      assert BoundNames(args) == roleNames;
      if row :| row in userRoles && row.userId == userId && row.roleId in roles && roles[row.roleId] in roleNames {
        assert roles[row.roleId] in held;
      } else {
        assert held == {};
      }
      return Ok(|held| > 0);
    }

    /** The user's rows become exactly the one assigned, or nothing changes. */
    method AssignRoleToUser(userId: nat, roleId: nat, fault: TxFault) returns (ok: bool)
      modifies this`userRoles
      ensures ok <==> fault == NoFault && userId in users && roleId in roles
      ensures userRoles == if ok || (fault == CommitFails(true) && userId in users && roleId in roles)
                           then Reassigned(old(userRoles), userId, roleId) else old(userRoles)
      ensures ok || (fault == CommitFails(true) && userId in users && roleId in roles) ==>
                BecomesOnly(old(userRoles), userRoles, userId, roleId)
    {
      ReassignedIsOnly(userRoles, userId, roleId);
      if fault.BeginFails? || fault.DeleteFails? {
        return false;
      }
      var tx := WithoutUser(userRoles, userId);
      if fault.InsertFails? || userId !in users || roleId !in roles {
        return false;
      }
      tx := tx + [UserRole(userId, roleId)];
      if fault == CommitFails(false) {
        return false;
      }
      userRoles := tx;
      return fault.NoFault?;
    }

    method GetRoleByName(name: string) returns (role: Option<nat>)
      ensures role.Some? ==> role.value in roles && roles[role.value] == name
      ensures role.None? ==> name !in roles.Values
    {
      if id :| id in roles && roles[id] == name {
        return Some(id);
      }
      return None;
    }

    /** Inserts the user, then its default role. A failure in between leaves a user without a role. */
    method CreateUser(user: nat, failsAt: Option<SignupStep>) returns (ok: bool)
      requires user !in users && CountRows(userRoles, user) == 0
      modifies this`users, this`userRoles
      ensures users == if failsAt == Some(UserInsert) then old(users) else old(users) + {user}
      ensures ok <==> failsAt !in {Some(UserInsert), Some(DefaultLookup), Some(DefaultInsert)} && "user" in roles.Values
      ensures !ok ==> userRoles == old(userRoles)
      ensures ok ==> AddsDefault(old(userRoles), userRoles, user, roles)
    {
      if failsAt == Some(UserInsert) {
        return false;
      }
      users := users + {user};
      if failsAt == Some(DefaultLookup) {
        return false;
      }
      var role := GetRoleByName(DEFAULT_ROLE);
      if role.None? || failsAt == Some(DefaultInsert) {
        return false;
      }
      userRoles := userRoles + [UserRole(user, role.value)];
      return true;
    }

    /** A signup that nothing interleaves with adds one row, for the default role, or none if it fails early. */
    method SignUp(user: nat, failsAt: Option<SignupStep>) returns (ok: bool)
      requires user !in users && CountRows(userRoles, user) == 0
      modifies this`users, this`userRoles
      ensures users == if failsAt == Some(UserInsert) then old(users) else old(users) + {user}
      ensures ok <==> failsAt == None && "user" in roles.Values
      ensures userRoles == old(userRoles) || AddsDefault(old(userRoles), userRoles, user, roles)
      ensures ok ==> AddsDefault(old(userRoles), userRoles, user, roles)
    {
      ok := CreateUser(user, failsAt);
      if !ok || failsAt == Some(RoleLookup) {
        return false;
      }
      var role := GetRoleByName(DEFAULT_ROLE);
      if role.None? {
        return false;
      }
      assert failsAt.None? || failsAt.value.RoleAssign?;
      ReassignDefault(old(userRoles), userRoles, user, roles, role.value);
      ok := AssignRoleToUser(user, role.value, if failsAt == Some(RoleAssign) then InsertFails else NoFault);
    }

    /** Every row for that user and role goes, however many; every other row stays as often as it was there. */
    method RemoveRoleFromUser(userId: nat, roleId: nat)
      modifies this`userRoles
      ensures UserRole(userId, roleId) !in userRoles
      ensures forall row :: row != UserRole(userId, roleId) ==> multiset(userRoles)[row] == multiset(old(userRoles))[row]
      ensures userRoles == WithoutRole(old(userRoles), userId, roleId)
    {
      WithoutRoleContents(userRoles, userId, roleId);
      userRoles := WithoutRole(userRoles, userId, roleId);
    }
  }

  /** Passing the check for all of a nonempty list implies passing it for any. */
  lemma AllImpliesAny(rows: seq<UserRole>, roles: map<nat, string>, u: nat, names: seq<string>)
    requires names != [] && |HeldNames(rows, roles, u, names)| == |names|
    ensures exists i :: 0 <= i < |names| && Holds(rows, roles, u, names[i])
  {
    CountIsSubsetTest(rows, roles, u, names);
    assert Holds(rows, roles, u, names[0]);
  }
}
