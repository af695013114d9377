/** The sorted contact list and the row changes it announces to its views. */
module Contacts {
  import opened Sequences

  type Id = nat

  /** What contactSort looks at. Statuses are compared by their enum value. */
  datatype Key = Key(status: nat, nickname: string)

  /** QString::localeAwareCompare, of which only the sign is used. */
  type Collation = (string, string) -> int

  type Order = (Id, Id) -> bool

  predicate ContactSort(cmp: Collation, a: Key, b: Key) {
    if a.status != b.status then a.status < b.status else cmp(a.nickname, b.nickname) < 0
  }

  function KeyOf(keys: map<Id, Key>, user: Id): Key {
    if user in keys then keys[user] else Key(0, "")
  }

  function By(cmp: Collation, keys: map<Id, Key>): Order {
    (a: Id, b: Id) => ContactSort(cmp, KeyOf(keys, a), KeyOf(keys, b))
  }

  // ---- strict weak orders, what std::sort and std::lower_bound ask for ----

  ghost predicate WeakAt<T(!new)>(lt: (T, T) -> bool, a: T, b: T, c: T) {
    (lt(a, b) ==> !lt(b, a)) && (lt(a, c) ==> lt(a, b) || lt(b, c))
  }

  ghost predicate StrictWeak<T(!new)>(lt: (T, T) -> bool) {
    forall a: T, b: T, c: T :: WeakAt(lt, a, b, c)
  }

  /** contactSort is a strict weak order exactly when the collation is one on nicknames. */
  lemma ContactSortExact(cmp: Collation)
    ensures StrictWeak((a: Key, b: Key) => ContactSort(cmp, a, b)) <==> StrictWeak((x: string, y: string) => cmp(x, y) < 0)
  {
    var onKeys, onNames := (a: Key, b: Key) => ContactSort(cmp, a, b), (x: string, y: string) => cmp(x, y) < 0;
    if StrictWeak(onNames) {
      forall a: Key, b: Key, c: Key
        ensures WeakAt(onKeys, a, b, c)
      {
        assert WeakAt(onNames, a.nickname, b.nickname, c.nickname);
      }
    }
    if StrictWeak(onKeys) {
      forall x: string, y: string, z: string
        ensures WeakAt(onNames, x, y, z)
      {
        assert WeakAt(onKeys, Key(0, x), Key(0, y), Key(0, z));
      }
    }
  }

  /** So the list's order is one for whatever keys the contacts have. */
  lemma ByIsWeak(cmp: Collation, keys: map<Id, Key>)
    requires StrictWeak((x: string, y: string) => cmp(x, y) < 0)
    ensures StrictWeak(By(cmp, keys))
  {
    ContactSortExact(cmp);
    var onKeys := (a: Key, b: Key) => ContactSort(cmp, a, b);
    forall a: Id, b: Id, c: Id
      ensures WeakAt(By(cmp, keys), a, b, c)
    {
      assert WeakAt(onKeys, KeyOf(keys, a), KeyOf(keys, b), KeyOf(keys, c));
    }
  }

  // ---- lists ----

  ghost predicate Sorted(s: seq<Id>, lt: Order) {
    forall i, j | 0 <= i < j < |s| :: !lt(s[j], s[i])
  }

  /** What std::sort promises, and no more: it may swap contacts with equal keys. */
  ghost predicate SortOf(r: seq<Id>, s: seq<Id>, lt: Order) {
    multiset(r) == multiset(s) && Sorted(r, lt)
  }

  function IndexOf(s: seq<Id>, user: Id): (row: int)
    ensures -1 <= row < |s|
    ensures row >= 0 ==> s[row] == user
    ensures row == -1 <==> user !in s
  {
    if s == [] then -1
    else if s[0] == user then 0
    else
      var row := IndexOf(s[1..], user);
      if row == -1 then -1 else row + 1
  }

  function Insert(s: seq<Id>, row: nat, user: Id): seq<Id>
    requires row <= |s|
  {
    s[..row] + [user] + s[row..]
  }

  function RemoveAt(s: seq<Id>, row: nat): seq<Id>
    requires row < |s|
  {
    s[..row] + s[row + 1..]
  }

  // ---- row changes ----

  /** A move's destination is the row, counted before the move, in front of which the moved row ends up. */
  datatype Change = Inserted(row: nat) | Moved(row: nat, before: nat) | Removed(row: nat) | DataChanged(row: nat)

  predicate Applicable(view: seq<Id>, c: Change, model: seq<Id>) {
    match c
    case Inserted(row) => row <= |view| && row < |model|
    case Moved(row, before) => row < |view| && before <= |view|
    case Removed(row) => row < |view|
    case DataChanged(_) => true
  }

  /** What a view makes of a change; it fetches an inserted row from the model. */
  function Replay(view: seq<Id>, c: Change, model: seq<Id>): seq<Id>
    requires Applicable(view, c, model)
  {
    match c
    case Inserted(row) => Insert(view, row, model[row])
    case Moved(row, before) => Insert(RemoveAt(view, row), if before > row then before - 1 else before, view[row])
    case Removed(row) => RemoveAt(view, row)
    case DataChanged(_) => view
  }

  // ---- lower_bound ----

  ghost predicate IsLowerBound(s: seq<Id>, user: Id, row: nat, lt: Order) {
    && row <= |s|
    && (forall i | 0 <= i < row :: lt(s[i], user))
    && (forall i | row <= i < |s| :: !lt(s[i], user))
  }

  /** std::lower_bound: the first row whose contact is not before the given one. */
  method LowerBound(s: seq<Id>, user: Id, lt: Order) returns (row: nat)
    requires StrictWeak(lt) && Sorted(s, lt)
    ensures IsLowerBound(s, user, row, lt)
  {
    row := 0;
    var count := |s|;
    while count > 0
      invariant 0 <= row <= row + count <= |s|
      invariant forall i | 0 <= i < row :: lt(s[i], user)
      invariant forall i | row + count <= i < |s| :: !lt(s[i], user)
    {
      var step := count / 2;
      var mid := row + step;
      if lt(s[mid], user) {
        forall i | row <= i < mid
          ensures lt(s[i], user)
        {
          assert WeakAt(lt, s[mid], s[i], user);
        }
        row, count := mid + 1, count - step - 1;
      } else {
        forall i | mid < i < |s|
          ensures !lt(s[i], user)
        {
          assert WeakAt(lt, s[i], s[mid], user);
        }
        count := step;
      }
    }
  }

  /** std::sort, of which callers know nothing but SortOf. */
  method Sort(s: seq<Id>, lt: Order) returns (r: seq<Id>)
    requires StrictWeak(lt)
    ensures SortOf(r, s, lt)
  {
    r := [];
    for n := 0 to |s|
      invariant SortOf(r, s[..n], lt)
    {
      var row := LowerBound(r, s[n], lt);
      InsertSorted(r, row, s[n], lt);
      assert s[..n + 1] == s[..n] + [s[n]];
      InsertMultiset(r, row, s[n]);
      r := Insert(r, row, s[n]);
    }
    assert s[..|s|] == s;
  }

  lemma InsertMultiset(s: seq<Id>, row: nat, user: Id)
    requires row <= |s|
    ensures multiset(Insert(s, row, user)) == multiset(s) + multiset{user}
  {
    assert s == s[..row] + s[row..];
  }

  /** Inserting at the lower bound keeps a list sorted. */
  lemma InsertSorted(s: seq<Id>, row: nat, user: Id, lt: Order)
    requires StrictWeak(lt) && Sorted(s, lt) && IsLowerBound(s, user, row, lt)
    ensures Sorted(Insert(s, row, user), lt)
  {
    var t := Insert(s, row, user);
    forall i, j | 0 <= i < j < |t|
      ensures !lt(t[j], t[i])
    {
      assert WeakAt(lt, t[i], t[j], t[i]);
    }
  }

  // ---- updateUser ----

  lemma {:induction false} NoMoreThan(a: seq<Id>, b: seq<Id>)
    requires NoRepeats(a) && forall x | x in a :: x in b
    ensures |a| <= |b|
  {
    if a != [] {
      assert a[0] in a;
      var row := IndexOf(b, a[0]);
      forall x | x in a[1..]
        ensures x in RemoveAt(b, row)
      {
        var i :| 1 <= i < |a| && a[i] == x;
        assert a[0] != a[i] && a[i] in a;
        var j :| 0 <= j < |b| && b[j] == x;
        assert RemoveAt(b, row)[if j < row then j else j - 1] == x;
      }
      NoMoreThan(a[1..], RemoveAt(b, row));
    }
  }

  lemma SameMembers(a: seq<Id>, b: seq<Id>, x: Id)
    requires multiset(a) == multiset(b)
    ensures x in a <==> x in b
  {
    assert x in a <==> x in multiset(a);
    assert x in b <==> x in multiset(b);
  }

  lemma RestDistinct(s: seq<Id>, row: nat)
    requires NoRepeats(s) && row < |s|
    ensures NoRepeats(RemoveAt(s, row)) && s[row] !in RemoveAt(s, row)
    ensures forall x | x in RemoveAt(s, row) :: x in s
  {
  }

  lemma RestMultiset(s: seq<Id>, row: nat)
    requires row < |s|
    ensures multiset(s) == multiset(RemoveAt(s, row)) + multiset{s[row]}
  {
    assert s == s[..row] + [s[row]] + s[row + 1..];
  }

  /** Lists with the same members still have the same members when a shared one is removed from each. */
  lemma RestsMatch(a: seq<Id>, i: nat, b: seq<Id>, j: nat)
    requires multiset(a) == multiset(b) && i < |a| && j < |b| && a[i] == b[j]
    ensures multiset(RemoveAt(a, i)) == multiset(RemoveAt(b, j))
  {
    RestMultiset(a, i);
    RestMultiset(b, j);
    var left, right := multiset(RemoveAt(a, i)), multiset(RemoveAt(b, j));
    assert left == (left + multiset{a[i]}) - multiset{a[i]};
    assert right == (right + multiset{a[i]}) - multiset{a[i]};
  }

  lemma RestSorted(s: seq<Id>, row: nat, lt: Order)
    requires Sorted(s, lt) && row < |s|
    ensures Sorted(RemoveAt(s, row), lt)
  {
  }

  /** Too many contacts would have to come before the user for one after its row to do so. */
  lemma NothingBelowAfter(s: seq<Id>, sorted: seq<Id>, row: nat, j: nat, lt: Order)
    requires StrictWeak(lt) && NoRepeats(s) && SortOf(sorted, s, lt)
    requires row < j < |s| && |sorted| == |s| && sorted[row] == s[row] && Sorted(RemoveAt(s, row), lt)
    ensures !lt(s[j], s[row])
  {
    var user, rest := s[row], RemoveAt(s, row);
    if lt(s[j], user) {
      RestDistinct(s, row);
      forall x | x in rest[..j]
        ensures x in sorted[..row]
      {
        var i :| 0 <= i < j && rest[i] == x;
        assert rest[j - 1] == s[j] && WeakAt(lt, rest[j - 1], x, user) && WeakAt(lt, user, x, user);
        assert lt(x, user);
        SameMembers(sorted, s, x);
        var k :| 0 <= k < |sorted| && sorted[k] == x;
        assert k < row;
      }
      NoMoreThan(rest[..j], sorted[..row]);
    }
  }

  lemma NothingAboveBefore(s: seq<Id>, sorted: seq<Id>, row: nat, i: nat, lt: Order)
    requires StrictWeak(lt) && NoRepeats(s) && SortOf(sorted, s, lt)
    requires i < row < |s| && |sorted| == |s| && sorted[row] == s[row] && Sorted(RemoveAt(s, row), lt)
    ensures !lt(s[row], s[i])
  {
    var user, rest := s[row], RemoveAt(s, row);
    if lt(user, s[i]) {
      RestDistinct(s, row);
      forall x | x in rest[i..]
        ensures x in sorted[row + 1..]
      {
        var j :| i <= j < |rest| && rest[j] == x;
        assert rest[i] == s[i] && WeakAt(lt, user, x, rest[i]) && WeakAt(lt, user, x, user);
        assert lt(user, x);
        SameMembers(sorted, s, x);
        var k :| 0 <= k < |sorted| && sorted[k] == x;
        assert k > row;
      }
      NoMoreThan(rest[i..], sorted[row + 1..]);
    }
  }

  /** A user whose row in the sorted copy is its old one leaves the old list sorted, ties or not. */
  lemma ShortcutStaysSorted(s: seq<Id>, sorted: seq<Id>, row: nat, lt: Order)
    requires StrictWeak(lt) && NoRepeats(s) && SortOf(sorted, s, lt)
    requires row < |s| && |sorted| == |s| && sorted[row] == s[row] && Sorted(RemoveAt(s, row), lt)
    ensures Sorted(s, lt)
  {
    var rest := RemoveAt(s, row);
    forall i, j | 0 <= i < j < |s|
      ensures !lt(s[j], s[i])
    {
      if i == row {
        NothingBelowAfter(s, sorted, row, j, lt);
      } else if j == row {
        NothingAboveBefore(s, sorted, row, i, lt);
      } else {
        assert !lt(rest[if j < row then j else j - 1], rest[if i < row then i else i - 1]);
      }
    }
  }

  // ---- does the announced move give the sorted list? ----

  /** No two contacts other than the user have equal keys. */
  ghost predicate NoOtherTies(s: seq<Id>, user: Id, lt: Order) {
    forall x, y | x in s && y in s && x != y && x != user && y != user :: lt(x, y) || lt(y, x)
  }

  lemma SortedHeads(a: seq<Id>, b: seq<Id>, lt: Order)
    requires multiset(a) == multiset(b) && Sorted(a, lt) && Sorted(b, lt) && a != [] && b != []
    requires forall x, y | x in a && y in a && x != y :: lt(x, y) || lt(y, x)
    ensures a[0] == b[0]
  {
    SameMembers(a, b, a[0]);
    SameMembers(a, b, b[0]);
    var i :| 0 <= i < |b| && b[i] == a[0];
    var j :| 0 <= j < |a| && a[j] == b[0];
  }

  lemma {:induction false} SortedUnique(a: seq<Id>, b: seq<Id>, lt: Order)
    requires multiset(a) == multiset(b) && Sorted(a, lt) && Sorted(b, lt)
    requires forall x, y | x in a && y in a && x != y :: lt(x, y) || lt(y, x)
    ensures a == b
  {
    assert |a| == |multiset(a)| && |b| == |multiset(b)|;
    if a != [] {
      SortedHeads(a, b, lt);
      assert RemoveAt(a, 0) == a[1..] && RemoveAt(b, 0) == b[1..];
      RestsMatch(a, 0, b, 0);
      SortedUnique(a[1..], b[1..], lt);
    }
  }

  /** The move that updateUser announces. */
  function MoveTo(row: nat, newRow: nat): Change {
    Moved(row, if newRow > row then newRow + 1 else newRow)
  }

  /** The sort leaves the other contacts where they are, relative to each other. */
  lemma OthersKeepOrder(s: seq<Id>, sorted: seq<Id>, row: nat, newRow: nat, lt: Order)
    requires NoRepeats(s) && SortOf(sorted, s, lt) && row < |s| && newRow < |sorted| && s[row] == sorted[newRow]
    requires Sorted(RemoveAt(s, row), lt) && NoOtherTies(s, s[row], lt)
    ensures RemoveAt(s, row) == RemoveAt(sorted, newRow)
  {
    RestDistinct(s, row);
    RestsMatch(s, row, sorted, newRow);
    RestSorted(sorted, newRow, lt);
    SortedUnique(RemoveAt(s, row), RemoveAt(sorted, newRow), lt);
  }

  lemma MoveGives(s: seq<Id>, t: seq<Id>, row: nat, newRow: nat)
    requires |s| == |t| && row < |s| && newRow < |t| && s[row] == t[newRow] && RemoveAt(s, row) == RemoveAt(t, newRow)
    ensures Replay(s, MoveTo(row, newRow), t) == t
  {
    var rest := RemoveAt(t, newRow);
    assert rest[..newRow] == t[..newRow] && rest[newRow..] == t[newRow + 1..];
    assert Insert(rest, newRow, t[newRow]) == t;
  }

  lemma MoveMirrors(s: seq<Id>, sorted: seq<Id>, user: Id, lt: Order)
    requires NoRepeats(s) && SortOf(sorted, s, lt) && user in s && user in sorted && |sorted| == |s|
    requires Sorted(RemoveAt(s, IndexOf(s, user)), lt) && NoOtherTies(s, user, lt)
    ensures Replay(s, MoveTo(IndexOf(s, user), IndexOf(sorted, user)), sorted) == sorted
  {
    OthersKeepOrder(s, sorted, IndexOf(s, user), IndexOf(sorted, user), lt);
    MoveGives(s, sorted, IndexOf(s, user), IndexOf(sorted, user));
  }

  /** Swapping two equal contacts leaves a sorted list sorted. */
  lemma SwapTied(s: seq<Id>, i: nat, j: nat, lt: Order)
    requires StrictWeak(lt) && Sorted(s, lt) && i < j < |s| && !lt(s[i], s[j])
    ensures SortOf(s[i := s[j]][j := s[i]], s, lt)
  {
    var t := s[i := s[j]][j := s[i]];
    forall k, l | 0 <= k < l < |s|
      ensures !lt(t[l], t[k])
    {
      assert forall m | i <= m <= j :: WeakAt(lt, s[i], s[m], s[j]) && WeakAt(lt, s[m], s[i], s[j]);
      assert WeakAt(lt, t[l], s[l], t[k]) && WeakAt(lt, s[l], s[k], t[k]) && WeakAt(lt, t[l], s[k], t[k]);
    }
  }

  lemma SortDistinct(sorted: seq<Id>, s: seq<Id>)
    requires NoRepeats(s) && multiset(sorted) == multiset(s)
    ensures NoRepeats(sorted) && |sorted| == |s|
  {
    assert |sorted| == |multiset(sorted)| && |s| == |multiset(s)|;
    forall i, j | 0 <= i < j < |sorted|
      ensures sorted[i] != sorted[j]
    {
      if sorted[i] == sorted[j] {
        SameMembers(sorted, s, sorted[i]);
        RestsMatch(sorted, i, s, IndexOf(s, sorted[i]));
        assert RemoveAt(sorted, i)[j - 1] == sorted[j];
        SameMembers(RemoveAt(sorted, i), RemoveAt(s, IndexOf(s, sorted[i])), sorted[j]);
        RestDistinct(s, IndexOf(s, sorted[i]));
      }
    }
  }

  /** Whatever outcome std::sort chooses for the given new row, replaying the announced move gives it. */
  ghost predicate AlwaysMirrored(s: seq<Id>, user: Id, newRow: nat, lt: Order)
    requires user in s && newRow < |s|
  {
    forall t | SortOf(t, s, lt) && IndexOf(t, user) == newRow :: Replay(s, MoveTo(IndexOf(s, user), newRow), t) == t
  }

  lemma MoveIgnoresModel(view: seq<Id>, c: Change, a: seq<Id>, b: seq<Id>)
    requires c.Moved? && Applicable(view, c, a) && Applicable(view, c, b)
    ensures Replay(view, c, a) == Replay(view, c, b)
  {
  }

  /** With two other contacts that tie, the sort has another outcome that puts the user into the same row. */
  lemma TiesSwap(s: seq<Id>, sorted: seq<Id>, user: Id, x: Id, y: Id, lt: Order) returns (t: seq<Id>)
    requires StrictWeak(lt) && NoRepeats(s) && SortOf(sorted, s, lt) && user in sorted
    requires x in sorted && y in sorted && x != user && y != user && IndexOf(sorted, x) < IndexOf(sorted, y)
    requires !lt(x, y)
    ensures SortOf(t, s, lt) && t != sorted && IndexOf(t, user) == IndexOf(sorted, user)
  {
    var i, j, row := IndexOf(sorted, x), IndexOf(sorted, y), IndexOf(sorted, user);
    t := sorted[i := y][j := x];
    SwapTied(sorted, i, j, lt);
    SortDistinct(t, s);
    assert t[row] == user && t[i] != sorted[i];
  }

  /** A move gives one list, so it cannot be right for two outcomes. */
  lemma TiesBreakTheMirror(s: seq<Id>, sorted: seq<Id>, t: seq<Id>, user: Id, lt: Order)
    requires SortOf(sorted, s, lt) && SortOf(t, s, lt) && t != sorted && user in s && user in sorted && |sorted| == |s|
    requires IndexOf(t, user) == IndexOf(sorted, user)
    ensures !AlwaysMirrored(s, user, IndexOf(sorted, user), lt)
  {
    MoveIgnoresModel(s, MoveTo(IndexOf(s, user), IndexOf(sorted, user)), sorted, t);
  }

  /** The announced move is right for every outcome of the sort exactly when no two other contacts tie. */
  lemma MirrorExact(s: seq<Id>, sorted: seq<Id>, user: Id, lt: Order)
    requires StrictWeak(lt) && NoRepeats(s) && SortOf(sorted, s, lt) && user in s && user in sorted && |sorted| == |s|
    requires Sorted(RemoveAt(s, IndexOf(s, user)), lt)
    ensures AlwaysMirrored(s, user, IndexOf(sorted, user), lt) <==> NoOtherTies(s, user, lt)
  {
    var newRow := IndexOf(sorted, user);
    if NoOtherTies(s, user, lt) {
      forall t | SortOf(t, s, lt) && IndexOf(t, user) == newRow
        ensures Replay(s, MoveTo(IndexOf(s, user), newRow), t) == t
      {
        SortDistinct(t, s);
        MoveMirrors(s, t, user, lt);
      }
    } else {
      var x, y :| x in s && y in s && x != y && x != user && y != user && !lt(x, y) && !lt(y, x);
      SameMembers(sorted, s, x);
      SameMembers(sorted, s, y);
      var t;
      if IndexOf(sorted, x) < IndexOf(sorted, y) {
        t := TiesSwap(s, sorted, user, x, y, lt);
      } else {
        t := TiesSwap(s, sorted, user, y, x, lt);
      }
      TiesBreakTheMirror(s, sorted, t, user, lt);
    }
  }

  /** What updateUser makes of a list. */
  ghost predicate Updated(s: seq<Id>, t: seq<Id>, user: Id, lt: Order) {
    && user in s && user in t && |t| == |s| && SortOf(t, s, lt)
    && (IndexOf(s, user) == IndexOf(t, user) ==> t == s)
    && (IndexOf(s, user) != IndexOf(t, user) && NoOtherTies(s, user, lt) ==>
          Replay(s, MoveTo(IndexOf(s, user), IndexOf(t, user)), t) == t)
  }

  function Announce(changes: seq<Change>, row: nat, newRow: nat): seq<Change> {
    (if row == newRow then changes else changes + [MoveTo(row, newRow)]) + [DataChanged(newRow)]
  }

  lemma UpdatedBySort(s: seq<Id>, sorted: seq<Id>, user: Id, lt: Order)
    requires StrictWeak(lt) && NoRepeats(s) && SortOf(sorted, s, lt) && user in s
    requires Sorted(RemoveAt(s, IndexOf(s, user)), lt)
    ensures user in sorted && |sorted| == |s|
    ensures Updated(s, if IndexOf(s, user) == IndexOf(sorted, user) then s else sorted, user, lt)
  {
    SortDistinct(sorted, s);
    SameMembers(sorted, s, user);
    if IndexOf(s, user) == IndexOf(sorted, user) {
      ShortcutStaysSorted(s, sorted, IndexOf(s, user), lt);
    } else if NoOtherTies(s, user, lt) {
      MoveMirrors(s, sorted, user, lt);
    }
  }

  // ---- the model ----

  class ContactsModel {
    var contacts: seq<Id>
    var announced: seq<Change>      // to the views, in order

    /** setIdentity: a sorted copy of the known contacts, before any view is told of a change. */
    constructor (known: seq<Id>, lt: Order)
      requires StrictWeak(lt)
      ensures SortOf(contacts, known, lt) && announced == []
    {
      var sorted := Sort(known, lt);
      contacts, announced := sorted, [];
    }

    method ContactAdded(user: Id, lt: Order)
      requires StrictWeak(lt) && Sorted(contacts, lt) && user !in contacts
      modifies this
      ensures Sorted(contacts, lt) && multiset(contacts) == multiset(old(contacts)) + multiset{user}
      ensures user in contacts && var c := Inserted(IndexOf(contacts, user));
              && announced == old(announced) + [c] && IsLowerBound(old(contacts), user, c.row, lt)
              && Applicable(old(contacts), c, contacts) && Replay(old(contacts), c, contacts) == contacts
    {
      var row := LowerBound(contacts, user, lt);
      InsertSorted(contacts, row, user, lt);
      InsertMultiset(contacts, row, user);
      InsertIndex(contacts, row, user);
      announced := announced + [Inserted(row)];
      contacts := Insert(contacts, row, user);
    }

    /** lt is the order after the user's key has changed; the other contacts are sorted already. */
    method UpdateUser(user: Id, lt: Order)
      requires StrictWeak(lt) && NoRepeats(contacts)
      requires user in contacts ==> Sorted(RemoveAt(contacts, IndexOf(contacts, user)), lt)
      modifies this
      ensures user !in old(contacts) ==> contacts == old(contacts) && announced == old(announced)
      ensures user in old(contacts) ==>
                && Updated(old(contacts), contacts, user, lt)
                && announced == Announce(old(announced), IndexOf(old(contacts), user), IndexOf(contacts, user))
    {
      var row := IndexOf(contacts, user);
      if row < 0 {
        return;
      }
      var sorted := Sort(contacts, lt);
      UpdatedBySort(contacts, sorted, user, lt);
      var newRow := IndexOf(sorted, user);
      ghost var before := announced;
      if row != newRow {
        announced := announced + [MoveTo(row, newRow)];
        contacts := sorted;
      }
      announced := announced + [DataChanged(newRow)];
      assert announced == Announce(before, row, newRow);
    }

    method ContactRemoved(user: Id)
      requires user in contacts
      modifies this
      ensures announced == old(announced) + [Removed(IndexOf(old(contacts), user))]
      ensures Replay(old(contacts), Removed(IndexOf(old(contacts), user)), contacts) == contacts
      ensures multiset(contacts) == multiset(old(contacts)) - multiset{user}
      ensures forall lt | Sorted(old(contacts), lt) :: Sorted(contacts, lt)
    {
      var row := IndexOf(contacts, user);
      RestMultiset(contacts, row);
      forall lt | Sorted(contacts, lt)
        ensures Sorted(RemoveAt(contacts, row), lt)
      {
        RestSorted(contacts, row, lt);
      }
      announced := announced + [Removed(row)];
      contacts := RemoveAt(contacts, row);
    }
  }

  lemma {:induction false} InsertIndex(s: seq<Id>, row: nat, user: Id)
    requires row <= |s| && user !in s
    ensures IndexOf(Insert(s, row, user), user) == row
  {
    if row > 0 {
      InsertIndex(s[1..], row - 1, user);
      assert Insert(s, row, user)[1..] == Insert(s[1..], row - 1, user);
    }
  }

  // ---- runs ----

  datatype State = State(keys: map<Id, Key>, contacts: seq<Id>, view: seq<Id>)

  /** sorted is the outcome of std::sort on the changed keys, row that of std::lower_bound. */
  datatype Event =
    | Added(user: Id, key: Key, row: nat)
    | Rekeyed(user: Id, key: Key, sorted: seq<Id>)
    | Gone(user: Id)

  /** Every contact that is added or rekeyed gets its key first. */
  function KeysAfter(s: State, e: Event): map<Id, Key> {
    match e
    case Added(user, key, _) => s.keys[user := key]
    case Rekeyed(user, key, _) => s.keys[user := key]
    case Gone(_) => s.keys
  }

  ghost predicate Possible(cmp: Collation, s: State, e: Event) {
    var lt := By(cmp, KeysAfter(s, e));
    match e
    case Added(user, _, row) => user !in s.contacts && IsLowerBound(s.contacts, user, row, lt)
    case Rekeyed(user, _, sorted) => user in s.contacts && user in sorted && |sorted| == |s.contacts| == |s.view|
                                     && SortOf(sorted, s.contacts, lt)
    case Gone(user) => user in s.contacts && |s.view| == |s.contacts|
  }

  /** The list changes, and the view replays what is announced. */
  ghost function Next(cmp: Collation, s: State, e: Event): State
    requires Possible(cmp, s, e)
  {
    match e
    case Added(user, key, row) =>
      var contacts := Insert(s.contacts, row, user);
      State(KeysAfter(s, e), contacts,
            if row <= |s.view| then Replay(s.view, Inserted(row), contacts) else s.view)
    case Rekeyed(user, key, sorted) =>
      var row, newRow := IndexOf(s.contacts, user), IndexOf(sorted, user);
      if row == newRow then State(KeysAfter(s, e), s.contacts, s.view)
      else State(KeysAfter(s, e), sorted, Replay(s.view, MoveTo(row, newRow), sorted))
    case Gone(user) =>
      var row := IndexOf(s.contacts, user);
      State(s.keys, RemoveAt(s.contacts, row), Replay(s.view, Removed(row), RemoveAt(s.contacts, row)))
  }

  ghost predicate IsRun(cmp: Collation, s: State, es: seq<Event>)
    decreases |es|
  {
    es == [] || (Possible(cmp, s, es[0]) && IsRun(cmp, Next(cmp, s, es[0]), es[1..]))
  }

  ghost function Run(cmp: Collation, s: State, es: seq<Event>): State
    requires IsRun(cmp, s, es)
    decreases |es|
  {
    if es == [] then s else Run(cmp, Next(cmp, s, es[0]), es[1..])
  }

  ghost predicate InOrder(cmp: Collation, s: State) {
    NoRepeats(s.contacts) && Sorted(s.contacts, By(cmp, s.keys))
  }

  /** Whenever a contact moves, no two others have equal keys. */
  ghost predicate Untied(cmp: Collation, s: State, es: seq<Event>)
    requires IsRun(cmp, s, es)
    decreases |es|
  {
    es == [] || ((es[0].Rekeyed? ==> NoOtherTies(s.contacts, es[0].user, By(cmp, KeysAfter(s, es[0]))))
                 && Untied(cmp, Next(cmp, s, es[0]), es[1..]))
  }

  /** The list's order: online before offline and so on, and within a status the collation's order of the nicknames. */
  lemma {:induction false} InOrderMeans(cmp: Collation, s: State)
    requires forall user | user in s.contacts :: user in s.keys
    ensures InOrder(cmp, s)
      <==> forall i, j | 0 <= i < j < |s.contacts| ::
             var a, b := s.keys[s.contacts[i]], s.keys[s.contacts[j]];
             && s.contacts[i] != s.contacts[j]
             && (a.status < b.status || (a.status == b.status && cmp(b.nickname, a.nickname) >= 0))
  {
    if InOrder(cmp, s) {
      forall i, j | 0 <= i < j < |s.contacts|
        ensures !By(cmp, s.keys)(s.contacts[j], s.contacts[i])
      {
      }
    }
  }

  lemma AddStaysInOrder(cmp: Collation, s: State, user: Id, key: Key, row: nat)
    requires StrictWeak((x: string, y: string) => cmp(x, y) < 0) && InOrder(cmp, s)
    requires Possible(cmp, s, Added(user, key, row))
    ensures InOrder(cmp, Next(cmp, s, Added(user, key, row)))
  {
    var keys := s.keys[user := key];
    ByIsWeak(cmp, keys);
    assert Sorted(s.contacts, By(cmp, keys)) by {
      forall i, j | 0 <= i < j < |s.contacts|
        ensures !By(cmp, keys)(s.contacts[j], s.contacts[i])
      {
        assert !By(cmp, s.keys)(s.contacts[j], s.contacts[i]);
      }
    }
    InsertSorted(s.contacts, row, user, By(cmp, keys));
  }

  /** Changing one contact's key leaves the others sorted. */
  lemma OthersStaySorted(cmp: Collation, s: State, user: Id, key: Key)
    requires InOrder(cmp, s) && user in s.contacts
    ensures Sorted(RemoveAt(s.contacts, IndexOf(s.contacts, user)), By(cmp, s.keys[user := key]))
  {
    var row := IndexOf(s.contacts, user);
    var rest := RemoveAt(s.contacts, row);
    RestSorted(s.contacts, row, By(cmp, s.keys));
    RestDistinct(s.contacts, row);
    forall i, j | 0 <= i < j < |rest|
      ensures !By(cmp, s.keys[user := key])(rest[j], rest[i])
    {
      assert rest[i] in rest && rest[j] in rest;
      assert KeyOf(s.keys[user := key], rest[i]) == KeyOf(s.keys, rest[i]);
      assert KeyOf(s.keys[user := key], rest[j]) == KeyOf(s.keys, rest[j]);
      assert !By(cmp, s.keys)(rest[j], rest[i]);
    }
  }

  lemma StepStaysInOrder(cmp: Collation, s: State, e: Event)
    requires StrictWeak((x: string, y: string) => cmp(x, y) < 0) && InOrder(cmp, s) && Possible(cmp, s, e)
    ensures InOrder(cmp, Next(cmp, s, e))
  {
    match e
    case Added(user, key, row) => AddStaysInOrder(cmp, s, user, key, row);
    case Rekeyed(user, key, sorted) =>
      ByIsWeak(cmp, KeysAfter(s, e));
      OthersStaySorted(cmp, s, user, key);
      UpdatedBySort(s.contacts, sorted, user, By(cmp, KeysAfter(s, e)));
      SortDistinct(sorted, s.contacts);
    case Gone(user) =>
      RestSorted(s.contacts, IndexOf(s.contacts, user), By(cmp, s.keys));
      RestDistinct(s.contacts, IndexOf(s.contacts, user));
  }

  /** A rekeying step is what updateUser does. */
  lemma RekeyedIsUpdate(cmp: Collation, s: State, user: Id, key: Key, sorted: seq<Id>)
    requires StrictWeak((x: string, y: string) => cmp(x, y) < 0) && InOrder(cmp, s)
    requires Possible(cmp, s, Rekeyed(user, key, sorted))
    ensures Updated(s.contacts, Next(cmp, s, Rekeyed(user, key, sorted)).contacts, user, By(cmp, s.keys[user := key]))
  {
    ByIsWeak(cmp, s.keys[user := key]);
    OthersStaySorted(cmp, s, user, key);
    UpdatedBySort(s.contacts, sorted, user, By(cmp, s.keys[user := key]));
  }

  lemma StepStaysMirrored(cmp: Collation, s: State, e: Event)
    requires StrictWeak((x: string, y: string) => cmp(x, y) < 0) && InOrder(cmp, s) && Possible(cmp, s, e)
    requires e.Rekeyed? ==> NoOtherTies(s.contacts, e.user, By(cmp, KeysAfter(s, e)))
    requires s.view == s.contacts
    ensures Next(cmp, s, e).view == Next(cmp, s, e).contacts
  {
    if e.Rekeyed? {
      OthersStaySorted(cmp, s, e.user, e.key);
      MoveMirrors(s.contacts, e.sorted, e.user, By(cmp, KeysAfter(s, e)));
    }
  }

  /** Whether a contact is listed after a run: it was, or was added, and did not go since. */
  function IsListed(es: seq<Event>, user: Id, before: bool): bool {
    if es == [] then before
    else
      IsListed(es[1..], user,
               if es[0].user != user || es[0].Rekeyed? then before else es[0].Added?)
  }

  lemma {:induction false} StepMembers(cmp: Collation, s: State, e: Event, user: Id)
    requires InOrder(cmp, s) && Possible(cmp, s, e)
    ensures user in Next(cmp, s, e).contacts
      <==> if e.user != user || e.Rekeyed? then user in s.contacts else e.Added?
  {
    match e
    case Added(u, _, row) =>
      var t := Insert(s.contacts, row, u);
      assert s.contacts == s.contacts[..row] + s.contacts[row..];
      assert user in t <==> user in s.contacts[..row] || user == u || user in s.contacts[row..];
    case Rekeyed(_, _, sorted) => SameMembers(sorted, s.contacts, user);
    case Gone(u) =>
      var row := IndexOf(s.contacts, u);
      RestDistinct(s.contacts, row);
      assert s.contacts == s.contacts[..row] + [u] + s.contacts[row + 1..];
  }

  /**
   Over whole runs the list stays sorted by the current keys, with or without ties, and holds, once each, the contacts
   it had and those added, less those gone.
   */
  lemma {:induction false} RunStaysInOrder(cmp: Collation, s: State, es: seq<Event>)
    requires StrictWeak((x: string, y: string) => cmp(x, y) < 0) && InOrder(cmp, s) && IsRun(cmp, s, es)
    ensures InOrder(cmp, Run(cmp, s, es))
    ensures forall user :: user in Run(cmp, s, es).contacts <==> IsListed(es, user, user in s.contacts)
    decreases |es|
  {
    if es != [] {
      var next := Next(cmp, s, es[0]);
      StepStaysInOrder(cmp, s, es[0]);
      RunStaysInOrder(cmp, next, es[1..]);
      forall user
        ensures user in Run(cmp, s, es).contacts <==> IsListed(es, user, user in s.contacts)
      {
        StepMembers(cmp, s, es[0], user);
      }
    }
  }

  /** A view that only replays the announced changes always shows the model's list, as long as no others tie. */
  lemma {:induction false} RunStaysMirrored(cmp: Collation, s: State, es: seq<Event>)
    requires StrictWeak((x: string, y: string) => cmp(x, y) < 0) && InOrder(cmp, s) && IsRun(cmp, s, es)
    requires Untied(cmp, s, es) && s.view == s.contacts
    ensures Run(cmp, s, es).view == Run(cmp, s, es).contacts
    decreases |es|
  {
    if es != [] {
      StepStaysInOrder(cmp, s, es[0]);
      StepStaysMirrored(cmp, s, es[0]);
      RunStaysMirrored(cmp, Next(cmp, s, es[0]), es[1..]);
    }
  }

  // ---- a view that goes wrong ----

  /** A collation that tells no names apart. */
  const FLAT: Collation := (x, y) => 0
  const TIED := State(map[0 := Key(1, "b"), 1 := Key(1, "b"), 2 := Key(2, "c")], [0, 1, 2], [0, 1, 2])
  const ONLINE := Rekeyed(2, Key(0, "c"), [2, 1, 0])

  lemma {:induction false} TiedMove()
    ensures IndexOf([0, 1, 2], 2) == 2 && IndexOf([2, 1, 0], 2) == 0
    ensures Replay([0, 1, 2], MoveTo(2, 0), [2, 1, 0]) == [2, 0, 1]
  {
    assert RemoveAt([0, 1, 2], 2) == [0, 1];
    assert Insert([0, 1], 0, 2) == [2, 0, 1];
  }

  lemma {:induction false} SameThree(a: Id, b: Id, c: Id)
    ensures multiset([c, b, a]) == multiset([a, b, c])
  {
    assert multiset([c, b, a]) == multiset{a, b, c};
    assert multiset([a, b, c]) == multiset{a, b, c};
  }

  lemma {:induction false} SortedThree(a: Id, b: Id, c: Id, lt: Order)
    requires !lt(b, a) && !lt(c, b) && !lt(c, a)
    ensures Sorted([a, b, c], lt)
  {
  }

  lemma {:induction false} TiedBefore()
    ensures InOrder(FLAT, TIED)
  {
    var keys := TIED.keys;
    assert FLAT("b", "b") == 0;
    assert KeyOf(keys, 0) == KeyOf(keys, 1) == Key(1, "b") && KeyOf(keys, 2) == Key(2, "c");
    assert !By(FLAT, keys)(1, 0) && !By(FLAT, keys)(2, 1) && !By(FLAT, keys)(2, 0);
    SortedThree(0, 1, 2, By(FLAT, keys));
  }

  lemma {:induction false} TiedSort()
    ensures SortOf([2, 1, 0], [0, 1, 2], By(FLAT, KeysAfter(TIED, ONLINE)))
  {
    var after := KeysAfter(TIED, ONLINE);
    assert FLAT("b", "b") == 0;
    assert KeyOf(after, 0) == KeyOf(after, 1) == Key(1, "b") && KeyOf(after, 2) == Key(0, "c");
    assert !By(FLAT, after)(1, 2) && !By(FLAT, after)(0, 1) && !By(FLAT, after)(0, 2);
    SortedThree(2, 1, 0, By(FLAT, after));
    SameThree(0, 1, 2);
  }

  /** Two contacts of the same status and name, and a third that comes online: the view shows the two in the old order. */
  lemma {:induction false} TieHappens()
    ensures StrictWeak((x: string, y: string) => FLAT(x, y) < 0) && InOrder(FLAT, TIED) && Possible(FLAT, TIED, ONLINE)
    ensures Next(FLAT, TIED, ONLINE).contacts == [2, 1, 0] && Next(FLAT, TIED, ONLINE).view == [2, 0, 1]
  {
    TiedMove();
    TiedBefore();
    TiedSort();
  }
}
