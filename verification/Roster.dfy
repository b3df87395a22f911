/**
 Vendor user rosters (app/vendor_roster_import.py): the duplicate check of an import, and the
 difference between two snapshots.
 */
module Roster {
  import opened Common

  /** A snapshot row; `email` is the normalized address. */
  datatype Row = Row(email: string, name: string, role: string, status: string)

  /** str.lower() and str.strip(), for ASCII. */
  function Lower(s: string): string {
    if s == "" then ""
    else [if 'A' <= s[0] <= 'Z' then ((s[0] as int - 'A' as int) + 'a' as int) as char else s[0]] + Lower(s[1..])
  }

  function StripLeft(s: string): string {
    if s != "" && IsSpace(s[0]) then StripLeft(s[1..]) else s
  }

  function StripRight(s: string): string {
    if s != "" && IsSpace(s[|s| - 1]) then StripRight(s[..|s| - 1]) else s
  }

  function Strip(s: string): string {
    StripRight(StripLeft(s))
  }

  /******* Importing *******/

  /** A line of the file; `loginOk` says whether its last_login_at can be parsed. */
  datatype Line = Line(email: string, name: string, role: string, status: string, loginOk: bool)

  function ToRow(l: Line): Row {
    Row(Lower(Strip(l.email)), Strip(l.name), Strip(l.role), Strip(l.status))
  }

  function ToRows(lines: seq<Line>): seq<Row> {
    if lines == [] then [] else ToRows(lines[..|lines| - 1]) + [ToRow(lines[|lines| - 1])]
  }

  lemma {:induction false} ToRowsAt(lines: seq<Line>, i: nat)
    ensures |ToRows(lines)| == |lines|
    ensures i < |lines| ==> ToRows(lines)[i] == ToRow(lines[i])
  {
    if lines != [] {
      ToRowsAt(lines[..|lines| - 1], i);
    }
  }

  /** What is wrong with the i-th line, given the lines before it. */
  ghost predicate Offends(lines: seq<Line>, maxRows: int, i: int)
    requires 0 <= i < |lines|
  {
    i + 1 > maxRows || Strip(lines[i].email) == "" || !lines[i].loginOk ||
    ToRow(lines[i]).email in EmailsOf(lines[..i])
  }

  ghost predicate NoneOffends(lines: seq<Line>, maxRows: int, k: int)
    requires 0 <= k <= |lines|
  {
    forall i {:trigger Offends(lines, maxRows, i)} :: 0 <= i < k ==> !Offends(lines, maxRows, i)
  }

  ghost function EmailsOf(lines: seq<Line>): set<string> {
    if lines == [] then {} else EmailsOf(lines[..|lines| - 1]) + {ToRow(lines[|lines| - 1]).email}
  }

  lemma {:induction false} EmailsMember(lines: seq<Line>, i: nat)
    requires i < |lines|
    ensures ToRow(lines[i]).email in EmailsOf(lines)
  {
    if i < |lines| - 1 {
      EmailsMember(lines[..|lines| - 1], i);
    }
  }

  predicate Distinct(rows: seq<Row>) {
    forall i, j :: 0 <= i < j < |rows| ==> rows[i].email != rows[j].email
  }

  datatype Import = Accepted(rows: seq<Row>) | Rejected(line: nat)

  /**
   The loop of parse_roster_csv. It accepts exactly the non-empty files in which no line offends, and
   rejects the others at their first offending line (line 1 is the header; 0 stands for an empty file).
   */
  method ParseRoster(lines: seq<Line>, maxRows: int) returns (r: Import)
    ensures r.Accepted? <==> lines != [] && NoneOffends(lines, maxRows, |lines|)
    ensures r.Accepted? ==> r.rows == ToRows(lines) && Distinct(r.rows) && |r.rows| <= maxRows
    ensures r.Rejected? && lines != [] ==>
      2 <= r.line < |lines| + 2 && Offends(lines, maxRows, r.line - 2) && NoneOffends(lines, maxRows, r.line - 2)
  {
    var rows: seq<Row> := [];
    var seen: set<string> := {};
    for i := 0 to |lines|
      invariant rows == ToRows(lines[..i])
      invariant seen == EmailsOf(lines[..i])
      invariant NoneOffends(lines, maxRows, i)
    {
      var row := ToRow(lines[i]);
      if i + 1 > maxRows || Strip(lines[i].email) == "" || row.email in seen || !lines[i].loginOk {
        assert Offends(lines, maxRows, i);
        return Rejected(i + 2);
      }
      assert lines[..i + 1][..i] == lines[..i];
      seen := seen + {row.email};
      rows := rows + [row];
      assert !Offends(lines, maxRows, i);
    }
    assert lines[..|lines|] == lines;
    if lines == [] {
      return Rejected(0);
    }
    AcceptedIsDistinct(lines, maxRows);
    ToRowsAt(lines, 0);
    assert !Offends(lines, maxRows, |lines| - 1);
    r := Accepted(rows);
  }

  lemma AcceptedIsDistinct(lines: seq<Line>, maxRows: int)
    requires NoneOffends(lines, maxRows, |lines|)
    ensures Distinct(ToRows(lines))
  {
    var rows := ToRows(lines);
    ToRowsAt(lines, 0);
    forall i, j | 0 <= i < j < |rows| ensures rows[i].email != rows[j].email {
      ToRowsAt(lines, i);
      ToRowsAt(lines, j);
      assert !Offends(lines, maxRows, j);
      EmailsMember(lines[..j], i);
    }
  }

  /******* Snapshots by email *******/

  function Find(rows: seq<Row>, email: string): (r: Option<Row>)
    ensures r.Some? ==> r.value.email == email
  {
    if rows == [] then None
    else if rows[|rows| - 1].email == email then Some(rows[|rows| - 1])
    else Find(rows[..|rows| - 1], email)
  }

  lemma {:induction false} FindNone(rows: seq<Row>, email: string)
    requires forall i :: 0 <= i < |rows| ==> rows[i].email != email
    ensures Find(rows, email).None?
  {
    if rows != [] {
      FindNone(rows[..|rows| - 1], email);
    }
  }

  function Replace(dict: seq<Row>, r: Row): seq<Row> {
    if dict == [] then []
    else
      var n := |dict| - 1;
      if dict[n].email == r.email then dict[..n] + [r] else Replace(dict[..n], r) + [dict[n]]
  }

  /** The dictionary {r.normalized_email: r}: a later row replaces an earlier one in its place. */
  function Put(dict: seq<Row>, r: Row): seq<Row> {
    if Find(dict, r.email).None? then dict + [r] else Replace(dict, r)
  }

  function ByEmail(rows: seq<Row>): seq<Row> {
    if rows == [] then [] else Put(ByEmail(rows[..|rows| - 1]), rows[|rows| - 1])
  }

  /** What a snapshot says of access: each address with its role and status. */
  type Access = map<string, (string, string)>

  function AccessOf(rows: seq<Row>): Access {
    if rows == [] then map[]
    else
      var last := rows[|rows| - 1];
      AccessOf(rows[..|rows| - 1])[last.email := (last.role, last.status)]
  }

  /******* The difference *******/

  datatype Change = Change(email: string, before: string, after: string)

  datatype Delta = Delta(
    added: seq<Row>, removed: seq<Row>, roles: seq<Change>, statuses: seq<Change>, admins: seq<Row>)

  /** The rows whose address the other snapshot does not have. */
  function Missing(rows: seq<Row>, other: seq<Row>): seq<Row> {
    if rows == [] then []
    else
      var last := rows[|rows| - 1];
      Missing(rows[..|rows| - 1], other) + if Find(other, last.email).None? then [last] else []
  }

  predicate RoleChanged(was: Option<Row>, now: Row) {
    was.Some? && was.value.role != now.role
  }

  predicate StatusChanged(was: Option<Row>, now: Row) {
    was.Some? && was.value.status != now.status
  }

  predicate BecameAdmin(was: Option<Row>, now: Row) {
    was.Some? && was.value.role != now.role && Lower(now.role) == "admin" && Lower(was.value.role) != "admin"
  }

  function RoleChanges(rows: seq<Row>, previous: seq<Row>): seq<Change> {
    if rows == [] then []
    else
      var last := rows[|rows| - 1];
      var was := Find(previous, last.email);
      RoleChanges(rows[..|rows| - 1], previous) +
        if RoleChanged(was, last) then [Change(last.email, was.value.role, last.role)] else []
  }

  function StatusChanges(rows: seq<Row>, previous: seq<Row>): seq<Change> {
    if rows == [] then []
    else
      var last := rows[|rows| - 1];
      var was := Find(previous, last.email);
      StatusChanges(rows[..|rows| - 1], previous) +
        if StatusChanged(was, last) then [Change(last.email, was.value.status, last.status)] else []
  }

  function NewAdmins(rows: seq<Row>, previous: seq<Row>): seq<Row> {
    if rows == [] then []
    else
      var last := rows[|rows| - 1];
      NewAdmins(rows[..|rows| - 1], previous) + if BecameAdmin(Find(previous, last.email), last) then [last] else []
  }

  function DeltaOf(previous: seq<Row>, current: seq<Row>): Delta {
    var p, c := ByEmail(previous), ByEmail(current);
    Delta(Missing(c, p), Missing(p, c), RoleChanges(c, p), StatusChanges(c, p), NewAdmins(c, p))
  }

  /** compute_delta. */
  method ComputeDelta(previous: seq<Row>, current: seq<Row>) returns (d: Delta)
    ensures d == DeltaOf(previous, current)
  {
    var p, c := ByEmail(previous), ByEmail(current);
    var roles, statuses, admins := [], [], [];
    for i := 0 to |c|
      invariant roles == RoleChanges(c[..i], p)
      invariant statuses == StatusChanges(c[..i], p)
      invariant admins == NewAdmins(c[..i], p)
    {
      assert c[..i + 1][..i] == c[..i];
      var role, status, admin := CompareRow(Find(p, c[i].email), c[i]);
      roles, statuses, admins := roles + role, statuses + status, admins + admin;
    }
    assert c[..|c|] == c;
    d := Delta(Missing(c, p), Missing(p, c), roles, statuses, admins);
  }

  /** One round of compute_delta's loop: what it appends to each list. */
  method CompareRow(was: Option<Row>, now: Row) returns (role: seq<Change>, status: seq<Change>, admin: seq<Row>)
    ensures role == if RoleChanged(was, now) then [Change(now.email, was.value.role, now.role)] else []
    ensures status == if StatusChanged(was, now) then [Change(now.email, was.value.status, now.status)] else []
    ensures admin == if BecameAdmin(was, now) then [now] else []
  {
    role, status, admin := [], [], [];
    if was.None? {
      return;
    }
    if was.value.role != now.role {
      role := [Change(now.email, was.value.role, now.role)];
      if Lower(now.role) == "admin" && Lower(was.value.role) != "admin" {
        admin := [now];
      }
    }
    if was.value.status != now.status {
      status := [Change(now.email, was.value.status, now.status)];
    }
  }

  /******* Applying a difference *******/

  function Drop(a: Access, rows: seq<Row>): Access {
    if rows == [] then a else Drop(a, rows[..|rows| - 1]) - {rows[|rows| - 1].email}
  }

  function Insert(a: Access, rows: seq<Row>): Access {
    if rows == [] then a
    else Insert(a, rows[..|rows| - 1])[rows[|rows| - 1].email := (rows[|rows| - 1].role, rows[|rows| - 1].status)]
  }

  function SetRoles(a: Access, changes: seq<Change>): Access {
    if changes == [] then a
    else
      var before, c := SetRoles(a, changes[..|changes| - 1]), changes[|changes| - 1];
      if c.email in before then before[c.email := (c.after, before[c.email].1)] else before
  }

  function SetStatuses(a: Access, changes: seq<Change>): Access {
    if changes == [] then a
    else
      var before, c := SetStatuses(a, changes[..|changes| - 1]), changes[|changes| - 1];
      if c.email in before then before[c.email := (before[c.email].0, c.after)] else before
  }

  /** Drop what was removed, insert what was added, rewrite changed roles and statuses. */
  function ApplyDelta(a: Access, d: Delta): Access {
    SetStatuses(SetRoles(Insert(Drop(a, d.removed), d.added), d.roles), d.statuses)
  }

  function Reverse(changes: seq<Change>): seq<Change> {
    if changes == [] then []
    else
      var c := changes[|changes| - 1];
      Reverse(changes[..|changes| - 1]) + [Change(c.email, c.after, c.before)]
  }

  /** The difference read backwards. */
  function Inverse(d: Delta): Delta {
    Delta(d.removed, d.added, Reverse(d.roles), Reverse(d.statuses), [])
  }

  /******* Proofs, address by address *******/

  function At(a: Access, email: string): Option<(string, string)> {
    if email in a then Some(a[email]) else None
  }

  function AccessIn(r: Option<Row>): Option<(string, string)> {
    if r.Some? then Some((r.value.role, r.value.status)) else None
  }

  lemma {:induction false} AccessAt(rows: seq<Row>, email: string)
    ensures At(AccessOf(rows), email) == AccessIn(Find(rows, email))
  {
    if rows != [] {
      AccessAt(rows[..|rows| - 1], email);
    }
  }

  lemma SameAccess(a: Access, b: Access)
    requires forall email :: At(a, email) == At(b, email)
    ensures a == b
  {
    forall email | email in a ensures email in b && a[email] == b[email] {
      assert At(a, email) == At(b, email);
    }
    forall email | email in b ensures email in a {
      assert At(a, email) == At(b, email);
    }
  }

  lemma FindAppend(rows: seq<Row>, r: Row, email: string)
    ensures Find(rows + [r], email) == if r.email == email then Some(r) else Find(rows, email)
  {
    assert (rows + [r])[..|rows|] == rows;
  }

  /** Each address occurs once. */
  predicate Apart(rows: seq<Row>) {
    rows == [] || (Find(rows[..|rows| - 1], rows[|rows| - 1].email).None? && Apart(rows[..|rows| - 1]))
  }

  lemma ApartAppend(rows: seq<Row>, r: Row)
    requires Apart(rows) && Find(rows, r.email).None?
    ensures Apart(rows + [r])
  {
    assert (rows + [r])[..|rows|] == rows;
  }

  lemma {:induction false} ReplaceFind(dict: seq<Row>, r: Row, email: string)
    ensures Find(Replace(dict, r), email) ==
            if r.email == email && Find(dict, email).Some? then Some(r) else Find(dict, email)
  {
    if dict != [] {
      var n := |dict| - 1;
      ReplaceFind(dict[..n], r, email);
      FindAppend(dict[..n], r, email);
      FindAppend(Replace(dict[..n], r), dict[n], email);
    }
  }

  lemma {:induction false} ReplaceApart(dict: seq<Row>, r: Row)
    requires Apart(dict)
    ensures Apart(Replace(dict, r))
  {
    if dict != [] {
      var n := |dict| - 1;
      if dict[n].email == r.email {
        ApartAppend(dict[..n], r);
      } else {
        ReplaceApart(dict[..n], r);
        ReplaceFind(dict[..n], r, dict[n].email);
        ApartAppend(Replace(dict[..n], r), dict[n]);
      }
    }
  }

  /** The dictionary says what the rows say, and has each address once. */
  lemma {:induction false} ByEmailFind(rows: seq<Row>, email: string)
    ensures Find(ByEmail(rows), email) == Find(rows, email)
    ensures Apart(ByEmail(rows))
  {
    if rows != [] {
      var dict, last := ByEmail(rows[..|rows| - 1]), rows[|rows| - 1];
      ByEmailFind(rows[..|rows| - 1], email);
      FindAppend(dict, last, email);
      ReplaceFind(dict, last, email);
      if Find(dict, last.email).None? {
        ApartAppend(dict, last);
      } else {
        ReplaceApart(dict, last);
      }
    }
  }

  /** A roster without duplicates is its own dictionary, in its own order. */
  lemma {:induction false} DistinctIsDictionary(rows: seq<Row>)
    requires Distinct(rows)
    ensures ByEmail(rows) == rows
  {
    if rows != [] {
      var n := |rows| - 1;
      DistinctIsDictionary(rows[..n]);
      FindNone(rows[..n], rows[n].email);
      assert rows == rows[..n] + [rows[n]];
    }
  }

  lemma {:induction false} MissingFind(rows: seq<Row>, other: seq<Row>, email: string)
    ensures Find(Missing(rows, other), email) == if Find(other, email).None? then Find(rows, email) else None
  {
    if rows != [] {
      var n := |rows| - 1;
      MissingFind(rows[..n], other, email);
      FindAppend(Missing(rows[..n], other), rows[n], email);
      assert Missing(rows[..n], other) + [] == Missing(rows[..n], other);
    }
  }

  lemma {:induction false} DropAt(a: Access, rows: seq<Row>, email: string)
    ensures At(Drop(a, rows), email) == if Find(rows, email).Some? then None else At(a, email)
  {
    if rows != [] {
      DropAt(a, rows[..|rows| - 1], email);
    }
  }

  lemma {:induction false} InsertAt(a: Access, rows: seq<Row>, email: string)
    ensures At(Insert(a, rows), email) ==
            if Find(rows, email).Some? then AccessIn(Find(rows, email)) else At(a, email)
  {
    if rows != [] {
      InsertAt(a, rows[..|rows| - 1], email);
    }
  }

  /** The last change of an address. */
  function LastChange(changes: seq<Change>, email: string): Option<Change> {
    if changes == [] then None
    else if changes[|changes| - 1].email == email then Some(changes[|changes| - 1])
    else LastChange(changes[..|changes| - 1], email)
  }

  lemma LastChangeAppend(changes: seq<Change>, c: Change, email: string)
    ensures LastChange(changes + [c], email) == if c.email == email then Some(c) else LastChange(changes, email)
  {
    assert (changes + [c])[..|changes|] == changes;
  }

  lemma {:induction false} SetRolesAt(a: Access, changes: seq<Change>, email: string)
    ensures At(SetRoles(a, changes), email) ==
            if email in a && LastChange(changes, email).Some?
            then Some((LastChange(changes, email).value.after, a[email].1)) else At(a, email)
  {
    if changes != [] {
      SetRolesAt(a, changes[..|changes| - 1], email);
    }
  }

  lemma {:induction false} SetStatusesAt(a: Access, changes: seq<Change>, email: string)
    ensures At(SetStatuses(a, changes), email) ==
            if email in a && LastChange(changes, email).Some?
            then Some((a[email].0, LastChange(changes, email).value.after)) else At(a, email)
  {
    if changes != [] {
      SetStatusesAt(a, changes[..|changes| - 1], email);
    }
  }

  /** Each address has at most one role change, from its previous to its current role. */
  lemma {:induction false} RoleChangeOf(rows: seq<Row>, previous: seq<Row>, email: string)
    requires Apart(rows)
    ensures var now, was := Find(rows, email), Find(previous, email);
      LastChange(RoleChanges(rows, previous), email) ==
      if now.Some? && RoleChanged(was, now.value) then Some(Change(email, was.value.role, now.value.role)) else None
  {
    if rows != [] {
      var n := |rows| - 1;
      RoleChangeOf(rows[..n], previous, email);
      var front, was := RoleChanges(rows[..n], previous), Find(previous, rows[n].email);
      if RoleChanged(was, rows[n]) {
        LastChangeAppend(front, Change(rows[n].email, was.value.role, rows[n].role), email);
      } else {
        assert front + [] == front;
      }
    }
  }

  lemma {:induction false} StatusChangeOf(rows: seq<Row>, previous: seq<Row>, email: string)
    requires Apart(rows)
    ensures var now, was := Find(rows, email), Find(previous, email);
      LastChange(StatusChanges(rows, previous), email) ==
      if now.Some? && StatusChanged(was, now.value) then
          Some(Change(email, was.value.status, now.value.status)) else None
  {
    if rows != [] {
      var n := |rows| - 1;
      StatusChangeOf(rows[..n], previous, email);
      var front, was := StatusChanges(rows[..n], previous), Find(previous, rows[n].email);
      if StatusChanged(was, rows[n]) {
        LastChangeAppend(front, Change(rows[n].email, was.value.status, rows[n].status), email);
      } else {
        assert front + [] == front;
      }
    }
  }

  lemma AppliedAt(p: seq<Row>, c: seq<Row>, a: Access, email: string)
    requires Apart(p) && Apart(c) && At(a, email) == AccessIn(Find(p, email))
    ensures At(ApplyDelta(a, Delta(Missing(c, p), Missing(p, c), RoleChanges(c, p), StatusChanges(c, p), [])), email) ==
            AccessIn(Find(c, email))
  {
    var dropped := Drop(a, Missing(p, c));
    MissingFind(p, c, email);
    DropAt(a, Missing(p, c), email);
    var inserted := Insert(dropped, Missing(c, p));
    MissingFind(c, p, email);
    InsertAt(dropped, Missing(c, p), email);
    var roles := SetRoles(inserted, RoleChanges(c, p));
    SetRolesAt(inserted, RoleChanges(c, p), email);
    RoleChangeOf(c, p, email);
    SetStatusesAt(roles, StatusChanges(c, p), email);
    StatusChangeOf(c, p, email);
  }

  /** Applying the difference to the previous snapshot's access gives exactly the current one's. */
  lemma ApplyingDeltaGivesCurrent(previous: seq<Row>, current: seq<Row>)
    ensures ApplyDelta(AccessOf(previous), DeltaOf(previous, current)) == AccessOf(current)
  {
    var result := ApplyDelta(AccessOf(previous), DeltaOf(previous, current));
    forall email ensures At(result, email) == At(AccessOf(current), email) {
      AccessAt(previous, email);
      AccessAt(current, email);
      ByEmailFind(previous, email);
      ByEmailFind(current, email);
      AppliedAt(ByEmail(previous), ByEmail(current), AccessOf(previous), email);
    }
    SameAccess(result, AccessOf(current));
  }

  /******* When nothing changed *******/

  lemma {:induction false} FindSelf(rows: seq<Row>, i: nat)
    requires Apart(rows) && i < |rows|
    ensures Find(rows, rows[i].email) == Some(rows[i])
  {
    var n := |rows| - 1;
    if i < n {
      FindSelf(rows[..n], i);
      assert rows[..n][i] == rows[i];
    }
  }

  lemma {:induction false} NothingMissing(rows: seq<Row>, other: seq<Row>)
    requires forall i :: 0 <= i < |rows| ==> Find(other, rows[i].email).Some?
    ensures Missing(rows, other) == []
  {
    if rows != [] {
      NothingMissing(rows[..|rows| - 1], other);
    }
  }

  lemma {:induction false} NothingRewritten(rows: seq<Row>, previous: seq<Row>)
    requires forall i :: 0 <= i < |rows| ==>
      AccessIn(Find(previous, rows[i].email)) == Some((rows[i].role, rows[i].status))
    ensures RoleChanges(rows, previous) == [] && StatusChanges(rows, previous) == []
  {
    if rows != [] {
      NothingRewritten(rows[..|rows| - 1], previous);
      assert AccessIn(Find(previous, rows[|rows| - 1].email)).Some?;
    }
  }

  predicate NoChange(d: Delta) {
    d.added == [] && d.removed == [] && d.roles == [] && d.statuses == []
  }

  /** A dictionary whose every row another snapshot repeats has nothing to report against it. */
  lemma Repeated(rows: seq<Row>, other: seq<Row>)
    requires AccessOf(rows) == AccessOf(other)
    ensures forall i :: 0 <= i < |ByEmail(rows)| ==>
      AccessIn(Find(ByEmail(other), ByEmail(rows)[i].email)) == Some((ByEmail(rows)[i].role, ByEmail(rows)[i].status))
  {
    var c := ByEmail(rows);
    forall i | 0 <= i < |c| ensures AccessIn(Find(ByEmail(other), c[i].email)) == Some((c[i].role, c[i].status)) {
      ByEmailFind(rows, c[i].email);
      ByEmailFind(other, c[i].email);
      FindSelf(c, i);
      AccessAt(rows, c[i].email);
      AccessAt(other, c[i].email);
    }
  }

  /** The difference is empty exactly if both snapshots give every address the same role and status. */
  lemma EmptyIffSameAccess(previous: seq<Row>, current: seq<Row>)
    ensures NoChange(DeltaOf(previous, current)) <==> AccessOf(previous) == AccessOf(current)
  {
    ApplyingDeltaGivesCurrent(previous, current);
    if AccessOf(previous) == AccessOf(current) {
      Repeated(previous, current);
      Repeated(current, previous);
      NothingMissing(ByEmail(previous), ByEmail(current));
      NothingMissing(ByEmail(current), ByEmail(previous));
      NothingRewritten(ByEmail(current), ByEmail(previous));
    }
  }

  /******* Reading the difference backwards *******/

  lemma {:induction false} ReversedChange(changes: seq<Change>, email: string)
    ensures var c := LastChange(changes, email);
      LastChange(Reverse(changes), email) == if c.Some? then
          Some(Change(email, c.value.after, c.value.before)) else None
  {
    if changes != [] {
      var n := |changes| - 1;
      ReversedChange(changes[..n], email);
      LastChangeAppend(Reverse(changes[..n]), Change(changes[n].email, changes[n].after, changes[n].before), email);
    }
  }

  /** The difference loses nothing: read backwards, it leads from the current access to the previous one. */
  lemma DeltaIsReversible(previous: seq<Row>, current: seq<Row>)
    ensures ApplyDelta(AccessOf(current), Inverse(DeltaOf(previous, current))) == AccessOf(previous)
  {
    var result := ApplyDelta(AccessOf(current), Inverse(DeltaOf(previous, current)));
    forall email ensures At(result, email) == At(AccessOf(previous), email) {
      AccessAt(previous, email);
      AccessAt(current, email);
      ByEmailFind(previous, email);
      ByEmailFind(current, email);
      UnappliedAt(ByEmail(previous), ByEmail(current), AccessOf(current), email);
    }
    SameAccess(result, AccessOf(previous));
  }

  lemma UnappliedAt(p: seq<Row>, c: seq<Row>, a: Access, email: string)
    requires Apart(p) && Apart(c) && At(a, email) == AccessIn(Find(c, email))
    ensures At(ApplyDelta(a, Delta(Missing(p, c), Missing(c, p), Reverse(RoleChanges(c, p)),
                                   Reverse(StatusChanges(c, p)), [])), email) == AccessIn(Find(p, email))
  {
    var dropped := Drop(a, Missing(c, p));
    MissingFind(c, p, email);
    DropAt(a, Missing(c, p), email);
    var inserted := Insert(dropped, Missing(p, c));
    MissingFind(p, c, email);
    InsertAt(dropped, Missing(p, c), email);
    var roles := SetRoles(inserted, Reverse(RoleChanges(c, p)));
    SetRolesAt(inserted, Reverse(RoleChanges(c, p)), email);
    ReversedChange(RoleChanges(c, p), email);
    RoleChangeOf(c, p, email);
    SetStatusesAt(roles, Reverse(StatusChanges(c, p)), email);
    ReversedChange(StatusChanges(c, p), email);
    StatusChangeOf(c, p, email);
  }

  /******* New administrators *******/

  predicate IntoAdmin(c: Change) {
    Lower(c.after) == "admin" && Lower(c.before) != "admin"
  }

  lemma {:induction false} AdminMember(rows: seq<Row>, previous: seq<Row>, r: Row)
    ensures r in NewAdmins(rows, previous) <==> r in rows && BecameAdmin(Find(previous, r.email), r)
  {
    if rows != [] {
      var n := |rows| - 1;
      AdminMember(rows[..n], previous, r);
      assert rows == rows[..n] + [rows[n]];
    }
  }

  /**
   The new administrators are exactly the current rows whose role changed into admin, in any letter
   case; an address has at most one role change.
   */
  lemma NewAdminsAreRoleChanges(previous: seq<Row>, current: seq<Row>, r: Row)
    ensures var d := DeltaOf(previous, current);
      r in d.admins <==>
      r in ByEmail(current) && LastChange(d.roles, r.email).Some? && IntoAdmin(LastChange(d.roles, r.email).value)
  {
    var c := ByEmail(current);
    ByEmailFind(current, r.email);
    AdminMember(c, ByEmail(previous), r);
    RoleChangeOf(c, ByEmail(previous), r.email);
    if r in c {
      var i :| 0 <= i < |c| && c[i] == r;
      FindSelf(c, i);
    }
  }
}
