/**
 What rosters and their differences hold (app/vendor_roster_import.py): the texts of an import, and the members
 and the order of each list of a difference.
 */
module RosterRecords {
  import opened Common
  import opened Roster

  /******* Texts *******/

  const UPPER: string := "ABCDEFGHIJKLMNOPQRSTUVWXYZ"
  const LOWER: string := "abcdefghijklmnopqrstuvwxyz"

  /** Lower-casing maps the capitals to the small letters of the alphabet, and nothing else. */
  lemma {:induction false} LowerAt(s: string, i: nat)
    requires i < |s|
    ensures |Lower(s)| == |s|
    ensures s[i] !in UPPER ==> Lower(s)[i] == s[i]
    ensures forall k :: 0 <= k < 26 && s[i] == UPPER[k] ==> Lower(s)[i] == LOWER[k]
  {
    LowerLength(s);
    if i == 0 {
      LowerLetter(s[0]);
    } else {
      LowerAt(s[1..], i - 1);
    }
  }

  lemma {:induction false} LowerLength(s: string)
    ensures |Lower(s)| == |s|
  {
    if s != "" {
      LowerLength(s[1..]);
    }
  }

  lemma LowerLetter(c: char)
    ensures c in UPPER <==> 'A' <= c <= 'Z'
    ensures forall k :: 0 <= k < 26 ==> UPPER[k] as int == 'A' as int + k && LOWER[k] as int == 'a' as int + k
  {
  }

  ghost predicate AllSpace(s: string) {
    forall i :: 0 <= i < |s| ==> IsSpace(s[i])
  }

  /** No white space at either end. */
  ghost predicate Trimmed(s: string) {
    s != "" ==> !IsSpace(s[0]) && !IsSpace(s[|s| - 1])
  }

  lemma {:induction false} StripLeftIs(s: string) returns (a: string)
    ensures s == a + StripLeft(s) && AllSpace(a) && (StripLeft(s) != "" ==> !IsSpace(StripLeft(s)[0]))
  {
    if s != "" && IsSpace(s[0]) {
      a := StripLeftIs(s[1..]);
      a := [s[0]] + a;
    } else {
      a := "";
    }
  }

  lemma {:induction false} StripRightIs(s: string) returns (b: string)
    ensures s == StripRight(s) + b && AllSpace(b)
    ensures StripRight(s) != "" ==> !IsSpace(StripRight(s)[|StripRight(s)| - 1])
  {
    if s != "" && IsSpace(s[|s| - 1]) {
      b := StripRightIs(s[..|s| - 1]);
      b := b + [s[|s| - 1]];
    } else {
      b := "";
    }
  }

  /** Stripping takes white space away at both ends, and leaves none there. */
  lemma StripIs(s: string) returns (a: string, b: string)
    ensures s == a + Strip(s) + b && AllSpace(a) && AllSpace(b) && Trimmed(Strip(s))
  {
    a := StripLeftIs(s);
    b := StripRightIs(StripLeft(s));
    assert Strip(s) != "" ==> Strip(s)[0] == StripLeft(s)[0];
  }

  lemma {:induction false} EmailsIff(lines: seq<Line>, email: string)
    ensures email in EmailsOf(lines) <==> exists j :: 0 <= j < |lines| && Lower(Strip(lines[j].email)) == email
  {
    if lines != [] {
      var n := |lines| - 1;
      EmailsIff(lines[..n], email);
      if j :| 0 <= j < |lines| && Lower(Strip(lines[j].email)) == email {
        assert j < n ==> lines[..n][j] == lines[j];
      }
      if j :| 0 <= j < n && Lower(Strip(lines[..n][j].email)) == email {
        assert lines[j] == lines[..n][j];
      }
    }
  }

  /** A line is refused if it is one too many, or has no address, a bad login time, or an address seen before. */
  lemma OffendsIff(lines: seq<Line>, maxRows: int, i: nat)
    requires i < |lines|
    ensures Offends(lines, maxRows, i) <==>
      || i >= maxRows || !lines[i].loginOk || Strip(lines[i].email) == ""
      || exists j :: 0 <= j < i && Lower(Strip(lines[j].email)) == Lower(Strip(lines[i].email))
  {
    EmailsIff(lines[..i], Lower(Strip(lines[i].email)));
    if j :| 0 <= j < i && Lower(Strip(lines[j].email)) == Lower(Strip(lines[i].email)) {
      assert lines[..i][j] == lines[j];
    }
    if j :| 0 <= j < i && Lower(Strip(lines[..i][j].email)) == Lower(Strip(lines[i].email)) {
      assert lines[..i][j] == lines[j];
    }
  }

  /** The rows of an accepted file are its lines, in order, each text stripped and the address in small letters. */
  lemma ImportedRows(lines: seq<Line>, i: nat)
    requires i < |lines|
    ensures |ToRows(lines)| == |lines|
    ensures var row := ToRows(lines)[i];
      && row.email == Lower(Strip(lines[i].email)) && row.name == Strip(lines[i].name)
      && row.role == Strip(lines[i].role) && row.status == Strip(lines[i].status)
  {
    ToRowsAt(lines, i);
  }

  /******* Members of a difference *******/

  /** The row is the last of its snapshot with that address, which is the one that counts. */
  ghost predicate Counts(rows: seq<Row>, r: Row) {
    exists i :: LastWith(rows, r, i)
  }

  ghost predicate LastWith(rows: seq<Row>, r: Row, i: int) {
    0 <= i < |rows| && rows[i] == r && forall j :: i < j < |rows| ==> rows[j].email != r.email
  }

  ghost predicate HasEmail(rows: seq<Row>, email: string) {
    exists i :: 0 <= i < |rows| && rows[i].email == email
  }

  lemma {:induction false} FindIff(rows: seq<Row>, r: Row)
    ensures Find(rows, r.email) == Some(r) <==> Counts(rows, r)
  {
    if rows != [] {
      var n := |rows| - 1;
      FindIff(rows[..n], r);
      if rows[n].email == r.email {
        assert rows[n] == r ==> LastWith(rows, r, n);
      } else {
        if i :| LastWith(rows[..n], r, i) {
          assert LastWith(rows, r, i);
        }
        if i :| LastWith(rows, r, i) {
          assert LastWith(rows[..n], r, i);
        }
      }
    }
  }

  lemma {:induction false} FindNoneIff(rows: seq<Row>, email: string)
    ensures Find(rows, email).None? <==> !HasEmail(rows, email)
  {
    if rows != [] {
      var n := |rows| - 1;
      FindNoneIff(rows[..n], email);
      if rows[n].email != email {
        if i :| 0 <= i < |rows| && rows[i].email == email {
          assert rows[..n][i].email == email;
        }
        if i :| 0 <= i < n && rows[..n][i].email == email {
          assert rows[i].email == email;
        }
      }
    }
  }

  lemma {:induction false} MissingMember(rows: seq<Row>, other: seq<Row>, r: Row)
    ensures r in Missing(rows, other) <==> r in rows && Find(other, r.email).None?
  {
    if rows != [] {
      MissingMember(rows[..|rows| - 1], other, r);
      assert rows == rows[..|rows| - 1] + [rows[|rows| - 1]];
    }
  }

  /** The members of a dictionary are the rows that count. */
  lemma DictMember(rows: seq<Row>, r: Row)
    ensures r in ByEmail(rows) <==> Counts(rows, r)
  {
    var dict := ByEmail(rows);
    ByEmailFind(rows, r.email);
    FindIff(rows, r);
    if r in dict {
      var i :| 0 <= i < |dict| && dict[i] == r;
      FindSelf(dict, i);
    }
    if Find(dict, r.email) == Some(r) {
      FoundIsMember(dict, r.email);
    }
  }

  lemma {:induction false} FoundIsMember(rows: seq<Row>, email: string)
    requires Find(rows, email).Some?
    ensures Find(rows, email).value in rows
  {
    if rows[|rows| - 1].email != email {
      FoundIsMember(rows[..|rows| - 1], email);
    }
  }

  /** Added are the rows that count now and whose address was not there before; removed, the other way round. */
  lemma AddedAndRemoved(previous: seq<Row>, current: seq<Row>, r: Row)
    ensures r in DeltaOf(previous, current).added <==> Counts(current, r) && !HasEmail(previous, r.email)
    ensures r in DeltaOf(previous, current).removed <==> Counts(previous, r) && !HasEmail(current, r.email)
  {
    var p, c := ByEmail(previous), ByEmail(current);
    MissingMember(c, p, r);
    MissingMember(p, c, r);
    DictMember(current, r);
    DictMember(previous, r);
    ByEmailFind(previous, r.email);
    ByEmailFind(current, r.email);
    FindNoneIff(previous, r.email);
    FindNoneIff(current, r.email);
  }

  /** What changed for one address, from the row that counted before to the one that counts now. */
  ghost predicate Rewritten(previous: seq<Row>, current: seq<Row>, was: Row, now: Row) {
    Counts(previous, was) && Counts(current, now) && was.email == now.email
  }

  lemma {:induction false} RoleChangeMember(rows: seq<Row>, previous: seq<Row>, c: Change)
    ensures c in RoleChanges(rows, previous) <==>
      exists now :: now in rows && RoleChanged(Find(previous, now.email), now) &&
        c == Change(now.email, Find(previous, now.email).value.role, now.role)
  {
    if rows != [] {
      RoleChangeMember(rows[..|rows| - 1], previous, c);
      assert rows == rows[..|rows| - 1] + [rows[|rows| - 1]];
    }
  }

  lemma {:induction false} StatusChangeMember(rows: seq<Row>, previous: seq<Row>, c: Change)
    ensures c in StatusChanges(rows, previous) <==>
      exists now :: now in rows && StatusChanged(Find(previous, now.email), now) &&
        c == Change(now.email, Find(previous, now.email).value.status, now.status)
  {
    if rows != [] {
      StatusChangeMember(rows[..|rows| - 1], previous, c);
      assert rows == rows[..|rows| - 1] + [rows[|rows| - 1]];
    }
  }

  lemma PairFound(previous: seq<Row>, current: seq<Row>, was: Row, now: Row)
    ensures Rewritten(previous, current, was, now) <==>
      now in ByEmail(current) && was.email == now.email && Find(ByEmail(previous), now.email) == Some(was)
  {
    DictMember(current, now);
    ByEmailFind(previous, was.email);
    FindIff(previous, was);
  }

  /** The role changes are exactly those of an address whose role before and now differ. */
  lemma RolesChanged(previous: seq<Row>, current: seq<Row>, c: Change)
    ensures c in DeltaOf(previous, current).roles <==>
      exists was, now :: Rewritten(previous, current, was, now) && was.role != now.role &&
        c == Change(now.email, was.role, now.role)
  {
    var dict, p := ByEmail(current), ByEmail(previous);
    RoleChangeMember(dict, p, c);
    if now :|
      && now in dict && RoleChanged(Find(p, now.email), now)
      && c == Change(now.email, Find(p, now.email).value.role, now.role)
    {
      PairFound(previous, current, Find(p, now.email).value, now);
    }
    if was, now :|
      && Rewritten(previous, current, was, now) && was.role != now.role
      && c == Change(now.email, was.role, now.role)
    {
      PairFound(previous, current, was, now);
    }
  }

  /** And the status changes, those of an address whose status before and now differ. */
  lemma StatusesChanged(previous: seq<Row>, current: seq<Row>, c: Change)
    ensures c in DeltaOf(previous, current).statuses <==>
      exists was, now :: Rewritten(previous, current, was, now) && was.status != now.status &&
        c == Change(now.email, was.status, now.status)
  {
    var dict, p := ByEmail(current), ByEmail(previous);
    StatusChangeMember(dict, p, c);
    if now :|
      && now in dict && StatusChanged(Find(p, now.email), now)
      && c == Change(now.email, Find(p, now.email).value.status, now.status)
    {
      PairFound(previous, current, Find(p, now.email).value, now);
    }
    if was, now :|
      && Rewritten(previous, current, was, now) && was.status != now.status
      && c == Change(now.email, was.status, now.status)
    {
      PairFound(previous, current, was, now);
    }
  }

  /** The new admins are the rows whose role is admin now and was not before, in any spelling of the letters. */
  lemma AdminsAdded(previous: seq<Row>, current: seq<Row>, now: Row)
    ensures now in DeltaOf(previous, current).admins <==>
      exists was :: Rewritten(previous, current, was, now) && Lower(now.role) == "admin" && Lower(was.role) != "admin"
  {
    var dict, p := ByEmail(current), ByEmail(previous);
    AdminMember(dict, p, now);
    if now in dict && BecameAdmin(Find(p, now.email), now) {
      PairFound(previous, current, Find(p, now.email).value, now);
    }
    if was :| Rewritten(previous, current, was, now) && Lower(now.role) == "admin" && Lower(was.role) != "admin" {
      PairFound(previous, current, was, now);
    }
  }

  /******* Order of a difference *******/

  /** Where the address first occurs; the length if it does not. */
  function FirstAt(rows: seq<Row>, email: string): nat {
    if rows == [] then 0
    else
      var n := |rows| - 1;
      var f := FirstAt(rows[..n], email);
      if f < n || rows[n].email == email then f else n + 1
  }

  lemma {:induction false} FirstAtIs(rows: seq<Row>, email: string)
    ensures FirstAt(rows, email) <= |rows| && forall i :: 0 <= i < FirstAt(rows, email) ==> rows[i].email != email
    ensures FirstAt(rows, email) < |rows| ==> rows[FirstAt(rows, email)].email == email
  {
    if rows != [] {
      FirstAtIs(rows[..|rows| - 1], email);
    }
  }

  function EmailsIn(rows: seq<Row>): seq<string> {
    if rows == [] then [] else EmailsIn(rows[..|rows| - 1]) + [rows[|rows| - 1].email]
  }

  function ChangedIn(changes: seq<Change>): seq<string> {
    if changes == [] then [] else ChangedIn(changes[..|changes| - 1]) + [changes[|changes| - 1].email]
  }

  /** The addresses are different, and stand in the order in which they first occur in the snapshot. */
  ghost predicate InOrderOf(emails: seq<string>, rows: seq<Row>) {
    && (forall i :: 0 <= i < |emails| ==> FirstAt(rows, emails[i]) < |rows|)
    && (forall i, j :: 0 <= i < j < |emails| ==> FirstAt(rows, emails[i]) < FirstAt(rows, emails[j]))
  }

  lemma EmailsAppend(rows: seq<Row>, r: Row)
    ensures EmailsIn(rows + [r]) == EmailsIn(rows) + [r.email]
  {
    assert (rows + [r])[..|rows|] == rows;
  }

  lemma {:induction false} ReplaceEmails(dict: seq<Row>, r: Row)
    ensures EmailsIn(Replace(dict, r)) == EmailsIn(dict)
  {
    if dict != [] {
      var front, last := dict[..|dict| - 1], dict[|dict| - 1];
      if last.email == r.email {
        EmailsAppend(front, r);
      } else {
        ReplaceEmails(front, r);
        EmailsAppend(Replace(front, r), last);
      }
    }
  }

  /** One more row leaves the order of the addresses before it, and comes after them if its own is new. */
  lemma OneMoreRow(emails: seq<string>, rows: seq<Row>, r: Row)
    requires InOrderOf(emails, rows)
    ensures InOrderOf(emails, rows + [r])
    ensures FirstAt(rows, r.email) == |rows| ==> InOrderOf(emails + [r.email], rows + [r])
  {
    assert (rows + [r])[..|rows|] == rows;
  }

  /** A dictionary keeps the order of the first occurrences. */
  lemma {:induction false} DictInOrder(rows: seq<Row>)
    ensures InOrderOf(EmailsIn(ByEmail(rows)), rows)
  {
    if rows != [] {
      var front, last := rows[..|rows| - 1], rows[|rows| - 1];
      var dict := ByEmail(front);
      DictInOrder(front);
      OneMoreRow(EmailsIn(dict), front, last);
      assert rows == front + [last];
      if Find(dict, last.email).None? {
        ByEmailFind(front, last.email);
        FindNoneIff(front, last.email);
        FirstAtIs(front, last.email);
        EmailsAppend(dict, last);
      } else {
        ReplaceEmails(dict, last);
      }
    }
  }

  /** `xs` is `ys` with some elements left out. */
  ghost predicate Thinned(xs: seq<string>, ys: seq<string>) {
    if ys == [] then xs == []
    else
      || Thinned(xs, ys[..|ys| - 1])
      || (xs != [] && xs[|xs| - 1] == ys[|ys| - 1] && Thinned(xs[..|xs| - 1], ys[..|ys| - 1]))
  }

  lemma {:induction false} ThinnedMembers(xs: seq<string>, ys: seq<string>)
    requires Thinned(xs, ys)
    ensures forall x :: x in xs ==> x in ys
  {
    if ys != [] {
      var n := |ys| - 1;
      assert ys == ys[..n] + [ys[n]];
      if Thinned(xs, ys[..n]) {
        ThinnedMembers(xs, ys[..n]);
      } else {
        ThinnedMembers(xs[..|xs| - 1], ys[..n]);
        assert xs == xs[..|xs| - 1] + [xs[|xs| - 1]];
      }
    }
  }

  lemma {:induction false} ThinnedInOrder(xs: seq<string>, ys: seq<string>, rows: seq<Row>)
    requires Thinned(xs, ys) && InOrderOf(ys, rows)
    ensures InOrderOf(xs, rows)
  {
    if ys != [] {
      var n := |ys| - 1;
      if Thinned(xs, ys[..n]) {
        ThinnedInOrder(xs, ys[..n], rows);
      } else {
        var m := |xs| - 1;
        ThinnedInOrder(xs[..m], ys[..n], rows);
        ThinnedMembers(xs[..m], ys[..n]);
        forall i | 0 <= i < m ensures FirstAt(rows, xs[i]) < FirstAt(rows, xs[m]) {
          assert xs[..m][i] in ys[..n];
          var j :| 0 <= j < n && ys[..n][j] == xs[i];
          assert ys[j] == xs[i];
        }
        assert forall i :: 0 <= i < m ==> xs[..m][i] == xs[i];
      }
    }
  }

  lemma ThinnedAppend(xs: seq<string>, ys: seq<string>, y: string)
    requires Thinned(xs, ys)
    ensures Thinned(xs, ys + [y]) && Thinned(xs + [y], ys + [y])
  {
    assert (ys + [y])[..|ys|] == ys && (xs + [y])[..|xs|] == xs;
  }

  lemma {:induction false} MissingThins(rows: seq<Row>, other: seq<Row>)
    ensures Thinned(EmailsIn(Missing(rows, other)), EmailsIn(rows))
  {
    if rows != [] {
      var n := |rows| - 1;
      MissingThins(rows[..n], other);
      var kept := Missing(rows[..n], other);
      ThinnedAppend(EmailsIn(kept), EmailsIn(rows[..n]), rows[n].email);
      assert (kept + [rows[n]])[..|kept|] == kept && kept + [] == kept;
    }
  }

  lemma {:induction false} AdminsThin(rows: seq<Row>, previous: seq<Row>)
    ensures Thinned(EmailsIn(NewAdmins(rows, previous)), EmailsIn(rows))
  {
    if rows != [] {
      var n := |rows| - 1;
      AdminsThin(rows[..n], previous);
      var kept := NewAdmins(rows[..n], previous);
      ThinnedAppend(EmailsIn(kept), EmailsIn(rows[..n]), rows[n].email);
      assert (kept + [rows[n]])[..|kept|] == kept && kept + [] == kept;
    }
  }

  lemma ChangedAppend(changes: seq<Change>, c: Change)
    ensures ChangedIn(changes + [c]) == ChangedIn(changes) + [c.email]
  {
    assert (changes + [c])[..|changes|] == changes;
  }

  lemma {:induction false} ChangesThin(rows: seq<Row>, previous: seq<Row>)
    ensures Thinned(ChangedIn(RoleChanges(rows, previous)), EmailsIn(rows))
    ensures Thinned(ChangedIn(StatusChanges(rows, previous)), EmailsIn(rows))
  {
    if rows != [] {
      var n := |rows| - 1;
      ChangesThin(rows[..n], previous);
      var roles, statuses := RoleChanges(rows[..n], previous), StatusChanges(rows[..n], previous);
      ThinnedAppend(ChangedIn(roles), EmailsIn(rows[..n]), rows[n].email);
      ThinnedAppend(ChangedIn(statuses), EmailsIn(rows[..n]), rows[n].email);
      assert roles + [] == roles && statuses + [] == statuses;
      if RoleChanged(Find(previous, rows[n].email), rows[n]) {
        ChangedAppend(roles, Change(rows[n].email, Find(previous, rows[n].email).value.role, rows[n].role));
      }
      if StatusChanged(Find(previous, rows[n].email), rows[n]) {
        ChangedAppend(statuses, Change(rows[n].email, Find(previous, rows[n].email).value.status, rows[n].status));
      }
    }
  }

  /** Each list of a difference has an address once, in the order in which the addresses came up in the snapshot. */
  lemma DeltaInOrder(previous: seq<Row>, current: seq<Row>)
    ensures var d := DeltaOf(previous, current);
      && InOrderOf(EmailsIn(d.added), current) && InOrderOf(EmailsIn(d.removed), previous)
      && InOrderOf(ChangedIn(d.roles), current) && InOrderOf(ChangedIn(d.statuses), current)
      && InOrderOf(EmailsIn(d.admins), current)
  {
    var d, p, c := DeltaOf(previous, current), ByEmail(previous), ByEmail(current);
    DictInOrder(previous);
    DictInOrder(current);
    MissingThins(c, p);
    MissingThins(p, c);
    ChangesThin(c, p);
    AdminsThin(c, p);
    ThinnedInOrder(EmailsIn(d.added), EmailsIn(c), current);
    ThinnedInOrder(EmailsIn(d.removed), EmailsIn(p), previous);
    ThinnedInOrder(ChangedIn(d.roles), EmailsIn(c), current);
    ThinnedInOrder(ChangedIn(d.statuses), EmailsIn(c), current);
    ThinnedInOrder(EmailsIn(d.admins), EmailsIn(c), current);
  }
}
