/** The `highlight_groups` table both highlight modules keep: rows of (room id, group name,
    member), unique as a triple (the `UNIQUE(ROOM_ID,GROUP_NAME,MEMBER)` constraint). The
    SQLite connection is replaced by a sequence of rows held in an object; `INSERT OR
    IGNORE`, `DELETE ... WHERE` and the two `SELECT`s become its members.

    The module also holds what the two modules' add and delete commands share: the
    room-membership check done before any change, and pure specifications of the insert
    and delete loops, each proved against an independent description of its effect
    (which rows end up in the table, which members are reported). */
module GroupStore {
  import opened Python
  import opened MatrixUtility

  datatype Row = Row(roomId: string, groupName: string, member: string)

  predicate Distinct<T(==)>(xs: seq<T>) {
    forall i, j :: 0 <= i < j < |xs| ==> xs[i] != xs[j]
  }

  lemma DistinctTail<T>(xs: seq<T>)
    requires xs != [] && Distinct(xs)
    ensures Distinct(xs[1..]) && xs[0] !in xs[1..]
  {
    forall k | 0 <= k < |xs[1..]| ensures xs[1..][k] != xs[0] {
      assert xs[1..][k] == xs[k + 1];
    }
  }

  /** The rows of `rows` other than `doomed`, in their order. */
  function Without(rows: seq<Row>, doomed: Row): seq<Row> {
    if rows == [] then []
    else (if rows[0] == doomed then [] else [rows[0]]) + Without(rows[1..], doomed)
  }

  lemma {:induction false} WithoutMeaning(rows: seq<Row>, doomed: Row)
    ensures forall x :: x in Without(rows, doomed) <==> x in rows && x != doomed
  {
    if rows != [] {
      WithoutMeaning(rows[1..], doomed);
      assert rows == [rows[0]] + rows[1..];
    }
  }

  lemma {:induction false} WithoutAbsent(rows: seq<Row>, doomed: Row)
    requires doomed !in rows
    ensures Without(rows, doomed) == rows
  {
    if rows != [] {
      assert doomed !in rows[1..];
      WithoutAbsent(rows[1..], doomed);
      assert rows == [rows[0]] + rows[1..];
    }
  }

  lemma {:induction false} WithoutDistinct(rows: seq<Row>, doomed: Row)
    requires Distinct(rows)
    ensures Distinct(Without(rows, doomed))
  {
    if rows != [] {
      DistinctTail(rows);
      WithoutDistinct(rows[1..], doomed);
      WithoutMeaning(rows[1..], doomed);
      var tail := Without(rows[1..], doomed);
      assert rows[0] !in tail;
    }
  }

  lemma {:induction false} WithoutConcat(a: seq<Row>, b: seq<Row>, doomed: Row)
    ensures Without(a + b, doomed) == Without(a, doomed) + Without(b, doomed)
  {
    if a == [] {
      assert a + b == b;
    } else {
      assert (a + b)[0] == a[0];
      assert (a + b)[1..] == a[1..] + b;
      WithoutConcat(a[1..], b, doomed);
      var h := if a[0] == doomed then [] else [a[0]];
      assert Without(a + b, doomed) == h + Without(a[1..] + b, doomed);
      assert Without(a, doomed) == h + Without(a[1..], doomed);
    }
  }

  /** The members stored for one group of one room, in table order. */
  function MembersOf(rows: seq<Row>, roomId: string, group: string): seq<string> {
    if rows == [] then []
    else
      (if rows[0].roomId == roomId && rows[0].groupName == group then [rows[0].member] else []) +
      MembersOf(rows[1..], roomId, group)
  }

  /** `_get_members` lists exactly the members stored for the group, once each. */
  lemma {:induction false} MembersOfMeaning(rows: seq<Row>, roomId: string, group: string)
    ensures forall m :: m in MembersOf(rows, roomId, group) <==> Row(roomId, group, m) in rows
    ensures Distinct(rows) ==> Distinct(MembersOf(rows, roomId, group))
  {
    if rows != [] {
      MembersOfMeaning(rows[1..], roomId, group);
      assert rows == [rows[0]] + rows[1..];
      var tail := MembersOf(rows[1..], roomId, group);
      if Distinct(rows) {
        DistinctTail(rows);
        if rows[0].roomId == roomId && rows[0].groupName == group {
          assert rows[0] == Row(roomId, group, rows[0].member);
          assert rows[0].member !in tail;
          var r := [rows[0].member] + tail;
          forall i, j | 0 <= i < j < |r| ensures r[i] != r[j] {
            if i > 0 {
              assert r[i] == tail[i - 1] && r[j] == tail[j - 1];
            } else {
              assert r[j] in tail;
            }
          }
        }
      }
    }
  }

  /** The table. `Valid` is the uniqueness constraint. */
  class HighlightTable {
    var rows: seq<Row>

    ghost predicate Valid()
      reads this
    {
      Distinct(rows)
    }

    /** `CREATE TABLE IF NOT EXISTS` on a fresh database. */
    constructor()
      ensures Valid() && rows == []
    {
      rows := [];
    }

    /** `_is_in_group`: `SELECT 1 ... WHERE room_id = ? AND group_name = ? AND member = ?
        LIMIT 1` finds a row. */
    method IsInGroup(roomId: string, group: string, member: string) returns (found: bool)
      ensures found <==> exists k :: 0 <= k < |rows| && rows[k].roomId == roomId &&
                                    rows[k].groupName == group && rows[k].member == member
    {
      found := Row(roomId, group, member) in rows;
      assert found ==> rows[IndexOfRow(rows, Row(roomId, group, member))] == Row(roomId, group, member);
    }

    /** `INSERT OR IGNORE INTO highlight_groups(ROOM_ID,GROUP_NAME,MEMBER) VALUES(?,?,?)` */
    method Insert(row: Row)
      requires Valid()
      modifies this
      ensures Valid()
      ensures rows == if row in old(rows) then old(rows) else old(rows) + [row]
    {
      if row !in rows {
        rows := rows + [row];
      }
    }

    /** `DELETE FROM highlight_groups WHERE room_id = ? AND group_name = ? and member = ?` */
    method Delete(row: Row)
      requires Valid()
      modifies this
      ensures Valid()
      ensures rows == Without(old(rows), row)
    {
      WithoutDistinct(rows, row);
      rows := Without(rows, row);
    }
  }

  function IndexOfRow(rows: seq<Row>, row: Row): (k: nat)
    requires row in rows
    ensures k < |rows| && rows[k] == row
  {
    if rows[0] == row then 0 else 1 + IndexOfRow(rows[1..], row)
  }

  // ---------------------------------------------------------------------------------------
  // The membership check before add and delete

  /** The position of the first named user `get_user` does not find in the room. */
  function FirstMissing(room: Room, users: seq<string>): (r: Option<nat>)
    ensures r.Some? ==> r.value < |users| && GetUser(room, users[r.value]).None?
  {
    if users == [] then None
    else if GetUser(room, users[0]).None? then Some(0)
    else
      match FirstMissing(room, users[1..])
      case None => None
      case Some(i) => Some(i + 1)
  }

  /** `FirstMissing` finds the first user not in the room, and finds none exactly when all
      are in it. */
  lemma {:induction false} FirstMissingMeaning(room: Room, users: seq<string>)
    ensures FirstMissing(room, users).Some? ==>
      forall j :: 0 <= j < FirstMissing(room, users).value ==> GetUser(room, users[j]).Some?
    ensures FirstMissing(room, users).None? <==> forall j :: 0 <= j < |users| ==> GetUser(room, users[j]).Some?
  {
    if users != [] {
      FirstMissingMeaning(room, users[1..]);
      assert forall j :: 1 <= j < |users| ==> users[j] == users[1..][j - 1];
    }
  }

  /** The check stops at the first user not in the room. */
  lemma {:induction false} FirstMissingAt(room: Room, users: seq<string>, i: nat)
    requires i < |users| && GetUser(room, users[i]).None?
    requires forall j :: 0 <= j < i ==> GetUser(room, users[j]).Some?
    ensures FirstMissing(room, users) == Some(i)
    decreases i
  {
    if i > 0 {
      assert forall j :: 0 <= j < i - 1 ==> users[1..][j] == users[j + 1];
      FirstMissingAt(room, users[1..], i - 1);
    }
  }

  /** The check, one user further. */
  lemma {:induction false} FirstMissingAppend(room: Room, xs: seq<string>, y: string)
    ensures FirstMissing(room, xs + [y]).None? <==> FirstMissing(room, xs).None? && GetUser(room, y).Some?
  {
    if xs != [] {
      assert (xs + [y])[1..] == xs[1..] + [y];
      FirstMissingAppend(room, xs[1..], y);
    }
  }

  /** The check stops at the first user not in the room, whatever follows. */
  lemma {:induction false} FirstMissingStops(room: Room, xs: seq<string>, y: string, rest: seq<string>)
    requires FirstMissing(room, xs).None? && GetUser(room, y).None?
    ensures FirstMissing(room, xs + [y] + rest) == Some(|xs|)
  {
    if xs == [] {
      assert (xs + [y] + rest)[0] == y;
    } else {
      assert (xs + [y] + rest)[1..] == xs[1..] + [y] + rest;
      FirstMissingStops(room, xs[1..], y, rest);
    }
  }

  // ---------------------------------------------------------------------------------------
  // Reference descriptions: filtering and removing repeats

  /** The users whose row for (room, group) is absent from `rows`, in order. */
  function Absent(rows: seq<Row>, roomId: string, group: string, users: seq<string>): seq<string> {
    if users == [] then []
    else
      var u := users[|users| - 1];
      Absent(rows, roomId, group, users[..|users| - 1]) + (if Row(roomId, group, u) in rows then [] else [u])
  }

  lemma {:induction false} AbsentMeaning(rows: seq<Row>, roomId: string, group: string, users: seq<string>)
    ensures forall u :: u in Absent(rows, roomId, group, users) <==> u in users && Row(roomId, group, u) !in rows
  {
    if users != [] {
      var prefix := users[..|users| - 1];
      assert users == prefix + [users[|users| - 1]];
      AbsentMeaning(rows, roomId, group, prefix);
    }
  }

  /** The users whose row for (room, group) is present in `rows`, in order. */
  function Present(rows: seq<Row>, roomId: string, group: string, users: seq<string>): seq<string> {
    if users == [] then []
    else
      var u := users[|users| - 1];
      Present(rows, roomId, group, users[..|users| - 1]) + (if Row(roomId, group, u) in rows then [u] else [])
  }

  lemma {:induction false} PresentMeaning(rows: seq<Row>, roomId: string, group: string, users: seq<string>)
    ensures forall u :: u in Present(rows, roomId, group, users) <==> u in users && Row(roomId, group, u) in rows
  {
    if users != [] {
      var prefix := users[..|users| - 1];
      assert users == prefix + [users[|users| - 1]];
      PresentMeaning(rows, roomId, group, prefix);
    }
  }

  /** `xs` with every repeat of an earlier element dropped: first occurrences, in order. */
  function Dedup(xs: seq<string>): seq<string> {
    if xs == [] then []
    else
      var x := xs[|xs| - 1];
      var prefix := xs[..|xs| - 1];
      if x in prefix then Dedup(prefix) else Dedup(prefix) + [x]
  }

  lemma {:induction false} DedupMeaning(xs: seq<string>)
    ensures forall x :: x in Dedup(xs) <==> x in xs
    ensures Distinct(Dedup(xs))
  {
    if xs != [] {
      var x := xs[|xs| - 1];
      var prefix := xs[..|xs| - 1];
      assert xs == prefix + [x];
      DedupMeaning(prefix);
      var d := Dedup(prefix);
      if x !in prefix {
        var r := d + [x];
        forall i, j | 0 <= i < j < |r| ensures r[i] != r[j] {
          if j == |d| {
            assert r[i] == d[i];
          } else {
            assert r[i] == d[i] && r[j] == d[j];
          }
        }
      }
    }
  }

  /** The rows of `rows` that do not belong to (room, group) with a member in `users`,
      in table order. */
  function Kept(rows: seq<Row>, roomId: string, group: string, users: seq<string>): seq<Row> {
    if rows == [] then []
    else
      var x := rows[0];
      (if x.roomId == roomId && x.groupName == group && x.member in users then [] else [x]) +
      Kept(rows[1..], roomId, group, users)
  }

  lemma {:induction false} KeptMeaning(rows: seq<Row>, roomId: string, group: string, users: seq<string>)
    ensures forall x :: x in Kept(rows, roomId, group, users) <==>
      x in rows && !(x.roomId == roomId && x.groupName == group && x.member in users)
  {
    if rows != [] {
      KeptMeaning(rows[1..], roomId, group, users);
      assert rows == [rows[0]] + rows[1..];
    }
  }

  /** The rows for `members` in (room, group). */
  function RowsFor(roomId: string, group: string, members: seq<string>): (r: seq<Row>)
    ensures |r| == |members| && forall k :: 0 <= k < |members| ==> r[k] == Row(roomId, group, members[k])
  {
    seq(|members|, k requires 0 <= k < |members| => Row(roomId, group, members[k]))
  }

  // ---------------------------------------------------------------------------------------
  // The insert loop

  /** What the insert loop leaves after the users `users`: for each user in turn, the row
      is inserted and the user reported unless `_is_in_group` already finds the row. */
  function AddAll(rows: seq<Row>, roomId: string, group: string, users: seq<string>): (seq<Row>, seq<string>)
  {
    if users == [] then (rows, [])
    else
      var u := users[|users| - 1];
      var (rs, added) := AddAll(rows, roomId, group, users[..|users| - 1]);
      if Row(roomId, group, u) in rs then (rs, added) else (rs + [Row(roomId, group, u)], added + [u])
  }

  /** One more user for the insert loop. */
  lemma AddAllStep(rows: seq<Row>, roomId: string, group: string, users: seq<string>, i: nat)
    requires i < |users|
    ensures var (rs, added) := AddAll(rows, roomId, group, users[..i]);
      AddAll(rows, roomId, group, users[..i + 1]) ==
        if Row(roomId, group, users[i]) in rs then (rs, added)
        else (rs + [Row(roomId, group, users[i])], added + [users[i]])
  {
    assert users[..i + 1][..i] == users[..i];
  }

  /** Whether the insert loop adds the row of `u` after `prefix` is decided by the rows present
      before and the users already reported. */
  lemma AddedRowPresent(rows: seq<Row>, roomId: string, group: string, added: seq<string>, u: string)
    ensures Row(roomId, group, u) in rows + RowsFor(roomId, group, added) <==> Row(roomId, group, u) in rows || u in added
  {
    var extra := RowsFor(roomId, group, added);
    if Row(roomId, group, u) in extra {
      var k :| 0 <= k < |extra| && extra[k] == Row(roomId, group, u);
      assert added[k] == u;
    }
    if u in added {
      var k :| 0 <= k < |added| && added[k] == u;
      assert extra[k] == Row(roomId, group, u);
    }
  }

  /** The insert loop appends exactly the rows of the users it reports. */
  lemma {:induction false} AddAllRows(rows: seq<Row>, roomId: string, group: string, users: seq<string>)
    ensures AddAll(rows, roomId, group, users).0 == rows + RowsFor(roomId, group, AddAll(rows, roomId, group, users).1)
  {
    if users != [] {
      var u := users[|users| - 1];
      var prefix := users[..|users| - 1];
      AddAllRows(rows, roomId, group, prefix);
      var (rs, added) := AddAll(rows, roomId, group, prefix);
      assert RowsFor(roomId, group, added + [u]) == RowsFor(roomId, group, added) + [Row(roomId, group, u)];
    }
  }

  /** The reported users are the named users without a row before, first occurrences only,
      in order. */
  lemma {:induction false} AddAllReport(rows: seq<Row>, roomId: string, group: string, users: seq<string>)
    ensures AddAll(rows, roomId, group, users).1 == Dedup(Absent(rows, roomId, group, users))
  {
    if users != [] {
      var u := users[|users| - 1];
      var prefix := users[..|users| - 1];
      AddAllReport(rows, roomId, group, prefix);
      AddAllRows(rows, roomId, group, prefix);
      var (rs, added) := AddAll(rows, roomId, group, prefix);
      AddedRowPresent(rows, roomId, group, added, u);
      var absentPrefix := Absent(rows, roomId, group, prefix);
      DedupMeaning(absentPrefix);
      assert Absent(rows, roomId, group, users) ==
             absentPrefix + (if Row(roomId, group, u) in rows then [] else [u]);
      if Row(roomId, group, u) !in rows {
        var a := absentPrefix + [u];
        assert a[..|a| - 1] == absentPrefix;
        assert Dedup(a) == if u in absentPrefix then Dedup(absentPrefix) else Dedup(absentPrefix) + [u];
        assert u in absentPrefix <==> u in added;
      } else {
        assert absentPrefix + [] == absentPrefix;
      }
    }
  }

  lemma AddAllEffect(rows: seq<Row>, roomId: string, group: string, users: seq<string>)
    ensures AddAll(rows, roomId, group, users).0 == rows + RowsFor(roomId, group, AddAll(rows, roomId, group, users).1)
    ensures AddAll(rows, roomId, group, users).1 == Dedup(Absent(rows, roomId, group, users))
  {
    AddAllRows(rows, roomId, group, users);
    AddAllReport(rows, roomId, group, users);
  }

  /** The properties of the insert loop, stated on their own: every named row is in the
      table afterwards, nothing else is added or removed, uniqueness is kept, and the
      report lists the newly added users once each. */
  lemma AddAllProperties(rows: seq<Row>, roomId: string, group: string, users: seq<string>)
    requires Distinct(rows)
    ensures var (rs, added) := AddAll(rows, roomId, group, users);
      && Distinct(rs)
      && (forall u :: u in users ==> Row(roomId, group, u) in rs)
      && (forall x :: x in rs <==> x in rows || (x.roomId == roomId && x.groupName == group && x.member in users))
      && (forall u :: u in added <==> u in users && Row(roomId, group, u) !in rows)
      && Distinct(added)
  {
    AddAllEffect(rows, roomId, group, users);
    AbsentMeaning(rows, roomId, group, users);
    DedupMeaning(Absent(rows, roomId, group, users));
    var (rs, added) := AddAll(rows, roomId, group, users);
    var extra := RowsFor(roomId, group, added);
    assert rs == rows + extra;
    forall x | x in extra
      ensures x !in rows && x.roomId == roomId && x.groupName == group && x.member in users
    {
      var k :| 0 <= k < |extra| && extra[k] == x;
      assert added[k] in added;
    }
    forall u | u in users && Row(roomId, group, u) !in rows
      ensures Row(roomId, group, u) in extra
    {
      var k :| 0 <= k < |added| && added[k] == u;
      assert extra[k] == Row(roomId, group, u);
    }
    forall i, j | 0 <= i < j < |rs| ensures rs[i] != rs[j] {
      if j >= |rows| {
        if i >= |rows| {
          assert extra[i - |rows|] == Row(roomId, group, added[i - |rows|]);
          assert extra[j - |rows|] == Row(roomId, group, added[j - |rows|]);
        } else {
          assert rs[j] in extra;
        }
      }
    }
  }

  // ---------------------------------------------------------------------------------------
  // The delete loop

  /** What the delete loop leaves after the members `users`: for each in turn, when
      `_is_in_group` finds the row it is deleted and the member reported. */
  function RemoveAll(rows: seq<Row>, roomId: string, group: string, users: seq<string>): (seq<Row>, seq<string>)
  {
    if users == [] then (rows, [])
    else
      var u := users[|users| - 1];
      var (rs, removed) := RemoveAll(rows, roomId, group, users[..|users| - 1]);
      if Row(roomId, group, u) in rs then (Without(rs, Row(roomId, group, u)), removed + [u]) else (rs, removed)
  }

  /** One more user for the delete loop. */
  lemma RemoveAllStep(rows: seq<Row>, roomId: string, group: string, users: seq<string>, i: nat)
    requires i < |users|
    ensures var (rs, removed) := RemoveAll(rows, roomId, group, users[..i]);
      RemoveAll(rows, roomId, group, users[..i + 1]) ==
        if Row(roomId, group, users[i]) in rs then (Without(rs, Row(roomId, group, users[i])), removed + [users[i]])
        else (rs, removed)
  {
    assert users[..i + 1][..i] == users[..i];
  }

  lemma {:induction false} KeptAddOne(rows: seq<Row>, roomId: string, group: string, users: seq<string>, u: string)
    ensures Kept(rows, roomId, group, users + [u]) == Without(Kept(rows, roomId, group, users), Row(roomId, group, u))
  {
    if rows != [] {
      var x, d := rows[0], Row(roomId, group, u);
      KeptAddOne(rows[1..], roomId, group, users, u);
      var h0 := if x.roomId == roomId && x.groupName == group && x.member in users then [] else [x];
      var h1 := if x.roomId == roomId && x.groupName == group && x.member in users + [u] then [] else [x];
      assert Kept(rows, roomId, group, users) == h0 + Kept(rows[1..], roomId, group, users);
      assert Kept(rows, roomId, group, users + [u]) == h1 + Kept(rows[1..], roomId, group, users + [u]);
      WithoutConcat(h0, Kept(rows[1..], roomId, group, users), d);
      assert Without(h0, d) == h1 by {
        if h0 != [] {
          assert [x][1..] == [];
          assert Without([x], d) == (if x == d then [] else [x]) + Without([], d);
        }
      }
    }
  }

  lemma RemovePrefixKept(rows: seq<Row>, roomId: string, group: string, users: seq<string>, u: string)
    ensures Row(roomId, group, u) in Kept(rows, roomId, group, users) <==> Row(roomId, group, u) in rows && u !in users
  {
    KeptMeaning(rows, roomId, group, users);
  }

  /** The delete loop keeps, in order, exactly the rows not named; the reported members are
      the named members that had a row, first occurrences only, in order. */
  lemma {:induction false} RemoveAllEffect(rows: seq<Row>, roomId: string, group: string, users: seq<string>)
    ensures RemoveAll(rows, roomId, group, users).0 == Kept(rows, roomId, group, users)
    ensures RemoveAll(rows, roomId, group, users).1 == Dedup(Present(rows, roomId, group, users))
  {
    if users == [] {
      KeptNone(rows, roomId, group);
    } else {
      var u := users[|users| - 1];
      var prefix := users[..|users| - 1];
      assert users == prefix + [u];
      RemoveAllEffect(rows, roomId, group, prefix);
      KeptAddOne(rows, roomId, group, prefix, u);
      RemovePrefixKept(rows, roomId, group, prefix, u);
      var presentPrefix := Present(rows, roomId, group, prefix);
      DedupMeaning(presentPrefix);
      PresentMeaning(rows, roomId, group, prefix);
      assert Present(rows, roomId, group, users) ==
             presentPrefix + (if Row(roomId, group, u) in rows then [u] else []);
      var removed := RemoveAll(rows, roomId, group, prefix).1;
      if Row(roomId, group, u) !in Kept(rows, roomId, group, prefix) {
        WithoutAbsent(Kept(rows, roomId, group, prefix), Row(roomId, group, u));
      }
      if Row(roomId, group, u) in rows {
        var p := presentPrefix + [u];
        assert p[..|p| - 1] == presentPrefix;
        assert Dedup(p) == if u in presentPrefix then Dedup(presentPrefix) else Dedup(presentPrefix) + [u];
        assert u in presentPrefix <==> u in prefix;
      } else {
        assert presentPrefix + [] == presentPrefix;
      }
    }
  }

  lemma {:induction false} KeptNone(rows: seq<Row>, roomId: string, group: string)
    ensures Kept(rows, roomId, group, []) == rows
  {
    if rows != [] {
      KeptNone(rows[1..], roomId, group);
    }
  }

  lemma {:induction false} KeptDistinct(rows: seq<Row>, roomId: string, group: string, users: seq<string>)
    requires Distinct(rows)
    ensures Distinct(Kept(rows, roomId, group, users))
  {
    if rows != [] {
      DistinctTail(rows);
      KeptDistinct(rows[1..], roomId, group, users);
      KeptMeaning(rows[1..], roomId, group, users);
      var tail := Kept(rows[1..], roomId, group, users);
      assert rows[0] !in tail;
      var r := [rows[0]] + tail;
      forall i, j | 0 <= i < j < |r| ensures r[i] != r[j] {
        if i > 0 {
          assert r[i] == tail[i - 1] && r[j] == tail[j - 1];
        } else {
          assert r[j] in tail;
        }
      }
    }
  }

  /** The properties of the delete loop, stated on their own: no named row remains, every
      other row stays, uniqueness is kept, and the report lists the members that were
      there, once each. */
  lemma RemoveAllProperties(rows: seq<Row>, roomId: string, group: string, users: seq<string>)
    requires Distinct(rows)
    ensures var (rs, removed) := RemoveAll(rows, roomId, group, users);
      && Distinct(rs)
      && (forall u :: u in users ==> Row(roomId, group, u) !in rs)
      && (forall x :: x in rs <==> x in rows && !(x.roomId == roomId && x.groupName == group && x.member in users))
      && (forall u :: u in removed <==> u in users && Row(roomId, group, u) in rows)
      && Distinct(removed)
  {
    RemoveAllEffect(rows, roomId, group, users);
    KeptDistinct(rows, roomId, group, users);
    KeptMeaning(rows, roomId, group, users);
    PresentMeaning(rows, roomId, group, users);
    DedupMeaning(Present(rows, roomId, group, users));
  }

  lemma {:induction false} AbsentNone(rows: seq<Row>, roomId: string, group: string, users: seq<string>)
    requires forall u :: u in users ==> Row(roomId, group, u) in rows
    ensures Absent(rows, roomId, group, users) == []
  {
    if users != [] {
      var prefix := users[..|users| - 1];
      assert users == prefix + [users[|users| - 1]];
      AbsentNone(rows, roomId, group, prefix);
    }
  }

  lemma {:induction false} PresentNone(rows: seq<Row>, roomId: string, group: string, users: seq<string>)
    requires forall u :: u in users ==> Row(roomId, group, u) !in rows
    ensures Present(rows, roomId, group, users) == []
  {
    if users != [] {
      var prefix := users[..|users| - 1];
      assert users == prefix + [users[|users| - 1]];
      PresentNone(rows, roomId, group, prefix);
    }
  }

  /** Adding the same users again adds nothing and reports nobody. */
  lemma AddAllIdempotent(rows: seq<Row>, roomId: string, group: string, users: seq<string>)
    requires Distinct(rows)
    ensures var rs := AddAll(rows, roomId, group, users).0;
      AddAll(rs, roomId, group, users) == (rs, [])
  {
    AddAllProperties(rows, roomId, group, users);
    var rs := AddAll(rows, roomId, group, users).0;
    AddAllEffect(rs, roomId, group, users);
    AbsentNone(rs, roomId, group, users);
    assert RowsFor(roomId, group, []) == [];
    assert rs + [] == rs;
  }

  lemma {:induction false} KeptUnnamed(rows: seq<Row>, roomId: string, group: string, users: seq<string>)
    requires forall x :: x in rows ==> !(x.roomId == roomId && x.groupName == group && x.member in users)
    ensures Kept(rows, roomId, group, users) == rows
  {
    if rows != [] {
      assert rows[0] in rows;
      assert forall x :: x in rows[1..] ==> x in rows;
      KeptUnnamed(rows[1..], roomId, group, users);
      assert rows == [rows[0]] + rows[1..];
    }
  }

  /** Removing the same members again removes nothing and reports nobody. */
  lemma RemoveAllIdempotent(rows: seq<Row>, roomId: string, group: string, users: seq<string>)
    requires Distinct(rows)
    ensures var rs := RemoveAll(rows, roomId, group, users).0;
      RemoveAll(rs, roomId, group, users) == (rs, [])
  {
    RemoveAllProperties(rows, roomId, group, users);
    var rs := RemoveAll(rows, roomId, group, users).0;
    RemoveAllEffect(rs, roomId, group, users);
    PresentNone(rs, roomId, group, users);
    KeptUnnamed(rs, roomId, group, users);
  }
}
