/** chaanbot/modules/highlight.py: the highlight module. A message is gated by
    `_should_run`, then one of four commands runs:

      !hlall [text]              mention every user of the room but the sender
      !hl GROUP [text]           mention the stored members of a group but the sender
      !hla GROUP USER1 USER2 ... add users to a group
      !hld GROUP USER1 USER2 ... remove users from a group

    Group names are lower-cased. The table is a `GroupStore.HighlightTable`; a module built
    without a database holds none.

    The source stores each operation as a dictionary `{"commands": [...], "argument_regex": ...}`,
    which `matches` does not expect. `ShouldRunAsWritten`/`RunAsWritten` model that code
    as it stands and its lemmas show what it does; `ShouldRun`/`RunSpec`, which match each
    operation's `commands` list, are the behaviour the rest of the model (and the `Run`
    method) uses. */
module HighlightModule {
  import opened Python
  import opened Text
  import opened CommandUtility
  import opened MatrixUtility
  import opened GroupStore
  import opened Outcome

  const HighlightAllAliases: seq<string> := ["!hlall", "!highlightall"]
  const AddAliases: seq<string> := ["!hla", "!hladd", "!highlightadd"]
  const DeleteAliases: seq<string> := ["!hld", "!hldelete", "!highlightdelete"]
  const HighlightAliases: seq<string> := ["!hl", "!highlight"]

  /** One value of the `operations` dictionary as the source writes it. */
  function OperationEntry(commands: seq<string>, argumentRegex: string): PyValue {
    PyDict([("commands", PyList(StrList(commands))), ("argument_regex", PyPattern(argumentRegex))])
  }

  /** `Highlight.operations` as written. */
  const OperationsAsWritten: PyValue := PyDict([
    ("highlight_all", OperationEntry(HighlightAllAliases, "[.+]?")),
    ("add_to_group", OperationEntry(AddAliases, ".+ .+")),
    ("delete_from_group", OperationEntry(DeleteAliases, ".+ .+")),
    ("highlight", OperationEntry(HighlightAliases, ".+"))])

  /** The operations with their alias lists, in the dictionary's order. */
  const Operations: seq<(string, seq<string>)> := [
    ("highlight_all", HighlightAllAliases),
    ("add_to_group", AddAliases),
    ("delete_from_group", DeleteAliases),
    ("highlight", HighlightAliases)]

  /** The alias lists in the order `run` tests them: highlight all, highlight, add,
      delete. */
  const BranchAliases: seq<seq<string>> := [HighlightAllAliases, HighlightAliases, AddAliases, DeleteAliases]

  // ---------------------------------------------------------------------------------------
  // The gate and the command tests

  /** `_should_run` as written: `self.database` was never assigned when the module was built
      without a database, so reading it raises `AttributeError`. */
  function ShouldRunAsWritten(hasDatabase: bool, message: string): Result<bool> {
    if !hasDatabase then Err(AttributeError) else Matches(OperationsAsWritten, message)
  }

  /** The tests of `run` as written: `matches` on each operation's dictionary. */
  function BranchTestsAsWritten(message: string): seq<Result<bool>> {
    [Matches(OperationEntry(HighlightAllAliases, "[.+]?"), message),
     Matches(OperationEntry(HighlightAliases, ".+"), message),
     Matches(OperationEntry(AddAliases, ".+ .+"), message),
     Matches(OperationEntry(DeleteAliases, ".+ .+"), message)]
  }

  /** `_should_run`, matching each operation's alias list; without a database the module
      declines. */
  function ShouldRun(hasDatabase: bool, message: string): (r: Result<bool>)
    ensures !hasDatabase ==> r == Ok(false)
  {
    if !hasDatabase then Ok(false) else Matches(OperationsValue(Operations), message)
  }

  /** On a well-formed message the gate holds exactly when the module has a database and
      some alias of some operation is the command token. */
  lemma ShouldRunMeaning(hasDatabase: bool, message: string)
    requires WellFormedMessage(message)
    ensures ShouldRun(hasDatabase, message) == Ok(hasDatabase && OperationsMatch(Operations, message))
  {
    MatchesOperationDict(Operations, message);
  }

  /** The tests of `run`: `matches` on each operation's alias list, in branch order. */
  function BranchTests(message: string): (tests: seq<Result<bool>>)
    ensures |tests| == 4
  {
    [Matches(PyList(StrList(HighlightAllAliases)), message),
     Matches(PyList(StrList(HighlightAliases)), message),
     Matches(PyList(StrList(AddAliases)), message),
     Matches(PyList(StrList(DeleteAliases)), message)]
  }

  /** On a well-formed message each test holds exactly when one of its aliases is the
      command token. */
  lemma BranchTestsMeaning(message: string)
    requires WellFormedMessage(message)
    ensures forall k :: 0 <= k < 4 ==> BranchTests(message)[k] == Ok(AliasesMatch(BranchAliases[k], message))
  {
    MatchesAliasList(HighlightAllAliases, message);
    MatchesAliasList(HighlightAliases, message);
    MatchesAliasList(AddAliases, message);
    MatchesAliasList(DeleteAliases, message);
  }

  // ---------------------------------------------------------------------------------------
  // The pure parts of the commands

  /** `_remove_element`: every occurrence of `element` dropped, the rest in order. */
  function RemoveElement(xs: seq<string>, element: string): (r: seq<string>)
    ensures |r| <= |xs|
  {
    if xs == [] then []
    else (if xs[0] == element then [] else [xs[0]]) + RemoveElement(xs[1..], element)
  }

  /** The kept elements are exactly those other than `element`. */
  lemma {:induction false} RemoveElementMeaning(xs: seq<string>, element: string)
    ensures forall x :: x in RemoveElement(xs, element) <==> x in xs && x != element
  {
    if xs != [] {
      RemoveElementMeaning(xs[1..], element);
      assert xs == [xs[0]] + xs[1..];
    }
  }

  /** Removing an element works piecewise, so the kept elements stay in order. */
  lemma {:induction false} RemoveElementConcat(a: seq<string>, b: seq<string>, element: string)
    ensures RemoveElement(a + b, element) == RemoveElement(a, element) + RemoveElement(b, element)
  {
    if a != [] {
      assert (a + b)[1..] == a[1..] + b;
      RemoveElementConcat(a[1..], b, element);
    } else {
      assert a + b == b;
    }
  }

  /** A list without the element is left as it is. */
  lemma {:induction false} RemoveElementAbsent(xs: seq<string>, element: string)
    requires element !in xs
    ensures RemoveElement(xs, element) == xs
  {
    if xs != [] {
      assert element !in xs[1..];
      RemoveElementAbsent(xs[1..], element);
    }
  }

  /** The user ids of the room's users (`room.users`), in order. */
  function UserIds(members: seq<User>): (ids: seq<string>)
    ensures |ids| == |members| && forall k :: 0 <= k < |members| ==> ids[k] == members[k].userId
  {
    seq(|members|, k requires 0 <= k < |members| => members[k].userId)
  }

  /** `[get_user(room, m).user_id for m in members if get_user(room, m) is not None]` */
  function ResolvedIds(room: Room, members: seq<string>): seq<string> {
    if members == [] then []
    else
      var u := GetUser(room, members[0]);
      (if u.Some? then [u.value.userId] else []) + ResolvedIds(room, members[1..])
  }

  /** `id` is the user id of a room member that one of `members` names. */
  predicate ResolvesTo(room: Room, members: seq<string>, id: string) {
    exists m :: m in members && GetUser(room, m).Some? && GetUser(room, m).value.userId == id
  }

  /** The resolved ids are exactly the ids of the users the stored members name. */
  lemma {:induction false} ResolvedIdsMeaning(room: Room, members: seq<string>)
    ensures forall id :: id in ResolvedIds(room, members) <==> ResolvesTo(room, members, id)
  {
    if members != [] {
      ResolvedIdsMeaning(room, members[1..]);
      var u := GetUser(room, members[0]);
      forall id | ResolvesTo(room, members, id) ensures id in ResolvedIds(room, members) {
        var m :| m in members && GetUser(room, m).Some? && GetUser(room, m).value.userId == id;
        if m != members[0] {
          assert m in members[1..];
          assert ResolvesTo(room, members[1..], id);
        }
      }
      forall id | id in ResolvedIds(room, members) ensures ResolvesTo(room, members, id) {
        if u.Some? && id == u.value.userId {
          assert members[0] in members;
        } else {
          assert id in ResolvedIds(room, members[1..]);
          var m :| m in members[1..] && GetUser(room, m).Some? && GetUser(room, m).value.userId == id;
          assert m in members;
        }
      }
    }
  }

  /** `_get_member_user_ids_except_sender` on the stored members of a group. */
  function MemberUserIdsExceptSender(room: Room, members: seq<string>, sender: string): seq<string> {
    RemoveElement(ResolvedIds(room, members), sender)
  }

  /** The highlighted ids are exactly the ids, other than the sender's, of the room users
      the group's members name. */
  lemma MemberUserIdsMeaning(room: Room, members: seq<string>, sender: string)
    ensures forall id :: id in MemberUserIdsExceptSender(room, members, sender) <==>
      ResolvesTo(room, members, id) && id != sender
  {
    ResolvedIdsMeaning(room, members);
    RemoveElementMeaning(ResolvedIds(room, members), sender);
  }

  /** The text `_highlight_all` sends, given the message's argument. */
  function HighlightAllReply(room: Room, sender: string, argument: Option<string>): string {
    var ids := RemoveElement(UserIds(room.members), sender);
    if ids == [] then "No users to highlight"
    else if argument.Some? then Join(", ", ids) + ": " + argument.value
    else Join(", ", ids)
  }

  /** The text `_highlight` sends, given the message's argument (which, when present,
      starts with a word) and the table's rows. */
  function HighlightReply(room: Room, sender: string, argument: Option<string>, rows: seq<Row>): string
    requires argument.Some? ==> !AllSpace(argument.value)
  {
    if argument.None? then "Correct syntax is !hl [group] [optional text]."
    else
      var arguments := GetCommandAndArgument(argument.value);
      var group := LowerStr(arguments[0]);
      var ids := MemberUserIdsExceptSender(room, MembersOf(rows, room.roomId, group), sender);
      if ids == [] then "Group \"" + group + "\" does not have any members to highlight"
      else if |arguments| > 1 then Join(", ", ids) + ": " + arguments[1]
      else Join(", ", ids)
  }

  /** Python's `str()` of a list of strings, for strings without quotes or backslashes. */
  function ListRepr(xs: seq<string>): string {
    "[" + Join(", ", seq(|xs|, k requires 0 <= k < |xs| => "'" + xs[k] + "'")) + "]"
  }

  /** The words of the argument of `!hla`/`!hld`: the group, lower-cased, and the users;
      `None` when nothing follows the command (the source then calls `split` on `None`). */
  function GroupAndUsers(message: string): (r: Option<(string, seq<string>)>)
    ensures r.Some? ==> r.value.0 != []
    ensures r.None? <==> GetArgument(message).None?
  {
    var argument := GetArgument(message);
    if argument.None? then None
    else
      var arguments := SplitWhitespace(argument.value);
      Some((LowerStr(arguments[0]), arguments[1..]))
  }

  /** `_add_or_create_group`: the outcome and the rows afterwards. */
  function AddSpec(room: Room, message: string, rows: seq<Row>): (RunOutcome, seq<Row>) {
    AddCommand(room, GroupAndUsers(message), rows)
  }

  /** `_add_or_create_group` once the argument has been split into the group and the
      users; a bare `!hla` has no argument, and `None.split()` raises. */
  function AddCommand(room: Room, parsed: Option<(string, seq<string>)>, rows: seq<Row>): (RunOutcome, seq<Row>) {
    if parsed.None? then (Raised(AttributeError), rows)
    else
      var (group, users) := parsed.value;
      if !(group != [] && |users| > 0) then
        (Replied("Could not add: \"" + group + "\" to group \"" + ListRepr(users) + "\". Syntax is incorrect"), rows)
      else
        match FirstMissing(room, users)
        case Some(i) => (Replied("User: \"" + users[i] + "\" is not in room"), rows)
        case None =>
          var (rs, added) := AddAll(rows, room.roomId, group, users);
          if added != [] then (Replied("Added \"" + Join(", ", added) + "\" to group \"" + group + "\""), rs)
          else (Replied("Could not add \"" + Join(", ", users) + "\" to group \"" + group + "\""), rs)
  }

  /** `_delete_from_group`: the outcome and the rows afterwards. */
  function DeleteSpec(room: Room, message: string, rows: seq<Row>): (RunOutcome, seq<Row>) {
    DeleteCommand(room, GroupAndUsers(message), rows)
  }

  /** `_delete_from_group` once the argument has been split into the group and the
      members; a bare `!hld` raises as `!hla` does. */
  function DeleteCommand(room: Room, parsed: Option<(string, seq<string>)>, rows: seq<Row>): (RunOutcome, seq<Row>) {
    if parsed.None? then (Raised(AttributeError), rows)
    else
      var (group, users) := parsed.value;
      if !(group != [] && |users| > 0) then
        (Replied("Could not remove: \"" + group + "\" from group \"" + ListRepr(users) + "\". Syntax is incorrect"), rows)
      else
        match FirstMissing(room, users)
        case Some(i) => (Replied("User: " + users[i] + " is not in room"), rows)
        case None =>
          var (rs, removed) := RemoveAll(rows, room.roomId, group, users);
          if removed != [] then (Replied("Removed \"" + Join(", ", removed) + "\" from group \"" + group + "\""), rs)
          else (Replied("Could not remove \"" + Join(", ", users) + "\" from group \"" + group + "\""), rs)
  }

  /** `run` given the gate's value, the four command tests, the message's argument and its
      split into a group and users. */
  function RunWith(gate: Result<bool>, tests: seq<Result<bool>>, room: Room, sender: string,
                   argument: Option<string>, parsed: Option<(string, seq<string>)>, rows: seq<Row>): (RunOutcome, seq<Row>)
    requires argument.Some? ==> !AllSpace(argument.value)
  {
    match gate
    case Err(e) => (Raised(e), rows)
    case Ok(false) => (Declined, rows)
    case Ok(true) =>
      match FirstTrue(tests)
      case Err(e) => (Raised(e), rows)
      case Ok(None) => (Raised(RuntimeError), rows)
      case Ok(Some(k)) =>
        if k == 0 then (Replied(HighlightAllReply(room, sender, argument)), rows)
        else if k == 1 then (Replied(HighlightReply(room, sender, argument, rows)), rows)
        else if k == 2 then AddCommand(room, parsed, rows)
        else DeleteCommand(room, parsed, rows)
  }

  /** `run` as written. */
  function RunAsWritten(hasDatabase: bool, room: Room, sender: string, message: string, rows: seq<Row>): (RunOutcome, seq<Row>) {
    RunWith(ShouldRunAsWritten(hasDatabase, message), BranchTestsAsWritten(message), room, sender,
            GetArgument(message), GroupAndUsers(message), rows)
  }

  /** `run` with the operations matched by their alias lists. */
  function RunSpec(hasDatabase: bool, room: Room, sender: string, message: string, rows: seq<Row>): (RunOutcome, seq<Row>) {
    RunWith(ShouldRun(hasDatabase, message), BranchTests(message), room, sender,
            GetArgument(message), GroupAndUsers(message), rows)
  }

  /** `run` past an open gate as the `if ... elif` chain of the source reads. */
  lemma RunWithOpen(tests: seq<Result<bool>>, room: Room, sender: string, argument: Option<string>,
                    parsed: Option<(string, seq<string>)>, rows: seq<Row>)
    requires |tests| == 4 && (argument.Some? ==> !AllSpace(argument.value))
    ensures RunWith(Ok(true), tests, room, sender, argument, parsed, rows) ==
      if tests[0].Err? then (Raised(tests[0].error), rows)
      else if tests[0].value then (Replied(HighlightAllReply(room, sender, argument)), rows)
      else if tests[1].Err? then (Raised(tests[1].error), rows)
      else if tests[1].value then (Replied(HighlightReply(room, sender, argument, rows)), rows)
      else if tests[2].Err? then (Raised(tests[2].error), rows)
      else if tests[2].value then AddCommand(room, parsed, rows)
      else if tests[3].Err? then (Raised(tests[3].error), rows)
      else if tests[3].value then DeleteCommand(room, parsed, rows)
      else (Raised(RuntimeError), rows)
  {
    assert tests[1..][1..][1..][1..] == [];
  }

  // ---------------------------------------------------------------------------------------
  // The module object

  /** The membership check of `_add_or_create_group` and `_delete_from_group`: the named
      users in turn, stopping at the first that `get_user` does not find in the room. */
  method FindMissing(room: Room, users: seq<string>) returns (missing: Option<nat>)
    ensures missing == FirstMissing(room, users)
  {
    var i := 0;
    while i < |users|
      invariant 0 <= i <= |users|
      invariant forall j :: 0 <= j < i ==> GetUser(room, users[j]).Some?
    {
      if GetUser(room, users[i]).None? {
        FirstMissingAt(room, users, i);
        return Some(i);
      }
      i := i + 1;
    }
    FirstMissingMeaning(room, users);
    return None;
  }

  /** The insert loop of `_add_or_create_group`: each user `_is_in_group` does not find
      is inserted and collected in `new_members`. */
  method InsertAll(table: HighlightTable, roomId: string, group: string, users: seq<string>) returns (added: seq<string>)
    requires table.Valid()
    modifies table
    ensures table.Valid()
    ensures (table.rows, added) == AddAll(old(table.rows), roomId, group, users)
  {
    added := [];
    var i := 0;
    assert users[..0] == [];
    while i < |users|
      invariant 0 <= i <= |users|
      invariant table.Valid()
      invariant (table.rows, added) == AddAll(old(table.rows), roomId, group, users[..i])
    {
      var user := users[i];
      AddAllStep(old(table.rows), roomId, group, users, i);
      var present := table.IsInGroup(roomId, group, user);
      assert present <==> Row(roomId, group, user) in table.rows;
      if !present {
        table.Insert(Row(roomId, group, user));
        added := added + [user];
      }
      i := i + 1;
    }
    assert users[..i] == users;
  }

  /** The delete loop of `_delete_from_group`: each member `_is_in_group` finds is deleted
      and collected in `removed_members`. */
  method DeleteAll(table: HighlightTable, roomId: string, group: string, users: seq<string>) returns (removed: seq<string>)
    requires table.Valid()
    modifies table
    ensures table.Valid()
    ensures (table.rows, removed) == RemoveAll(old(table.rows), roomId, group, users)
  {
    removed := [];
    var i := 0;
    assert users[..0] == [];
    while i < |users|
      invariant 0 <= i <= |users|
      invariant table.Valid()
      invariant (table.rows, removed) == RemoveAll(old(table.rows), roomId, group, users[..i])
    {
      var member := users[i];
      RemoveAllStep(old(table.rows), roomId, group, users, i);
      var present := table.IsInGroup(roomId, group, member);
      assert present <==> Row(roomId, group, member) in table.rows;
      if present {
        table.Delete(Row(roomId, group, member));
        removed := removed + [member];
      }
      i := i + 1;
    }
    assert users[..i] == users;
  }

  /** `_add_or_create_group` once the argument has been split: check every named user is
      in the room, then insert the missing rows and report. */
  method AddToGroup(table: HighlightTable, room: Room, parsed: Option<(string, seq<string>)>) returns (outcome: RunOutcome)
    requires table.Valid()
    modifies table
    ensures table.Valid()
    ensures (outcome, table.rows) == AddCommand(room, parsed, old(table.rows))
  {
    if parsed.None? {
      return Raised(AttributeError);
    }
    var (group, usersToAdd) := parsed.value;
    if !(group != [] && |usersToAdd| > 0) {
      return Replied("Could not add: \"" + group + "\" to group \"" + ListRepr(usersToAdd) + "\". Syntax is incorrect");
    }
    var missing := FindMissing(room, usersToAdd);
    if missing.Some? {
      return Replied("User: \"" + usersToAdd[missing.value] + "\" is not in room");
    }
    var newMembers := InsertAll(table, room.roomId, group, usersToAdd);
    if newMembers != [] {
      outcome := Replied("Added \"" + Join(", ", newMembers) + "\" to group \"" + group + "\"");
    } else {
      outcome := Replied("Could not add \"" + Join(", ", usersToAdd) + "\" to group \"" + group + "\"");
    }
  }

  /** `_delete_from_group` once the argument has been split: check every named member is in
      the room, then delete the rows present and report. */
  method DeleteFromGroup(table: HighlightTable, room: Room, parsed: Option<(string, seq<string>)>) returns (outcome: RunOutcome)
    requires table.Valid()
    modifies table
    ensures table.Valid()
    ensures (outcome, table.rows) == DeleteCommand(room, parsed, old(table.rows))
  {
    if parsed.None? {
      return Raised(AttributeError);
    }
    var (group, membersToRemove) := parsed.value;
    if !(group != [] && |membersToRemove| > 0) {
      return Replied("Could not remove: \"" + group + "\" from group \"" + ListRepr(membersToRemove) + "\". Syntax is incorrect");
    }
    var missing := FindMissing(room, membersToRemove);
    if missing.Some? {
      return Replied("User: " + membersToRemove[missing.value] + " is not in room");
    }
    var removedMembers := DeleteAll(table, room.roomId, group, membersToRemove);
    if removedMembers != [] {
      outcome := Replied("Removed \"" + Join(", ", removedMembers) + "\" from group \"" + group + "\"");
    } else {
      outcome := Replied("Could not remove \"" + Join(", ", membersToRemove) + "\" from group \"" + group + "\"");
    }
  }

  class Highlight {
    /** `self.database`, reduced to the table it holds; `null` for a module built without
        a database. */
    const table: HighlightTable?

    constructor(table: HighlightTable?)
      ensures this.table == table
    {
      this.table := table;
    }

    /** `run(room, event, message)` with `event.sender` as `sender`. */
    method Run(room: Room, sender: string, message: string) returns (outcome: RunOutcome)
      requires table != null ==> table.Valid()
      modifies table
      ensures table != null ==> table.Valid()
      ensures table != null ==> (outcome, table.rows) == RunSpec(true, room, sender, message, old(table.rows))
      ensures table == null ==> outcome == Declined
    {
      var gate := ShouldRun(table != null, message);
      if gate.Err? {
        return Raised(gate.error);
      }
      if !gate.value {
        return Declined;
      }
      var tests := BranchTests(message);
      var rows := table.rows;
      RunWithOpen(tests, room, sender, GetArgument(message), GroupAndUsers(message), rows);
      if tests[0].Err? {
        outcome := Raised(tests[0].error);
      } else if tests[0].value {
        outcome := Replied(HighlightAllReply(room, sender, GetArgument(message)));
      } else if tests[1].Err? {
        outcome := Raised(tests[1].error);
      } else if tests[1].value {
        outcome := Replied(HighlightReply(room, sender, GetArgument(message), table.rows));
      } else if tests[2].Err? {
        outcome := Raised(tests[2].error);
      } else if tests[2].value {
        outcome := AddToGroup(table, room, GroupAndUsers(message));
      } else if tests[3].Err? {
        outcome := Raised(tests[3].error);
      } else if tests[3].value {
        outcome := DeleteFromGroup(table, room, GroupAndUsers(message));
      } else {
        outcome := Raised(RuntimeError);
      }
    }
  }
}
