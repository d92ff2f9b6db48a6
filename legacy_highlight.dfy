/** modules/highlight.py: the older highlight module. It has five commands instead of
    four (`!hlg` lists a group's stored members as they are), keeps group names exactly as
    typed, does not leave the sender out, and mentions only users that the presence
    service reports online. Its command lists form a dictionary of alias lists, which is
    the shape `matches` expects.

    Presence (`matrix.is_online`) is a parameter `online`, a predicate on user ids. The
    table and the add and delete commands are those of the current module, applied to the
    group word as typed. */
module LegacyHighlight {
  import opened Python
  import opened Text
  import opened CommandUtility
  import opened MatrixUtility
  import opened GroupStore
  import opened Outcome
  import HighlightModule

  const AllAliases: seq<string> := ["!hlall", "!highlightall"]
  const GroupAliases: seq<string> := ["!hlg", "!highlightgroup", "!hlgroup"]
  const AddToGroupAliases: seq<string> := ["!hla", "!hladd", "!highlightadd"]
  const DeleteFromGroupAliases: seq<string> := ["!hld", "!hldelete", "!highlightdelete"]
  const MemberAliases: seq<string> := ["!hl", "!highlight"]

  /** `config["commands"]`, in the dictionary's order. */
  const Commands: seq<(string, seq<string>)> := [
    ("highlight_all", AllAliases),
    ("highlight_group", GroupAliases),
    ("add_to_group", AddToGroupAliases),
    ("delete_from_group", DeleteFromGroupAliases),
    ("highlight", MemberAliases)]

  /** The alias lists in the order `run` tests them. */
  const Branches: seq<seq<string>> := [AllAliases, GroupAliases, MemberAliases, AddToGroupAliases, DeleteFromGroupAliases]

  // ---------------------------------------------------------------------------------------
  // The gate and the command tests

  /** `should_run`: `false` when the configuration asks for an SQLite database without
      giving its location (`useSqlite` and `hasLocation` are the truth values of those two
      settings), and otherwise whether the token is an alias of some command. */
  function ShouldRun(useSqlite: bool, hasLocation: bool, message: string): (r: Result<bool>)
    ensures useSqlite && !hasLocation ==> r == Ok(false)
  {
    if useSqlite && !hasLocation then Ok(false) else Matches(OperationsValue(Commands), message)
  }

  /** On a well-formed message the gate holds exactly when the configuration is not missing
      the database location and some alias of some command is the token. */
  lemma ShouldRunMeaning(useSqlite: bool, hasLocation: bool, message: string)
    requires WellFormedMessage(message)
    ensures ShouldRun(useSqlite, hasLocation, message) ==
      Ok(!(useSqlite && !hasLocation) && OperationsMatch(Commands, message))
  {
    MatchesOperationDict(Commands, message);
  }

  /** The five tests of `run`, in branch order. */
  function BranchTests(message: string): (tests: seq<Result<bool>>)
    ensures |tests| == 5
  {
    [Matches(PyList(StrList(AllAliases)), message),
     Matches(PyList(StrList(GroupAliases)), message),
     Matches(PyList(StrList(MemberAliases)), message),
     Matches(PyList(StrList(AddToGroupAliases)), message),
     Matches(PyList(StrList(DeleteFromGroupAliases)), message)]
  }

  /** On a well-formed message each test holds exactly when one of its aliases is the
      token. */
  lemma BranchTestsMeaning(message: string)
    requires WellFormedMessage(message)
    ensures forall k :: 0 <= k < 5 ==> BranchTests(message)[k] == Ok(AliasesMatch(Branches[k], message))
  {
    MatchesAliasList(AllAliases, message);
    MatchesAliasList(GroupAliases, message);
    MatchesAliasList(MemberAliases, message);
    MatchesAliasList(AddToGroupAliases, message);
    MatchesAliasList(DeleteFromGroupAliases, message);
  }

  /** Some command's alias list holds the token exactly when one of the five branch tests
      does. */
  lemma CommandsCoverBranches(message: string)
    ensures OperationsMatch(Commands, message) <==>
      AliasesMatch(AllAliases, message) || AliasesMatch(GroupAliases, message) ||
      AliasesMatch(MemberAliases, message) || AliasesMatch(AddToGroupAliases, message) ||
      AliasesMatch(DeleteFromGroupAliases, message)
  {
    var ops := Commands;
    assert ops[0].1 == AllAliases && ops[1].1 == GroupAliases && ops[2].1 == AddToGroupAliases;
    assert ops[3].1 == DeleteFromGroupAliases && ops[4].1 == MemberAliases;
    if OperationsMatch(ops, message) {
      var i :| 0 <= i < |ops| && AliasesMatch(ops[i].1, message);
      assert i == 0 || i == 1 || i == 2 || i == 3 || i == 4;
    }
  }

  // ---------------------------------------------------------------------------------------
  // The highlight commands

  /** `[id for id in ids if matrix.is_online(id)]` */
  function OnlineOnly(ids: seq<string>, online: string -> bool): seq<string> {
    if ids == [] then []
    else (if online(ids[0]) then [ids[0]] else []) + OnlineOnly(ids[1..], online)
  }

  /** The online filter keeps exactly the online ids, in their order. */
  lemma {:induction false} OnlineOnlyMeaning(ids: seq<string>, online: string -> bool)
    ensures forall id :: id in OnlineOnly(ids, online) <==> id in ids && online(id)
    ensures |OnlineOnly(ids, online)| <= |ids|
  {
    if ids != [] {
      OnlineOnlyMeaning(ids[1..], online);
      assert ids == [ids[0]] + ids[1..];
    }
  }

  /** The online filter distributes over concatenation, so it keeps the ids' order. */
  lemma {:induction false} OnlineOnlyConcat(xs: seq<string>, ys: seq<string>, online: string -> bool)
    ensures OnlineOnly(xs + ys, online) == OnlineOnly(xs, online) + OnlineOnly(ys, online)
  {
    if xs != [] {
      var head := if online(xs[0]) then [xs[0]] else [];
      assert (xs + ys)[0] == xs[0] && (xs + ys)[1..] == xs[1..] + ys;
      OnlineOnlyConcat(xs[1..], ys, online);
      assert OnlineOnly(xs + ys, online) == head + (OnlineOnly(xs[1..], online) + OnlineOnly(ys, online));
      assert OnlineOnly(xs, online) == head + OnlineOnly(xs[1..], online);
    } else {
      assert xs + ys == ys;
    }
  }

  /** The text `_highlight_all` sends: the online users among the room's joined members
      (the sender included), followed by the text when there is one. */
  function AllOnlineReply(room: Room, argument: Option<string>, online: string -> bool): string {
    var ids := OnlineOnly(HighlightModule.UserIds(room.members), online);
    if ids == [] then "No online users to highlight"
    else if argument.Some? then Join(", ", ids) + ": " + argument.value
    else Join(", ", ids)
  }

  /** `_highlight_group`: the stored members of the group as typed, without asking the room
      or the presence service. A bare `!hlg` has no argument, and `None.split` raises. */
  function GroupReply(room: Room, argument: Option<string>, rows: seq<Row>): Result<string>
    requires argument.Some? ==> !AllSpace(argument.value)
  {
    if argument.None? then Err(AttributeError)
    else
      var arguments := GetCommandAndArgument(argument.value);
      var group := arguments[0];
      var members := MembersOf(rows, room.roomId, group);
      if members == [] then Ok("Group \"" + group + "\" does not exist")
      else if |arguments| > 1 then Ok(Join(", ", members) + ": " + arguments[1])
      else Ok(Join(", ", members))
  }

  /** `[matrix.get_user(room, m).user_id for m in members]`: raises `AttributeError` at the
      first stored member that is no user of the room. */
  function UserIdsOf(room: Room, members: seq<string>): Result<seq<string>> {
    if members == [] then Ok([])
    else
      match GetUser(room, members[0])
      case None => Err(AttributeError)
      case Some(u) =>
        match UserIdsOf(room, members[1..])
        case Err(e) => Err(e)
        case Ok(ids) => Ok([u.userId] + ids)
  }

  /** The lookup succeeds exactly when every member names a user of the room, and then
      gives, position by position, the id of the user each names. */
  lemma {:induction false} UserIdsOfMeaning(room: Room, members: seq<string>)
    ensures UserIdsOf(room, members).Ok? <==> forall k :: 0 <= k < |members| ==> GetUser(room, members[k]).Some?
    ensures UserIdsOf(room, members).Ok? ==>
      |UserIdsOf(room, members).value| == |members| &&
      forall k :: 0 <= k < |members| ==> UserIdsOf(room, members).value[k] == GetUser(room, members[k]).value.userId
    ensures UserIdsOf(room, members).Err? ==> UserIdsOf(room, members).error == AttributeError
  {
    if members != [] {
      UserIdsOfMeaning(room, members[1..]);
      assert forall k :: 1 <= k < |members| ==> members[k] == members[1..][k - 1];
    }
  }

  /** `_highlight`: the ids of the users the group's stored members name, kept when online,
      followed by the text when there is one. A bare `!hl` raises, and so does a stored
      member that is no user of the room. */
  function MemberReply(room: Room, argument: Option<string>, rows: seq<Row>, online: string -> bool): Result<string>
    requires argument.Some? ==> !AllSpace(argument.value)
  {
    if argument.None? then Err(AttributeError)
    else
      var arguments := GetCommandAndArgument(argument.value);
      var group := arguments[0];
      match UserIdsOf(room, MembersOf(rows, room.roomId, group))
      case Err(e) => Err(e)
      case Ok(ids) =>
        var members := OnlineOnly(ids, online);
        if members == [] then Ok("Group \"" + group + "\" does not have any online members to highlight")
        else if |arguments| > 1 then Ok(Join(", ", members) + ": " + arguments[1])
        else Ok(Join(", ", members))
  }

  /** The words of the argument of `!hla`/`!hld`: the group exactly as typed, and the users;
      `None` when nothing follows the command. */
  function TypedGroupAndUsers(message: string): (r: Option<(string, seq<string>)>)
    ensures r.Some? ==> r.value.0 != []
    ensures r.None? <==> GetArgument(message).None?
  {
    var argument := GetArgument(message);
    if argument.None? then None
    else
      var arguments := SplitWhitespace(argument.value);
      Some((arguments[0], arguments[1..]))
  }

  /** A `Result` of a reply as an outcome. */
  function Reply(r: Result<string>): RunOutcome {
    match r
    case Ok(text) => Replied(text)
    case Err(e) => Raised(e)
  }

  /** `run` given the gate's value, the five command tests, the message's argument and its
      split into a group and users. */
  function RunWith(gate: Result<bool>, tests: seq<Result<bool>>, room: Room, argument: Option<string>,
                   parsed: Option<(string, seq<string>)>, rows: seq<Row>, online: string -> bool): (RunOutcome, seq<Row>)
    requires argument.Some? ==> !AllSpace(argument.value)
  {
    match gate
    case Err(e) => (Raised(e), rows)
    case Ok(false) => (Declined, rows)
    case Ok(true) =>
      match FirstTrue(tests)
      case Err(e) => (Raised(e), rows)
      case Ok(None) => (Raised(RuntimeError), rows)
      case Ok(Some(k)) =>
        if k == 0 then (Replied(AllOnlineReply(room, argument, online)), rows)
        else if k == 1 then (Reply(GroupReply(room, argument, rows)), rows)
        else if k == 2 then (Reply(MemberReply(room, argument, rows, online)), rows)
        else if k == 3 then HighlightModule.AddCommand(room, parsed, rows)
        else if k == 4 then HighlightModule.DeleteCommand(room, parsed, rows)
        else (Raised(RuntimeError), rows)
  }

  /** `run(room, event, message)`: the outcome and the rows afterwards. */
  function RunSpec(useSqlite: bool, hasLocation: bool, room: Room, message: string, rows: seq<Row>,
                   online: string -> bool): (RunOutcome, seq<Row>) {
    RunWith(ShouldRun(useSqlite, hasLocation, message), BranchTests(message), room,
            GetArgument(message), TypedGroupAndUsers(message), rows, online)
  }

  // ---------------------------------------------------------------------------------------
  // The module object

  class LegacyHighlight {
    /** `self.database`, reduced to the table it holds; the constructor connects to it, so a
        module always has one. */
    const table: HighlightTable
    /** Whether `config` sets `use_sqlite_database`, and whether it sets
        `sqlite_database_location`. */
    const useSqlite: bool
    const hasLocation: bool

    constructor(table: HighlightTable, useSqlite: bool, hasLocation: bool)
      ensures this.table == table && this.useSqlite == useSqlite && this.hasLocation == hasLocation
    {
      this.table := table;
      this.useSqlite := useSqlite;
      this.hasLocation := hasLocation;
    }

    /** `run(room, event, message)`, with `online` for the presence service. */
    method Run(room: Room, message: string, online: string -> bool) returns (outcome: RunOutcome)
      requires table.Valid()
      modifies table
      ensures table.Valid()
      ensures (outcome, table.rows) == RunSpec(useSqlite, hasLocation, room, message, old(table.rows), online)
    {
      var gate := ShouldRun(useSqlite, hasLocation, message);
      if gate.Err? {
        return Raised(gate.error);
      }
      if !gate.value {
        return Declined;
      }
      var tests := BranchTests(message);
      var argument := GetArgument(message);
      var rows := table.rows;
      RunWithOpen(tests, room, argument, TypedGroupAndUsers(message), rows, online);
      if tests[0].Err? {
        outcome := Raised(tests[0].error);
      } else if tests[0].value {
        outcome := Replied(AllOnlineReply(room, argument, online));
      } else if tests[1].Err? {
        outcome := Raised(tests[1].error);
      } else if tests[1].value {
        outcome := Reply(GroupReply(room, argument, rows));
      } else if tests[2].Err? {
        outcome := Raised(tests[2].error);
      } else if tests[2].value {
        outcome := Reply(MemberReply(room, argument, rows, online));
      } else if tests[3].Err? {
        outcome := Raised(tests[3].error);
      } else if tests[3].value {
        outcome := HighlightModule.AddToGroup(table, room, TypedGroupAndUsers(message));
      } else if tests[4].Err? {
        outcome := Raised(tests[4].error);
      } else if tests[4].value {
        outcome := HighlightModule.DeleteFromGroup(table, room, TypedGroupAndUsers(message));
      } else {
        outcome := Raised(RuntimeError);
      }
    }
  }

  /** `run` past an open gate as the `if ... elif` chain of the source reads. */
  lemma RunWithOpen(tests: seq<Result<bool>>, room: Room, argument: Option<string>,
                    parsed: Option<(string, seq<string>)>, rows: seq<Row>, online: string -> bool)
    requires |tests| == 5 && (argument.Some? ==> !AllSpace(argument.value))
    ensures RunWith(Ok(true), tests, room, argument, parsed, rows, online) ==
      if tests[0].Err? then (Raised(tests[0].error), rows)
      else if tests[0].value then (Replied(AllOnlineReply(room, argument, online)), rows)
      else if tests[1].Err? then (Raised(tests[1].error), rows)
      else if tests[1].value then (Reply(GroupReply(room, argument, rows)), rows)
      else if tests[2].Err? then (Raised(tests[2].error), rows)
      else if tests[2].value then (Reply(MemberReply(room, argument, rows, online)), rows)
      else if tests[3].Err? then (Raised(tests[3].error), rows)
      else if tests[3].value then HighlightModule.AddCommand(room, parsed, rows)
      else if tests[4].Err? then (Raised(tests[4].error), rows)
      else if tests[4].value then HighlightModule.DeleteCommand(room, parsed, rows)
      else (Raised(RuntimeError), rows)
  {
    assert tests[1..][1..][1..][1..][1..] == [];
  }
}
