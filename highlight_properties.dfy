/** What the highlight module promises, stated over `RunSpec` and the command
    specifications: when it declines, which command a message selects, which errors can
    escape, what add and delete do to the table and report, and how the code as written
    departs from that. */
module HighlightProperties {
  import opened Python
  import opened Text
  import opened CommandUtility
  import opened MatrixUtility
  import opened GroupStore
  import opened Outcome
  import opened HighlightModule

  // ---------------------------------------------------------------------------------------
  // Dispatch

  /** Some operation's alias list holds the command token exactly when one of the four
      branch tests does. */
  lemma OperationsCoverBranches(message: string)
    ensures OperationsMatch(Operations, message) <==>
      AliasesMatch(HighlightAllAliases, message) || AliasesMatch(HighlightAliases, message) ||
      AliasesMatch(AddAliases, message) || AliasesMatch(DeleteAliases, message)
  {
    var ops := Operations;
    assert ops[0].1 == HighlightAllAliases && ops[1].1 == AddAliases;
    assert ops[2].1 == DeleteAliases && ops[3].1 == HighlightAliases;
    if OperationsMatch(ops, message) {
      var i :| 0 <= i < |ops| && AliasesMatch(ops[i].1, message);
      assert i == 0 || i == 1 || i == 2 || i == 3;
    }
  }

  /** Add and delete always answer: they reply or raise, and never decline. */
  lemma CommandsAnswer(room: Room, parsed: Option<(string, seq<string>)>, rows: seq<Row>)
    ensures AddCommand(room, parsed, rows).0 != Declined
    ensures DeleteCommand(room, parsed, rows).0 != Declined
    ensures AddCommand(room, parsed, rows).0.Raised? <==> parsed.None?
    ensures DeleteCommand(room, parsed, rows).0.Raised? <==> parsed.None?
    ensures parsed.None? ==> AddCommand(room, parsed, rows) == (Raised(AttributeError), rows)
    ensures parsed.None? ==> DeleteCommand(room, parsed, rows) == (Raised(AttributeError), rows)
  {
  }

  /** Whatever the gate and the tests, `run` declines exactly when the gate is false, and
      then leaves the table alone. */
  lemma RunWithDeclines(gate: Result<bool>, tests: seq<Result<bool>>, room: Room, sender: string,
                        argument: Option<string>, parsed: Option<(string, seq<string>)>, rows: seq<Row>)
    requires argument.Some? ==> !AllSpace(argument.value)
    ensures RunWith(gate, tests, room, sender, argument, parsed, rows).0 == Declined <==> gate == Ok(false)
    ensures gate == Ok(false) ==> RunWith(gate, tests, room, sender, argument, parsed, rows).1 == rows
  {
    CommandsAnswer(room, parsed, rows);
  }

  /** `run` declines exactly when the module has no database or no alias of any operation
      is the command token; and when it declines the table is unchanged. */
  lemma RunDeclines(hasDatabase: bool, room: Room, sender: string, message: string, rows: seq<Row>)
    requires WellFormedMessage(message)
    ensures RunSpec(hasDatabase, room, sender, message, rows).0 == Declined <==>
      !hasDatabase || !OperationsMatch(Operations, message)
    ensures RunSpec(hasDatabase, room, sender, message, rows).0 == Declined ==>
      RunSpec(hasDatabase, room, sender, message, rows).1 == rows
  {
    ShouldRunMeaning(hasDatabase, message);
    RunWithDeclines(ShouldRun(hasDatabase, message), BranchTests(message), room, sender,
                    GetArgument(message), GroupAndUsers(message), rows);
  }

  /** With the gate open and four tests that do not raise, the first test that holds picks
      the command, and `RuntimeError` is raised only when none holds. */
  lemma RunWithPicks(tests: seq<Result<bool>>, room: Room, sender: string,
                     argument: Option<string>, parsed: Option<(string, seq<string>)>, rows: seq<Row>)
    requires argument.Some? ==> !AllSpace(argument.value)
    requires |tests| == 4 && tests[0].Ok? && tests[1].Ok? && tests[2].Ok? && tests[3].Ok?
    ensures var r := RunWith(Ok(true), tests, room, sender, argument, parsed, rows);
      && (tests[0].value ==> r == (Replied(HighlightAllReply(room, sender, argument)), rows))
      && (!tests[0].value && tests[1].value ==> r == (Replied(HighlightReply(room, sender, argument, rows)), rows))
      && (!tests[0].value && !tests[1].value && tests[2].value ==> r == AddCommand(room, parsed, rows))
      && (!tests[0].value && !tests[1].value && !tests[2].value && tests[3].value ==> r == DeleteCommand(room, parsed, rows))
      && (r.0 == Raised(RuntimeError) <==> !tests[0].value && !tests[1].value && !tests[2].value && !tests[3].value)
  {
    CommandsAnswer(room, parsed, rows);
    var f := FirstTrue(tests);
    if !tests[0].value && !tests[1].value && !tests[2].value && !tests[3].value {
      assert forall j :: 0 <= j < |tests| ==> tests[j] == Ok(false);
    }
  }

  /** With the gate open, the tests are tried in the order highlight all, highlight, add,
      delete, and the first alias list holding the command token picks the command. */
  lemma RunPicksFirstBranch(room: Room, sender: string, message: string, rows: seq<Row>)
    requires WellFormedMessage(message)
    ensures var r := RunSpec(true, room, sender, message, rows);
      && (AliasesMatch(HighlightAllAliases, message) ==>
            r == (Replied(HighlightAllReply(room, sender, GetArgument(message))), rows))
      && (!AliasesMatch(HighlightAllAliases, message) && AliasesMatch(HighlightAliases, message) ==>
            r == (Replied(HighlightReply(room, sender, GetArgument(message), rows)), rows))
      && (!AliasesMatch(HighlightAllAliases, message) && !AliasesMatch(HighlightAliases, message) &&
          AliasesMatch(AddAliases, message) ==>
            r == AddSpec(room, message, rows))
      && (!AliasesMatch(HighlightAllAliases, message) && !AliasesMatch(HighlightAliases, message) &&
          !AliasesMatch(AddAliases, message) && AliasesMatch(DeleteAliases, message) ==>
            r == DeleteSpec(room, message, rows))
  {
    ShouldRunMeaning(true, message);
    BranchTestsMeaning(message);
    OperationsCoverBranches(message);
    if OperationsMatch(Operations, message) {
      RunWithPicks(BranchTests(message), room, sender, GetArgument(message), GroupAndUsers(message), rows);
    }
  }

  /** On a well-formed message `run` never reaches its `RuntimeError`, and the only error
      that escapes is the `AttributeError` of an add or delete command with nothing after
      it. */
  lemma RunRaisesOnlyOnBareAddOrDelete(hasDatabase: bool, room: Room, sender: string, message: string, rows: seq<Row>)
    requires WellFormedMessage(message)
    ensures RunSpec(hasDatabase, room, sender, message, rows).0 != Raised(RuntimeError)
    ensures RunSpec(hasDatabase, room, sender, message, rows).0.Raised? ==>
      RunSpec(hasDatabase, room, sender, message, rows).0 == Raised(AttributeError) &&
      GetArgument(message).None? && (AliasesMatch(AddAliases, message) || AliasesMatch(DeleteAliases, message))
  {
    ShouldRunMeaning(hasDatabase, message);
    BranchTestsMeaning(message);
    OperationsCoverBranches(message);
    CommandsAnswer(room, GroupAndUsers(message), rows);
    if hasDatabase && OperationsMatch(Operations, message) {
      RunWithPicks(BranchTests(message), room, sender, GetArgument(message), GroupAndUsers(message), rows);
    }
  }

  // ---------------------------------------------------------------------------------------
  // Add and delete

  /** The group that `!hla`/`!hld` name is the lower-cased first word of the argument, the
      same word `!hl` looks up, and it is stored in lower case. */
  lemma GroupWordShared(message: string)
    requires GetArgument(message).Some?
    ensures GroupAndUsers(message).Some?
    ensures GroupAndUsers(message).value.0 == LowerStr(GetCommandAndArgument(GetArgument(message).value)[0])
    ensures LowerStr(GroupAndUsers(message).value.0) == GroupAndUsers(message).value.0
    ensures |SplitWhitespace(message)| >= 2
    ensures GroupAndUsers(message).value.1 == SplitWhitespace(message)[2..]
  {
    UsersAfterGroupWord(message);
    var argument := GetArgument(message).value;
    assert !AllSpace(argument);
    assert GetCommand(argument).Ok?;
    LowerStrIdempotent(GetCommandAndArgument(argument)[0]);
  }

  /** The users of `!hla`/`!hld` are the words of the message after the command and the
      group word. */
  lemma UsersAfterGroupWord(message: string)
    requires GetArgument(message).Some?
    ensures |SplitWhitespace(message)| >= 2
    ensures GroupAndUsers(message).Some? && GroupAndUsers(message).value.1 == SplitWhitespace(message)[2..]
  {
    var words := SplitWhitespace(GetArgument(message).value);
    DropAfterHead(GetCommand(message).value, words);
  }

  /** Past the head, dropping two elements of a sequence drops one of its tail. */
  lemma DropAfterHead(x: string, ws: seq<string>)
    requires ws != []
    ensures |[x] + ws| >= 2 && ([x] + ws)[2..] == ws[1..]
  {
    assert ([x] + ws)[1..] == ws;
  }

  /** A group with no users after it gets the syntax reply and the table is not touched;
      the group is never empty, so this is the only way to reach that reply. */
  lemma SyntaxReplyWithoutUsers(room: Room, parsed: Option<(string, seq<string>)>, rows: seq<Row>)
    requires parsed.Some? && parsed.value.0 != [] && parsed.value.1 == []
    ensures AddCommand(room, parsed, rows) ==
      (Replied("Could not add: \"" + parsed.value.0 + "\" to group \"" + "[]" + "\". Syntax is incorrect"), rows)
    ensures DeleteCommand(room, parsed, rows) ==
      (Replied("Could not remove: \"" + parsed.value.0 + "\" from group \"" + "[]" + "\". Syntax is incorrect"), rows)
  {
    assert ListRepr([]) == "[]";
  }

  /** Before any change, every named user is looked up in the room: when `users[i]` is the
      first one `get_user` does not find, that user is named in the reply and the table is
      unchanged. */
  lemma MembershipCheckedFirst(room: Room, parsed: Option<(string, seq<string>)>, rows: seq<Row>, i: nat)
    requires parsed.Some? && parsed.value.0 != []
    requires i < |parsed.value.1| && GetUser(room, parsed.value.1[i]).None?
    requires forall j :: 0 <= j < i ==> GetUser(room, parsed.value.1[j]).Some?
    ensures AddCommand(room, parsed, rows) ==
      (Replied("User: \"" + parsed.value.1[i] + "\" is not in room"), rows)
    ensures DeleteCommand(room, parsed, rows) ==
      (Replied("User: " + parsed.value.1[i] + " is not in room"), rows)
  {
    var users := parsed.value.1;
    FirstMissingMeaning(room, users);
    var k := FirstMissing(room, users).value;
    assert k == i;
  }

  /** With every named user in the room, `!hla` appends, in order, the rows of exactly the
      users that had none (each once), keeps every row it had and the uniqueness of rows,
      and replies with the users it added, or with "Could not add" when there were none. */
  lemma AddEffect(room: Room, parsed: Option<(string, seq<string>)>, rows: seq<Row>)
    requires Distinct(rows)
    requires parsed.Some? && parsed.value.0 != [] && parsed.value.1 != []
    requires forall j :: 0 <= j < |parsed.value.1| ==> GetUser(room, parsed.value.1[j]).Some?
    ensures var (group, users) := parsed.value;
      var (outcome, rs) := AddCommand(room, parsed, rows);
      var added := Dedup(Absent(rows, room.roomId, group, users));
      && rs == rows + RowsFor(room.roomId, group, added)
      && Distinct(rs)
      && (forall u :: u in users ==> Row(room.roomId, group, u) in rs)
      && (forall x :: x in rs <==> x in rows || (x.roomId == room.roomId && x.groupName == group && x.member in users))
      && (forall u :: u in added <==> u in users && Row(room.roomId, group, u) !in rows)
      && Distinct(added)
      && outcome == Replied(
           if added != [] then "Added \"" + Join(", ", added) + "\" to group \"" + group + "\""
           else "Could not add \"" + Join(", ", users) + "\" to group \"" + group + "\"")
  {
    var (group, users) := parsed.value;
    FirstMissingMeaning(room, users);
    AddAllEffect(rows, room.roomId, group, users);
    AddAllProperties(rows, room.roomId, group, users);
  }

  /** With every named member in the room, `!hld` keeps, in order, exactly the rows not
      named, and replies with the members that had a row (each once, in order), or with
      "Could not remove" when there were none. */
  lemma DeleteEffect(room: Room, parsed: Option<(string, seq<string>)>, rows: seq<Row>)
    requires Distinct(rows)
    requires parsed.Some? && parsed.value.0 != [] && parsed.value.1 != []
    requires forall j :: 0 <= j < |parsed.value.1| ==> GetUser(room, parsed.value.1[j]).Some?
    ensures var (group, users) := parsed.value;
      var (outcome, rs) := DeleteCommand(room, parsed, rows);
      var removed := Dedup(Present(rows, room.roomId, group, users));
      && rs == Kept(rows, room.roomId, group, users)
      && Distinct(rs)
      && (forall u :: u in users ==> Row(room.roomId, group, u) !in rs)
      && (forall x :: x in rs <==> x in rows && !(x.roomId == room.roomId && x.groupName == group && x.member in users))
      && (forall u :: u in removed <==> u in users && Row(room.roomId, group, u) in rows)
      && Distinct(removed)
      && outcome == Replied(
           if removed != [] then "Removed \"" + Join(", ", removed) + "\" from group \"" + group + "\""
           else "Could not remove \"" + Join(", ", users) + "\" from group \"" + group + "\"")
  {
    var (group, users) := parsed.value;
    FirstMissingMeaning(room, users);
    RemoveAllEffect(rows, room.roomId, group, users);
    RemoveAllProperties(rows, room.roomId, group, users);
  }

  /** Repeating an add leaves the table as the first one left it; when every named user
      is in the room, the repeat replies "Could not add". */
  lemma AddIdempotent(room: Room, parsed: Option<(string, seq<string>)>, rows: seq<Row>)
    requires Distinct(rows)
    ensures var rs := AddCommand(room, parsed, rows).1;
      AddCommand(room, parsed, rs).1 == rs &&
      (parsed.Some? && parsed.value.0 != [] && parsed.value.1 != [] && FirstMissing(room, parsed.value.1).None? ==>
        AddCommand(room, parsed, rs).0 ==
          Replied("Could not add \"" + Join(", ", parsed.value.1) + "\" to group \"" + parsed.value.0 + "\""))
  {
    if parsed.Some? && parsed.value.0 != [] && parsed.value.1 != [] && FirstMissing(room, parsed.value.1).None? {
      AddAllIdempotent(rows, room.roomId, parsed.value.0, parsed.value.1);
    }
  }

  /** Repeating a delete leaves the table as the first one left it; when every named
      member is in the room, the repeat replies "Could not remove". */
  lemma DeleteIdempotent(room: Room, parsed: Option<(string, seq<string>)>, rows: seq<Row>)
    requires Distinct(rows)
    ensures var rs := DeleteCommand(room, parsed, rows).1;
      DeleteCommand(room, parsed, rs).1 == rs &&
      (parsed.Some? && parsed.value.0 != [] && parsed.value.1 != [] && FirstMissing(room, parsed.value.1).None? ==>
        DeleteCommand(room, parsed, rs).0 ==
          Replied("Could not remove \"" + Join(", ", parsed.value.1) + "\" from group \"" + parsed.value.0 + "\""))
  {
    if parsed.Some? && parsed.value.0 != [] && parsed.value.1 != [] && FirstMissing(room, parsed.value.1).None? {
      RemoveAllIdempotent(rows, room.roomId, parsed.value.0, parsed.value.1);
    }
  }

  // ---------------------------------------------------------------------------------------
  // Highlighting

  /** `!hlall` mentions exactly the ids of the room's users other than the sender's, in the
      room's order, and says so when there are none. */
  lemma HighlightAllMeaning(room: Room, sender: string, argument: Option<string>)
    ensures var ids := RemoveElement(UserIds(room.members), sender);
      && (forall id :: id in ids <==>
            id != sender && exists k :: 0 <= k < |room.members| && room.members[k].userId == id)
      && (ids == [] ==> HighlightAllReply(room, sender, argument) == "No users to highlight")
  {
    var all := UserIds(room.members);
    RemoveElementMeaning(all, sender);
    forall id ensures id in all <==> exists k :: 0 <= k < |room.members| && room.members[k].userId == id {
      if id in all {
        var k :| 0 <= k < |all| && all[k] == id;
        assert room.members[k].userId == id;
      }
      if exists k :: 0 <= k < |room.members| && room.members[k].userId == id {
        var k :| 0 <= k < |room.members| && room.members[k].userId == id;
        assert all[k] == id;
      }
    }
  }

  /** A user added to a group is among the ids `!hl` mentions for that group afterwards,
      unless the user is the sender. */
  lemma AddedUserIsHighlighted(room: Room, rows: seq<Row>, group: string, users: seq<string>, sender: string, u: string)
    requires Distinct(rows)
    requires u in users && GetUser(room, u).Some? && GetUser(room, u).value.userId != sender
    ensures GetUser(room, u).value.userId in
      MemberUserIdsExceptSender(room, MembersOf(AddAll(rows, room.roomId, group, users).0, room.roomId, group), sender)
  {
    AddAllProperties(rows, room.roomId, group, users);
    var rs := AddAll(rows, room.roomId, group, users).0;
    MembersOfMeaning(rs, room.roomId, group);
    var members := MembersOf(rs, room.roomId, group);
    MemberUserIdsMeaning(room, members, sender);
    assert ResolvesTo(room, members, GetUser(room, u).value.userId);
  }

  /** A member deleted from a group is no longer stored for it. */
  lemma DeletedUserIsNotStored(rows: seq<Row>, roomId: string, group: string, users: seq<string>, u: string)
    requires Distinct(rows) && u in users
    ensures u !in MembersOf(RemoveAll(rows, roomId, group, users).0, roomId, group)
  {
    RemoveAllProperties(rows, roomId, group, users);
    MembersOfMeaning(RemoveAll(rows, roomId, group, users).0, roomId, group);
  }
}
