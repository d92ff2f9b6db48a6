/** What the older highlight module promises, stated over its `RunSpec`: when it declines,
    which command a message selects, which errors escape, whom each highlight mentions, and
    that add and delete keep the group as typed. */
module LegacyProperties {
  import opened Python
  import opened Text
  import opened CommandUtility
  import opened MatrixUtility
  import opened GroupStore
  import opened Outcome
  import opened LegacyHighlight
  import HighlightModule
  import HighlightProperties

  // ---------------------------------------------------------------------------------------
  // Dispatch

  /** Whatever the gate and the tests, `run` declines exactly when the gate is false, and
      then leaves the table alone. */
  lemma RunWithDeclines(gate: Result<bool>, tests: seq<Result<bool>>, room: Room, argument: Option<string>,
                        parsed: Option<(string, seq<string>)>, rows: seq<Row>, online: string -> bool)
    requires argument.Some? ==> !AllSpace(argument.value)
    ensures RunWith(gate, tests, room, argument, parsed, rows, online).0 == Declined <==> gate == Ok(false)
    ensures gate == Ok(false) ==> RunWith(gate, tests, room, argument, parsed, rows, online).1 == rows
  {
    HighlightProperties.CommandsAnswer(room, parsed, rows);
  }

  /** `run` declines exactly when an SQLite database is asked for without its location or
      no alias of any command is the command token; and then the table is unchanged. */
  lemma RunDeclines(useSqlite: bool, hasLocation: bool, room: Room, message: string, rows: seq<Row>,
                    online: string -> bool)
    requires WellFormedMessage(message)
    ensures RunSpec(useSqlite, hasLocation, room, message, rows, online).0 == Declined <==>
      (useSqlite && !hasLocation) || !OperationsMatch(Commands, message)
    ensures RunSpec(useSqlite, hasLocation, room, message, rows, online).0 == Declined ==>
      RunSpec(useSqlite, hasLocation, room, message, rows, online).1 == rows
  {
    ShouldRunMeaning(useSqlite, hasLocation, message);
    RunWithDeclines(ShouldRun(useSqlite, hasLocation, message), BranchTests(message), room,
                    GetArgument(message), TypedGroupAndUsers(message), rows, online);
  }

  /** With the gate open and five tests that do not raise, the first test that holds picks
      the command, and `RuntimeError` is raised only when none holds. */
  lemma RunWithPicks(tests: seq<Result<bool>>, room: Room, argument: Option<string>,
                     parsed: Option<(string, seq<string>)>, rows: seq<Row>, online: string -> bool)
    requires argument.Some? ==> !AllSpace(argument.value)
    requires |tests| == 5 && tests[0].Ok? && tests[1].Ok? && tests[2].Ok? && tests[3].Ok? && tests[4].Ok?
    ensures var r := RunWith(Ok(true), tests, room, argument, parsed, rows, online);
      && (tests[0].value ==> r == (Replied(AllOnlineReply(room, argument, online)), rows))
      && (!tests[0].value && tests[1].value ==> r == (Reply(GroupReply(room, argument, rows)), rows))
      && (!tests[0].value && !tests[1].value && tests[2].value ==>
            r == (Reply(MemberReply(room, argument, rows, online)), rows))
      && (!tests[0].value && !tests[1].value && !tests[2].value && tests[3].value ==>
            r == HighlightModule.AddCommand(room, parsed, rows))
      && (!tests[0].value && !tests[1].value && !tests[2].value && !tests[3].value && tests[4].value ==>
            r == HighlightModule.DeleteCommand(room, parsed, rows))
      && (!tests[0].value && !tests[1].value && !tests[2].value && !tests[3].value && !tests[4].value ==>
            r == (Raised(RuntimeError), rows))
  {
    RunWithOpen(tests, room, argument, parsed, rows, online);
  }

  /** With the gate open, the tests are tried in the order highlight all, highlight group,
      highlight, add, delete, and the first alias list holding the command token picks the
      command. */
  lemma RunPicksFirstBranch(useSqlite: bool, hasLocation: bool, room: Room, message: string, rows: seq<Row>,
                            online: string -> bool)
    requires WellFormedMessage(message) && !(useSqlite && !hasLocation)
    ensures var r := RunSpec(useSqlite, hasLocation, room, message, rows, online);
      var argument := GetArgument(message);
      && (AliasesMatch(AllAliases, message) ==>
            r == (Replied(AllOnlineReply(room, argument, online)), rows))
      && (!AliasesMatch(AllAliases, message) && AliasesMatch(GroupAliases, message) ==>
            r == (Reply(GroupReply(room, argument, rows)), rows))
      && (!AliasesMatch(AllAliases, message) && !AliasesMatch(GroupAliases, message) &&
          AliasesMatch(MemberAliases, message) ==>
            r == (Reply(MemberReply(room, argument, rows, online)), rows))
      && (!AliasesMatch(AllAliases, message) && !AliasesMatch(GroupAliases, message) &&
          !AliasesMatch(MemberAliases, message) && AliasesMatch(AddToGroupAliases, message) ==>
            r == HighlightModule.AddCommand(room, TypedGroupAndUsers(message), rows))
      && (!AliasesMatch(AllAliases, message) && !AliasesMatch(GroupAliases, message) &&
          !AliasesMatch(MemberAliases, message) && !AliasesMatch(AddToGroupAliases, message) &&
          AliasesMatch(DeleteFromGroupAliases, message) ==>
            r == HighlightModule.DeleteCommand(room, TypedGroupAndUsers(message), rows))
  {
    ShouldRunMeaning(useSqlite, hasLocation, message);
    BranchTestsMeaning(message);
    CommandsCoverBranches(message);
    if OperationsMatch(Commands, message) {
      RunWithPicks(BranchTests(message), room, GetArgument(message), TypedGroupAndUsers(message), rows, online);
    }
  }

  /** A stored member of the group named by the first word of `argument` that is no user of
      the room. */
  predicate UnresolvedMember(room: Room, argument: string, rows: seq<Row>)
    requires !AllSpace(argument)
  {
    var members := MembersOf(rows, room.roomId, GetCommandAndArgument(argument)[0]);
    exists k :: 0 <= k < |members| && GetUser(room, members[k]).None?
  }

  /** On a well-formed message `run` never reaches its `RuntimeError`. The only error that
      escapes is `AttributeError`, raised by a group, highlight, add or delete command with
      nothing after it, or by `!hl` when a stored member of the group is no user of the
      room; `!hlall` never raises. */
  lemma RunRaises(useSqlite: bool, hasLocation: bool, room: Room, message: string, rows: seq<Row>,
                  online: string -> bool)
    requires WellFormedMessage(message)
    ensures var r := RunSpec(useSqlite, hasLocation, room, message, rows, online).0;
      && r != Raised(RuntimeError)
      && (r.Raised? ==>
            (r == Raised(AttributeError) && !AliasesMatch(AllAliases, message) &&
             (GetArgument(message).None? ||
              (AliasesMatch(MemberAliases, message) && !AliasesMatch(GroupAliases, message) &&
               UnresolvedMember(room, GetArgument(message).value, rows)))))
  {
    ShouldRunMeaning(useSqlite, hasLocation, message);
    BranchTestsMeaning(message);
    CommandsCoverBranches(message);
    HighlightProperties.CommandsAnswer(room, TypedGroupAndUsers(message), rows);
    var argument := GetArgument(message);
    if argument.Some? {
      GroupReplyMeaning(room, argument.value, rows);
      MemberReplyMeaning(room, argument.value, rows, online);
    }
    if !(useSqlite && !hasLocation) && OperationsMatch(Commands, message) {
      RunWithPicks(BranchTests(message), room, argument, TypedGroupAndUsers(message), rows, online);
    }
  }

  // ---------------------------------------------------------------------------------------
  // Highlighting

  /** `!hlall` mentions exactly the room's joined users that are online, the sender
      included, and says so when there are none. */
  lemma AllOnlineMeaning(room: Room, argument: Option<string>, online: string -> bool)
    ensures var ids := OnlineOnly(HighlightModule.UserIds(room.members), online);
      && (forall id :: id in ids <==>
            online(id) && exists k :: 0 <= k < |room.members| && room.members[k].userId == id)
      && (ids == [] ==> AllOnlineReply(room, argument, online) == "No online users to highlight")
  {
    var all := HighlightModule.UserIds(room.members);
    OnlineOnlyMeaning(all, online);
    forall id ensures id in all <==> exists k :: 0 <= k < |room.members| && room.members[k].userId == id {
      if id in all {
        var k :| 0 <= k < |all| && all[k] == id;
        assert room.members[k].userId == id;
      }
      if exists k :: 0 <= k < |room.members| && room.members[k].userId == id {
        var k :| 0 <= k < |room.members| && room.members[k].userId == id;
        assert all[k] == id;
      }
    }
  }

  /** `!hlg` answers every argument, and lists exactly the members stored for the first
      word as typed, with no lower-casing and no lookup in the room; "does not exist"
      exactly when nothing is stored for that word. */
  lemma GroupReplyMeaning(room: Room, argument: string, rows: seq<Row>)
    requires !AllSpace(argument)
    ensures var group := GetCommandAndArgument(argument)[0];
      var members := MembersOf(rows, room.roomId, group);
      var r := GroupReply(room, Some(argument), rows);
      && r.Ok?
      && (forall m :: m in members <==> Row(room.roomId, group, m) in rows)
      && (members == [] ==> r.value == "Group \"" + group + "\" does not exist")
      && (members != [] && |GetCommandAndArgument(argument)| == 1 ==> r.value == Join(", ", members))
  {
    var arguments := GetCommandAndArgument(argument);
    var members := MembersOf(rows, room.roomId, arguments[0]);
    MembersOfMeaning(rows, room.roomId, arguments[0]);
    if members == [] {
      assert GroupReply(room, Some(argument), rows) == Ok("Group \"" + arguments[0] + "\" does not exist");
    } else if |arguments| == 1 {
      assert GroupReply(room, Some(argument), rows) == Ok(Join(", ", members));
    } else {
      assert GroupReply(room, Some(argument), rows) == Ok(Join(", ", members) + ": " + arguments[1]);
    }
  }

  /** `!hl` raises exactly when a stored member of the group is no user of the room, and
      then raises `AttributeError`. */
  lemma MemberReplyMeaning(room: Room, argument: string, rows: seq<Row>, online: string -> bool)
    requires !AllSpace(argument)
    ensures var members := MembersOf(rows, room.roomId, GetCommandAndArgument(argument)[0]);
      var r := MemberReply(room, Some(argument), rows, online);
      && (r.Err? <==> UnresolvedMember(room, argument, rows))
      && (r.Err? ==> r.error == AttributeError)
  {
    var members := MembersOf(rows, room.roomId, GetCommandAndArgument(argument)[0]);
    UserIdsOfFails(room, members);
    MemberReplyFails(room, argument, rows, online);
  }

  /** `!hl` fails exactly when looking up the stored members fails, with its error. */
  lemma MemberReplyFails(room: Room, argument: string, rows: seq<Row>, online: string -> bool)
    requires !AllSpace(argument)
    ensures var members := MembersOf(rows, room.roomId, GetCommandAndArgument(argument)[0]);
      var r := MemberReply(room, Some(argument), rows, online);
      && (r.Err? <==> UserIdsOf(room, members).Err?)
      && (r.Err? ==> r.error == UserIdsOf(room, members).error)
  {
    var members := MembersOf(rows, room.roomId, GetCommandAndArgument(argument)[0]);
    if UserIdsOf(room, members).Err? {
      MemberReplyPassesError(room, argument, rows, online);
    } else {
      MemberReplyAnswers(room, argument, rows, online);
    }
  }

  lemma MemberReplyPassesError(room: Room, argument: string, rows: seq<Row>, online: string -> bool)
    requires !AllSpace(argument)
    requires UserIdsOf(room, MembersOf(rows, room.roomId, GetCommandAndArgument(argument)[0])).Err?
    ensures MemberReply(room, Some(argument), rows, online) ==
      Err(UserIdsOf(room, MembersOf(rows, room.roomId, GetCommandAndArgument(argument)[0])).error)
  {
  }

  lemma MemberReplyAnswers(room: Room, argument: string, rows: seq<Row>, online: string -> bool)
    requires !AllSpace(argument)
    requires UserIdsOf(room, MembersOf(rows, room.roomId, GetCommandAndArgument(argument)[0])).Ok?
    ensures MemberReply(room, Some(argument), rows, online).Ok?
  {
    var arguments := GetCommandAndArgument(argument);
    var ids := UserIdsOf(room, MembersOf(rows, room.roomId, arguments[0])).value;
    var members := OnlineOnly(ids, online);
    var r := MemberReply(room, Some(argument), rows, online);
    if members == [] {
      assert r == Ok("Group \"" + arguments[0] + "\" does not have any online members to highlight");
    } else if |arguments| > 1 {
      assert r == Ok(Join(", ", members) + ": " + arguments[1]);
    } else {
      assert r == Ok(Join(", ", members));
    }
  }

  /** The lookup of stored members fails, with `AttributeError`, exactly when one of them
      is no user of the room. */
  lemma UserIdsOfFails(room: Room, members: seq<string>)
    ensures UserIdsOf(room, members).Err? <==> exists k :: 0 <= k < |members| && GetUser(room, members[k]).None?
    ensures UserIdsOf(room, members).Err? ==> UserIdsOf(room, members).error == AttributeError
  {
    UserIdsOfMeaning(room, members);
  }

  /** The ids `!hl` mentions, once every stored member names a user of the room: exactly
      the online ids of the users they name. */
  lemma MemberIdsMeaning(room: Room, members: seq<string>, online: string -> bool)
    requires UserIdsOf(room, members).Ok?
    ensures forall id :: id in OnlineOnly(UserIdsOf(room, members).value, online) <==>
      (online(id) && HighlightModule.ResolvesTo(room, members, id))
  {
    UserIdsOfMeaning(room, members);
    var all := UserIdsOf(room, members).value;
    OnlineOnlyMeaning(all, online);
    forall id ensures id in all <==> HighlightModule.ResolvesTo(room, members, id) {
      if id in all {
        var k :| 0 <= k < |all| && all[k] == id;
        assert members[k] in members && GetUser(room, members[k]).value.userId == id;
      }
      if HighlightModule.ResolvesTo(room, members, id) {
        var m :| m in members && GetUser(room, m).Some? && GetUser(room, m).value.userId == id;
        var k :| 0 <= k < |members| && members[k] == m;
        assert all[k] == id;
      }
    }
  }

  /** `!hl` with no online member named says so. */
  lemma NoOnlineMember(room: Room, argument: string, rows: seq<Row>, online: string -> bool)
    requires !AllSpace(argument)
    requires var members := MembersOf(rows, room.roomId, GetCommandAndArgument(argument)[0]);
      UserIdsOf(room, members).Ok? && OnlineOnly(UserIdsOf(room, members).value, online) == []
    ensures MemberReply(room, Some(argument), rows, online) ==
      Ok("Group \"" + GetCommandAndArgument(argument)[0] + "\" does not have any online members to highlight")
  {
  }

  // ---------------------------------------------------------------------------------------
  // Add and delete

  /** `!hla`/`!hld` name the group by the first word of the argument exactly as typed, the
      same word `!hlg` and `!hl` look up. */
  lemma GroupWordAsTyped(message: string)
    requires GetArgument(message).Some?
    ensures TypedGroupAndUsers(message).Some?
    ensures TypedGroupAndUsers(message).value.0 == GetCommandAndArgument(GetArgument(message).value)[0]
  {
    var argument := GetArgument(message).value;
    assert !AllSpace(argument);
    assert GetCommand(argument).Ok?;
  }

  /** With every named user in the room, a user added to a group is listed by `!hlg` for
      that group afterwards. */
  lemma AddedUserIsListed(room: Room, message: string, rows: seq<Row>, u: string)
    requires Distinct(rows)
    requires TypedGroupAndUsers(message).Some? && TypedGroupAndUsers(message).value.1 != []
    requires forall j :: 0 <= j < |TypedGroupAndUsers(message).value.1| ==>
      GetUser(room, TypedGroupAndUsers(message).value.1[j]).Some?
    requires u in TypedGroupAndUsers(message).value.1
    ensures var group := TypedGroupAndUsers(message).value.0;
      u in MembersOf(HighlightModule.AddCommand(room, TypedGroupAndUsers(message), rows).1, room.roomId, group)
  {
    var parsed := TypedGroupAndUsers(message);
    HighlightProperties.AddEffect(room, parsed, rows);
    MembersOfMeaning(HighlightModule.AddCommand(room, parsed, rows).1, room.roomId, parsed.value.0);
  }

  /** With every named member in the room, a member deleted from a group is no longer
      listed for it. */
  lemma DeletedUserIsNotListed(room: Room, message: string, rows: seq<Row>, u: string)
    requires Distinct(rows)
    requires TypedGroupAndUsers(message).Some? && TypedGroupAndUsers(message).value.1 != []
    requires forall j :: 0 <= j < |TypedGroupAndUsers(message).value.1| ==>
      GetUser(room, TypedGroupAndUsers(message).value.1[j]).Some?
    requires u in TypedGroupAndUsers(message).value.1
    ensures var group := TypedGroupAndUsers(message).value.0;
      u !in MembersOf(HighlightModule.DeleteCommand(room, TypedGroupAndUsers(message), rows).1, room.roomId, group)
  {
    var parsed := TypedGroupAndUsers(message);
    HighlightProperties.DeleteEffect(room, parsed, rows);
    MembersOfMeaning(HighlightModule.DeleteCommand(room, parsed, rows).1, room.roomId, parsed.value.0);
  }
}
