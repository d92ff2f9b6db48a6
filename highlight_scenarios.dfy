/** The situations of the highlight module's unit tests, worked out on the model: a room
    holding `user1` (or only the sender, or nobody), and the replies and table changes that
    `run` produces for the tests' messages. Each scenario is split into the branch the
    command word selects and the reply that branch computes. */
module HighlightScenarios {
  import opened Python
  import opened Text
  import opened CommandUtility
  import opened MatrixUtility
  import opened GroupStore
  import opened Outcome
  import opened HighlightModule
  import opened HighlightProperties

  // ---------------------------------------------------------------------------------------
  // Which branch a command word selects

  /** `!hlall` selects the branch that highlights everyone. */
  lemma HighlightAllSelected(room: Room, sender: string, message: string, rows: seq<Row>)
    requires GetCommand(message) == Ok("!hlall")
    ensures RunSpec(true, room, sender, message, rows) ==
      (Replied(HighlightAllReply(room, sender, GetArgument(message))), rows)
  {
    assert LowerStr(HighlightAllAliases[0]) == LowerStr("!hlall");
    assert AliasesMatch(HighlightAllAliases, message);
    RunPicksFirstBranch(room, sender, message, rows);
  }

  /** `!hl` selects the branch that highlights a group. */
  lemma HighlightSelected(room: Room, sender: string, message: string, rows: seq<Row>)
    requires GetCommand(message) == Ok("!hl")
    ensures RunSpec(true, room, sender, message, rows) ==
      (Replied(HighlightReply(room, sender, GetArgument(message), rows)), rows)
  {
    assert LowerStr(HighlightAliases[0]) == LowerStr("!hl");
    assert AliasesMatch(HighlightAliases, message);
    HighlightWordNotEarlier(GetCommand(message).value);
    NoAliasMatches(HighlightAllAliases, message);
    RunPicksFirstBranch(room, sender, message, rows);
  }

  /** `!hla` selects the add branch. */
  lemma AddSelected(room: Room, sender: string, message: string, rows: seq<Row>)
    requires GetCommand(message) == Ok("!hla")
    ensures RunSpec(true, room, sender, message, rows) == AddCommand(room, GroupAndUsers(message), rows)
  {
    assert LowerStr(AddAliases[0]) == LowerStr("!hla");
    assert AliasesMatch(AddAliases, message);
    AddWordNotEarlier(GetCommand(message).value);
    NoAliasMatches(HighlightAllAliases, message);
    NoAliasMatches(HighlightAliases, message);
    RunPicksFirstBranch(room, sender, message, rows);
  }

  /** `!hld` selects the delete branch. */
  lemma DeleteSelected(room: Room, sender: string, message: string, rows: seq<Row>)
    requires GetCommand(message) == Ok("!hld")
    ensures RunSpec(true, room, sender, message, rows) == DeleteCommand(room, GroupAndUsers(message), rows)
  {
    assert LowerStr(DeleteAliases[0]) == LowerStr("!hld");
    assert AliasesMatch(DeleteAliases, message);
    NotEarlierAlias(message);
    RunPicksFirstBranch(room, sender, message, rows);
  }

  /** No alias of the first three branches is `!hld` up to case. */
  lemma NotEarlierAlias(message: string)
    requires GetCommand(message) == Ok("!hld")
    ensures !AliasesMatch(HighlightAllAliases, message)
    ensures !AliasesMatch(HighlightAliases, message)
    ensures !AliasesMatch(AddAliases, message)
  {
    var token := GetCommand(message).value;
    DeleteWordNotEarlier(token);
    NoAliasMatches(HighlightAllAliases, message);
    NoAliasMatches(HighlightAliases, message);
    NoAliasMatches(AddAliases, message);
  }

  /** A message matches no alias of a list when its command word differs from each of
      them up to case. */
  lemma NoAliasMatches(aliases: seq<string>, message: string)
    requires GetCommand(message).Ok?
    requires forall i :: 0 <= i < |aliases| ==> LowerStr(aliases[i]) != LowerStr(GetCommand(message).value)
    ensures !AliasesMatch(aliases, message)
  {
  }

  lemma HighlightWordNotEarlier(token: string)
    requires token == "!hl"
    ensures forall i :: 0 <= i < |HighlightAllAliases| ==> LowerStr(HighlightAllAliases[i]) != LowerStr(token)
  {
    assert |LowerStr(HighlightAllAliases[0])| != |LowerStr(token)| && |LowerStr(HighlightAllAliases[1])| != |LowerStr(token)|;
  }

  lemma AddWordNotEarlier(token: string)
    requires token == "!hla"
    ensures forall i :: 0 <= i < |HighlightAllAliases| ==> LowerStr(HighlightAllAliases[i]) != LowerStr(token)
    ensures forall i :: 0 <= i < |HighlightAliases| ==> LowerStr(HighlightAliases[i]) != LowerStr(token)
  {
    assert |LowerStr(HighlightAllAliases[0])| != |LowerStr(token)| && |LowerStr(HighlightAllAliases[1])| != |LowerStr(token)|;
    assert |LowerStr(HighlightAliases[0])| != |LowerStr(token)| && |LowerStr(HighlightAliases[1])| != |LowerStr(token)|;
  }

  lemma DeleteWordNotEarlier(token: string)
    requires token == "!hld"
    ensures forall i :: 0 <= i < |HighlightAllAliases| ==> LowerStr(HighlightAllAliases[i]) != LowerStr(token)
    ensures forall i :: 0 <= i < |HighlightAliases| ==> LowerStr(HighlightAliases[i]) != LowerStr(token)
    ensures forall i :: 0 <= i < |AddAliases| ==> LowerStr(AddAliases[i]) != LowerStr(token)
  {
    assert |LowerStr(HighlightAllAliases[0])| != |LowerStr(token)| && |LowerStr(HighlightAllAliases[1])| != |LowerStr(token)|;
    assert |LowerStr(HighlightAliases[0])| != |LowerStr(token)| && |LowerStr(HighlightAliases[1])| != |LowerStr(token)|;
    assert LowerStr(AddAliases[0])[3] == 'a' && LowerStr(token)[3] == 'd';
    assert |LowerStr(AddAliases[1])| != |LowerStr(token)| && |LowerStr(AddAliases[2])| != |LowerStr(token)|;
  }

  // ---------------------------------------------------------------------------------------
  // The replies, over an abstract argument

  /** With one other user in the room, `!hlall` names that user, followed by the text
      when there is one. */
  lemma HighlightAllOneUser(room: Room, sender: string, argument: Option<string>, id: string, name: string)
    requires room.members == [User(id, name)] && id != sender
    ensures HighlightAllReply(room, sender, argument) ==
      if argument.Some? then id + ": " + argument.value else id
  {
    assert UserIds(room.members) == [id];
    assert RemoveElement([id], sender) == [id];
  }

  /** An empty room, or one holding only the sender, leaves nobody to highlight. */
  lemma HighlightAllNobody(room: Room, sender: string, argument: Option<string>, name: string)
    requires room.members == [] || room.members == [User(sender, name)]
    ensures HighlightAllReply(room, sender, argument) == "No users to highlight"
  {
    if room.members != [] {
      assert UserIds(room.members) == [sender];
      assert RemoveElement([sender], sender) == [];
    }
  }

  /** A group whose one stored member is an id of another user in the room highlights that
      user, followed by the text when there is one. */
  lemma HighlightGroupOneUser(room: Room, sender: string, argument: Option<string>, rows: seq<Row>,
                              group: string, text: Option<string>, id: string)
    requires room.members == [User(id, id)] && id != sender
    requires rows == [Row(room.roomId, group, id)] && LowerStr(group) == group
    requires argument.Some? && !AllSpace(argument.value)
    requires GetCommandAndArgument(argument.value) == [group] + (if text.Some? then [text.value] else [])
    ensures HighlightReply(room, sender, argument, rows) ==
      if text.Some? then id + ": " + text.value else id
  {
    var arguments := GetCommandAndArgument(argument.value);
    assert arguments[0] == group && (|arguments| > 1 <==> text.Some?);
    GroupOfOneUser(room, sender, rows, group, id);
    assert Join(", ", [id]) == id;
    if text.Some? {
      assert arguments[1] == text.value;
    }
  }

  /** The ids highlighted for a group holding one other room user. */
  lemma GroupOfOneUser(room: Room, sender: string, rows: seq<Row>, group: string, id: string)
    requires room.members == [User(id, id)] && id != sender
    requires rows == [Row(room.roomId, group, id)]
    ensures MemberUserIdsExceptSender(room, MembersOf(rows, room.roomId, group), sender) == [id]
  {
    assert MembersOf(rows, room.roomId, group) == [id];
    assert UserMatches(room.members[0], id);
    assert GetUser(room, id) == Some(User(id, id));
    assert ResolvedIds(room, [id]) == [id];
    assert RemoveElement([id], sender) == [id];
  }

  /** A group with no stored member, or whose only member is the sender, has nobody to
      highlight. */
  lemma HighlightGroupNobody(room: Room, sender: string, argument: Option<string>, rows: seq<Row>, group: string)
    requires rows == [] || (rows == [Row(room.roomId, group, sender)] && room.members == [User(sender, sender)])
    requires LowerStr(group) == group
    requires argument.Some? && !AllSpace(argument.value) && GetCommandAndArgument(argument.value)[0] == group
    ensures HighlightReply(room, sender, argument, rows) ==
      "Group \"" + group + "\" does not have any members to highlight"
  {
    if rows != [] {
      assert MembersOf(rows, room.roomId, group) == [sender];
      assert UserMatches(room.members[0], sender);
      assert GetUser(room, sender) == Some(User(sender, sender));
      assert ResolvedIds(room, [sender]) == [sender];
      assert RemoveElement([sender], sender) == [];
    }
  }

  /** Adding a room user who is not yet in the group stores the row and reports it. */
  lemma AddOneNewUser(room: Room, group: string, u: string, rows: seq<Row>)
    requires group != [] && GetUser(room, u).Some? && Row(room.roomId, group, u) !in rows
    ensures AddCommand(room, Some((group, [u])), rows) ==
      (Replied("Added \"" + u + "\" to group \"" + group + "\""), rows + [Row(room.roomId, group, u)])
  {
    OneUserInRoom(room, u);
    assert [u][..0] == [];
    assert AddAll(rows, room.roomId, group, [u][..0]) == (rows, []);
    assert [] + [u] == [u];
    assert AddAll(rows, room.roomId, group, [u]) == (rows + [Row(room.roomId, group, u)], [u]);
    assert Join(", ", [u]) == u;
  }

  /** Adding a user already in the group changes nothing and says so. */
  lemma AddOneExistingUser(room: Room, group: string, u: string, rows: seq<Row>)
    requires group != [] && GetUser(room, u).Some? && Row(room.roomId, group, u) in rows
    ensures AddCommand(room, Some((group, [u])), rows) ==
      (Replied("Could not add \"" + u + "\" to group \"" + group + "\""), rows)
  {
    OneUserInRoom(room, u);
    assert [u][..0] == [];
    assert AddAll(rows, room.roomId, group, [u]) == (rows, []);
    assert Join(", ", [u]) == u;
  }

  /** Naming a user who is not in the room is refused before the table is read. */
  lemma AddOneUserNotInRoom(room: Room, group: string, u: string, rows: seq<Row>)
    requires group != [] && GetUser(room, u).None?
    ensures AddCommand(room, Some((group, [u])), rows) == (Replied("User: \"" + u + "\" is not in room"), rows)
  {
    assert FirstMissing(room, [u]) == Some(0);
  }

  /** The membership check passes for a single user the room knows. */
  lemma OneUserInRoom(room: Room, u: string)
    requires GetUser(room, u).Some?
    ensures FirstMissing(room, [u]) == None
  {
    assert [u][1..] == [];
  }

  /** Removing a stored member deletes the row and reports it. */
  lemma DeleteOneMember(room: Room, group: string, u: string, rows: seq<Row>)
    requires group != [] && GetUser(room, u).Some? && Row(room.roomId, group, u) in rows
    ensures DeleteCommand(room, Some((group, [u])), rows) ==
      (Replied("Removed \"" + u + "\" from group \"" + group + "\""), Without(rows, Row(room.roomId, group, u)))
  {
    OneUserInRoom(room, u);
    assert [u][..0] == [];
    assert RemoveAll(rows, room.roomId, group, [u][..0]) == (rows, []);
    assert [] + [u] == [u];
    assert RemoveAll(rows, room.roomId, group, [u]) == (Without(rows, Row(room.roomId, group, u)), [u]);
    assert Join(", ", [u]) == u;
  }

  /** Removing a user who is not in the group changes nothing and says so. */
  lemma DeleteOneNonMember(room: Room, group: string, u: string, rows: seq<Row>)
    requires group != [] && GetUser(room, u).Some? && Row(room.roomId, group, u) !in rows
    ensures DeleteCommand(room, Some((group, [u])), rows) ==
      (Replied("Could not remove \"" + u + "\" from group \"" + group + "\""), rows)
  {
    OneUserInRoom(room, u);
    assert [u][..0] == [];
    assert RemoveAll(rows, room.roomId, group, [u]) == (rows, []);
    assert Join(", ", [u]) == u;
  }

  /** The split of an argument made of a group word and one user word. */
  lemma GroupAndOneUser(message: string, group: string, u: string)
    requires group != [] && NoSpace(group) && u != [] && NoSpace(u)
    requires GetArgument(message) == Some(group + " " + u)
    ensures GroupAndUsers(message) == Some((LowerStr(group), [u]))
  {
    SplitWhitespaceCons(group, u);
    SplitWhitespaceWord(u);
  }

  // ---------------------------------------------------------------------------------------
  // The messages of the tests, taken apart

  lemma HighlightAllWord(message: string)
    requires message == "!hlall"
    ensures GetCommand(message) == Ok("!hlall") && GetArgument(message) == None
  {
    assert NoSpace(message);
    SingleWordMessage(message);
  }

  lemma HighlightAllWithHelloes(message: string)
    requires message == "!hlall helloes"
    ensures GetCommand(message) == Ok("!hlall") && GetArgument(message) == Some("helloes")
  {
    assert message == "!hlall" + " " + "helloes";
    assert NoSpace("!hlall");
    CommandLine("!hlall", "helloes");
  }

  lemma HighlightWord(message: string)
    requires message == "!hl"
    ensures GetCommand(message) == Ok("!hl") && GetArgument(message) == None
  {
    assert NoSpace(message);
    SingleWordMessage(message);
  }

  lemma HighlightGroupWord(message: string, group: string)
    requires message == "!hl group" && group == "group"
    ensures GetCommand(message) == Ok("!hl") && GetArgument(message) == Some(group)
    ensures GetCommandAndArgument(group) == [group]
  {
    assert message == "!hl" + " " + group;
    assert NoSpace("!hl") && NoSpace(group);
    CommandLine("!hl", group);
    SplitSingleWord(group);
  }

  lemma HighlightGroupWithHelloes(message: string, group: string, text: string)
    requires message == "!hl group helloes" && group == "group" && text == "helloes"
    ensures GetCommand(message) == Ok("!hl") && GetArgument(message) == Some(group + " " + text)
    ensures GetCommandAndArgument(group + " " + text) == [group, text]
  {
    var argument := group + " " + text;
    assert argument == "group helloes";
    assert message == "!hl" + " " + argument;
    assert NoSpace("!hl") && NoSpace(group) && !IsSpace(argument[0]) && !IsSpace(text[0]);
    CommandLine("!hl", argument);
    SplitWordAndRest(group, text);
  }

  /** The group words of the tests, lower-cased. */
  lemma GroupWordLowered(word: string, group: string)
    requires word == "GRouP" || word == "gROUp" || word == "group"
    requires group == "group"
    ensures LowerStr(word) == group
  {
  }

  /** The messages `!hla <group> user1` and `!hld <group> user1` of the tests: the command
      word, and the lower-cased group with its one member. */
  lemma GroupCommandWords(command: string, message: string, group: string, u: string)
    requires command == "!hla" || command == "!hld"
    requires message == command + " " + group + " user1" && u == "user1"
    requires group == "GRouP" || group == "gROUp" || group == "group"
    ensures GetCommand(message) == Ok(command) && GroupAndUsers(message) == Some((LowerStr(group), [u]))
  {
    assert message == command + " " + (group + " " + u);
    assert NoSpace(command) && NoSpace(group) && NoSpace(u);
    CommandLine(command, group + " " + u);
    GroupAndOneUser(message, group, u);
  }

  /** `highlight` is a single word. */
  lemma PlainWord(message: string)
    requires message == "highlight"
    ensures WellFormedMessage(message) && GetCommand(message) == Ok("highlight")
  {
    assert NoSpace(message) && !IsSpace(message[0]);
    SingleWordMessage(message);
  }

  /** A message whose command word is `highlight` matches no operation. */
  lemma PlainWordIsNoCommand(message: string)
    requires GetCommand(message) == Ok("highlight")
    ensures !OperationsMatch(Operations, message)
  {
    PlainWordIsNoAlias(GetCommand(message).value);
    NoAliasMatches(HighlightAllAliases, message);
    NoAliasMatches(AddAliases, message);
    NoAliasMatches(DeleteAliases, message);
    NoAliasMatches(HighlightAliases, message);
    OperationsCoverBranches(message);
  }

  lemma PlainWordIsNoAlias(token: string)
    requires token == "highlight"
    ensures forall i :: 0 <= i < |HighlightAllAliases| ==> LowerStr(HighlightAllAliases[i]) != LowerStr(token)
    ensures forall i :: 0 <= i < |AddAliases| ==> LowerStr(AddAliases[i]) != LowerStr(token)
    ensures forall i :: 0 <= i < |DeleteAliases| ==> LowerStr(DeleteAliases[i]) != LowerStr(token)
    ensures forall i :: 0 <= i < |HighlightAliases| ==> LowerStr(HighlightAliases[i]) != LowerStr(token)
  {
    assert |LowerStr(HighlightAllAliases[0])| != |LowerStr(token)| && |LowerStr(HighlightAllAliases[1])| != |LowerStr(token)|;
    assert |LowerStr(AddAliases[0])| != |LowerStr(token)| && |LowerStr(AddAliases[1])| != |LowerStr(token)|;
    assert |LowerStr(AddAliases[2])| != |LowerStr(token)|;
    assert |LowerStr(DeleteAliases[0])| != |LowerStr(token)| && |LowerStr(DeleteAliases[2])| != |LowerStr(token)|;
    assert LowerStr(DeleteAliases[1])[0] == '!' && LowerStr(token)[0] == 'h';
    assert |LowerStr(HighlightAliases[0])| != |LowerStr(token)| && |LowerStr(HighlightAliases[1])| != |LowerStr(token)|;
  }

  // ---------------------------------------------------------------------------------------
  // The scenarios: a room with one user `id` other than the sender, or with nobody to
  // highlight, and the table's rows before and after.

  /** `highlight` is not answered. */
  lemma NotRanIfWrongCommand(room: Room, sender: string, message: string, rows: seq<Row>)
    requires message == "highlight"
    ensures RunSpec(true, room, sender, message, rows) == (Declined, rows)
  {
    PlainWord(message);
    PlainWordIsNoCommand(message);
    RunDeclines(true, room, sender, message, rows);
  }

  /** `!hlall` with one other user in the room names that user, followed by the text when
      there is one. */
  lemma HighlightAllOneOther(room: Room, sender: string, message: string, rows: seq<Row>, id: string)
    requires room.members == [User(id, id)] && id != sender && GetCommand(message) == Ok("!hlall")
    ensures RunSpec(true, room, sender, message, rows) ==
      (Replied(if GetArgument(message).Some? then id + ": " + GetArgument(message).value else id), rows)
  {
    HighlightAllSelected(room, sender, message, rows);
    HighlightAllOneUser(room, sender, GetArgument(message), id, id);
  }

  /** `!hlall` names every other user. */
  lemma HighlightAllWithoutText(room: Room, sender: string, message: string, rows: seq<Row>, id: string)
    requires room.members == [User(id, id)] && id != sender && message == "!hlall"
    ensures RunSpec(true, room, sender, message, rows) == (Replied(id), rows)
  {
    HighlightAllWord(message);
    HighlightAllOneOther(room, sender, message, rows, id);
  }

  /** `!hlall helloes` names every other user and repeats the text. */
  lemma HighlightAllWithText(room: Room, sender: string, message: string, rows: seq<Row>, id: string, text: string)
    requires room.members == [User(id, id)] && id != sender && message == "!hlall helloes" && text == "helloes"
    ensures RunSpec(true, room, sender, message, rows) == (Replied(id + ": " + text), rows)
  {
    HighlightAllWithHelloes(message);
    HighlightAllOneOther(room, sender, message, rows, id);
  }

  /** With nobody but the sender in the room, `!hlall` says there is nobody to highlight. */
  lemma NoneToHighlightAll(room: Room, sender: string, message: string, rows: seq<Row>)
    requires room.members == [] || room.members == [User(sender, sender)]
    requires GetCommand(message) == Ok("!hlall")
    ensures RunSpec(true, room, sender, message, rows) == (Replied("No users to highlight"), rows)
  {
    HighlightAllSelected(room, sender, message, rows);
    HighlightAllNobody(room, sender, GetArgument(message), sender);
  }

  /** `!hlall helloes` in a room holding nobody but the sender. */
  lemma NoneToHighlightAllWithText(room: Room, sender: string, message: string, rows: seq<Row>)
    requires room.members == [] || room.members == [User(sender, sender)]
    requires message == "!hlall helloes"
    ensures RunSpec(true, room, sender, message, rows) == (Replied("No users to highlight"), rows)
  {
    HighlightAllWithHelloes(message);
    NoneToHighlightAll(room, sender, message, rows);
  }

  /** `!hl` naming a group whose one stored member is another room user names that user,
      followed by the text when there is one. */
  lemma HighlightOneMember(room: Room, sender: string, message: string, rows: seq<Row>,
                           group: string, text: Option<string>, id: string)
    requires room.members == [User(id, id)] && id != sender
    requires rows == [Row(room.roomId, group, id)] && LowerStr(group) == group
    requires GetCommand(message) == Ok("!hl") && GetArgument(message).Some?
    requires GetCommandAndArgument(GetArgument(message).value) == [group] + (if text.Some? then [text.value] else [])
    ensures RunSpec(true, room, sender, message, rows) ==
      (Replied(if text.Some? then id + ": " + text.value else id), rows)
  {
    HighlightSelected(room, sender, message, rows);
    HighlightGroupOneUser(room, sender, GetArgument(message), rows, group, text, id);
  }

  /** The reply to a bare group word, for a group of one other room user. */
  lemma HighlightOneMemberWithoutText(room: Room, sender: string, rows: seq<Row>, group: string, id: string)
    requires room.members == [User(id, id)] && id != sender
    requires rows == [Row(room.roomId, group, id)] && LowerStr(group) == group
    requires group != [] && !IsSpace(group[0])
    requires GetCommandAndArgument(group) == [group]
    ensures HighlightReply(room, sender, Some(group), rows) == id
  {
    HighlightGroupOneUser(room, sender, Some(group), rows, group, None, id);
  }

  /** The reply to an argument made of a group word and a text, for a group of one other
      room user. */
  lemma HighlightOneMemberWithText(room: Room, sender: string, rows: seq<Row>, argument: string,
                                   group: string, text: string, id: string)
    requires room.members == [User(id, id)] && id != sender
    requires rows == [Row(room.roomId, group, id)] && LowerStr(group) == group
    requires GetCommandAndArgument(argument) == [group, text]
    ensures HighlightReply(room, sender, Some(argument), rows) == id + ": " + text
  {
    assert [group, text] == [group] + [text];
    HighlightGroupOneUser(room, sender, Some(argument), rows, group, Some(text), id);
  }

  /** `!hl group` names the group's stored member. */
  lemma HighlightWithoutText(room: Room, sender: string, message: string, rows: seq<Row>, group: string, id: string)
    requires room.members == [User(id, id)] && id != sender
    requires message == "!hl group" && group == "group" && rows == [Row(room.roomId, group, id)]
    ensures RunSpec(true, room, sender, message, rows) == (Replied(id), rows)
  {
    HighlightGroupWord(message, group);
    GroupWordLowered(group, group);
    HighlightSelected(room, sender, message, rows);
    HighlightOneMemberWithoutText(room, sender, rows, group, id);
  }

  /** `!hl group helloes` names the group's stored member and repeats the text. */
  lemma HighlightWithText(room: Room, sender: string, message: string, rows: seq<Row>, group: string, text: string, id: string)
    requires room.members == [User(id, id)] && id != sender
    requires message == "!hl group helloes" && group == "group" && text == "helloes"
    requires rows == [Row(room.roomId, group, id)]
    ensures RunSpec(true, room, sender, message, rows) == (Replied(id + ": " + text), rows)
  {
    HighlightGroupWithHelloes(message, group, text);
    GroupWordLowered(group, group);
    HighlightSelected(room, sender, message, rows);
    HighlightOneMemberWithText(room, sender, rows, group + " " + text, group, text, id);
  }

  /** `!hl` naming a group with no stored member, or only the sender, says so. */
  lemma HighlightNobody(room: Room, sender: string, message: string, rows: seq<Row>, group: string)
    requires rows == [] || (rows == [Row(room.roomId, group, sender)] && room.members == [User(sender, sender)])
    requires LowerStr(group) == group
    requires GetCommand(message) == Ok("!hl") && GetArgument(message).Some?
    requires GetCommandAndArgument(GetArgument(message).value)[0] == group
    ensures RunSpec(true, room, sender, message, rows) ==
      (Replied("Group \"" + group + "\" does not have any members to highlight"), rows)
  {
    HighlightSelected(room, sender, message, rows);
    HighlightGroupNobody(room, sender, GetArgument(message), rows, group);
  }

  /** `!hl group` for a group with no stored member, or only the sender. */
  lemma NoMembersForHighlight(room: Room, sender: string, message: string, rows: seq<Row>, group: string)
    requires rows == [] || (rows == [Row(room.roomId, group, sender)] && room.members == [User(sender, sender)])
    requires message == "!hl group" && group == "group"
    ensures RunSpec(true, room, sender, message, rows) ==
      (Replied("Group \"" + group + "\" does not have any members to highlight"), rows)
  {
    HighlightGroupWord(message, group);
    GroupWordLowered(group, group);
    HighlightNobody(room, sender, message, rows, group);
  }

  /** A bare `!hl` is answered with the command's syntax. */
  lemma HighlightWithoutGroup(room: Room, sender: string, message: string, rows: seq<Row>)
    requires message == "!hl"
    ensures RunSpec(true, room, sender, message, rows) ==
      (Replied("Correct syntax is !hl [group] [optional text]."), rows)
  {
    HighlightWord(message);
    HighlightSelected(room, sender, message, rows);
  }

  /** `!hla` naming one user of the room. */
  lemma AddOne(room: Room, sender: string, message: string, rows: seq<Row>, group: string, u: string)
    requires room.members == [User(u, u)] && group != []
    requires GetCommand(message) == Ok("!hla") && GroupAndUsers(message) == Some((group, [u]))
    ensures Row(room.roomId, group, u) !in rows ==>
      RunSpec(true, room, sender, message, rows) ==
        (Replied("Added \"" + u + "\" to group \"" + group + "\""), rows + [Row(room.roomId, group, u)])
    ensures Row(room.roomId, group, u) in rows ==>
      RunSpec(true, room, sender, message, rows) ==
        (Replied("Could not add \"" + u + "\" to group \"" + group + "\""), rows)
  {
    AddSelected(room, sender, message, rows);
    assert UserMatches(room.members[0], u);
    if Row(room.roomId, group, u) in rows {
      AddOneExistingUser(room, group, u, rows);
    } else {
      AddOneNewUser(room, group, u, rows);
    }
  }

  /** `!hla GRouP user1` stores the user under the lower-cased group. */
  lemma AddToCaseInsensitiveGroup(room: Room, sender: string, message: string, rows: seq<Row>, word: string, group: string, u: string)
    requires room.members == [User(u, u)] && message == "!hla GRouP user1" && u == "user1"
    requires word == "GRouP" && group == "group" && Row(room.roomId, group, u) !in rows
    ensures RunSpec(true, room, sender, message, rows) ==
      (Replied("Added \"" + u + "\" to group \"" + group + "\""), rows + [Row(room.roomId, group, u)])
  {
    GroupCommandWords("!hla", message, word, u);
    GroupWordLowered(word, group);
    AddOne(room, sender, message, rows, group, u);
  }

  /** Adding a user already in the group is refused. */
  lemma AddExistingMember(room: Room, sender: string, message: string, rows: seq<Row>, group: string, u: string)
    requires room.members == [User(u, u)] && message == "!hla group user1" && u == "user1"
    requires group == "group" && Row(room.roomId, group, u) in rows
    ensures RunSpec(true, room, sender, message, rows) ==
      (Replied("Could not add \"" + u + "\" to group \"" + group + "\""), rows)
  {
    GroupCommandWords("!hla", message, group, u);
    GroupWordLowered(group, group);
    AddOne(room, sender, message, rows, group, u);
  }

  /** `!hla` naming a user the room does not hold. */
  lemma AddAbsent(room: Room, sender: string, message: string, rows: seq<Row>, group: string, u: string)
    requires room.members == [] && group != []
    requires GetCommand(message) == Ok("!hla") && GroupAndUsers(message) == Some((group, [u]))
    ensures RunSpec(true, room, sender, message, rows) == (Replied("User: \"" + u + "\" is not in room"), rows)
  {
    AddSelected(room, sender, message, rows);
    AddOneUserNotInRoom(room, group, u, rows);
  }

  /** Adding a user who is not in the room is refused. */
  lemma AddUserNotInRoom(room: Room, sender: string, message: string, rows: seq<Row>, group: string, u: string)
    requires room.members == [] && message == "!hla group user1" && u == "user1" && group == "group"
    ensures RunSpec(true, room, sender, message, rows) == (Replied("User: \"" + u + "\" is not in room"), rows)
  {
    GroupCommandWords("!hla", message, group, u);
    GroupWordLowered(group, group);
    AddAbsent(room, sender, message, rows, group, u);
  }

  /** `!hld` naming one user of the room. */
  lemma DeleteOne(room: Room, sender: string, message: string, rows: seq<Row>, group: string, u: string)
    requires room.members == [User(u, u)] && group != []
    requires GetCommand(message) == Ok("!hld") && GroupAndUsers(message) == Some((group, [u]))
    ensures Row(room.roomId, group, u) in rows ==>
      RunSpec(true, room, sender, message, rows) ==
        (Replied("Removed \"" + u + "\" from group \"" + group + "\""), Without(rows, Row(room.roomId, group, u)))
    ensures Row(room.roomId, group, u) !in rows ==>
      RunSpec(true, room, sender, message, rows) ==
        (Replied("Could not remove \"" + u + "\" from group \"" + group + "\""), rows)
  {
    DeleteSelected(room, sender, message, rows);
    assert UserMatches(room.members[0], u);
    if Row(room.roomId, group, u) in rows {
      DeleteOneMember(room, group, u, rows);
    } else {
      DeleteOneNonMember(room, group, u, rows);
    }
  }

  /** `!hld gROUp user1` removes the user's row from the lower-cased group. */
  lemma DeleteFromCaseInsensitiveGroup(room: Room, sender: string, message: string, rows: seq<Row>, word: string, group: string, u: string)
    requires room.members == [User(u, u)] && message == "!hld gROUp user1" && u == "user1"
    requires word == "gROUp" && group == "group" && rows == [Row(room.roomId, group, u)]
    ensures RunSpec(true, room, sender, message, rows) == (Replied("Removed \"" + u + "\" from group \"" + group + "\""), [])
  {
    GroupCommandWords("!hld", message, word, u);
    GroupWordLowered(word, group);
    DeleteOne(room, sender, message, rows, group, u);
    WithoutOnlyRow(rows, Row(room.roomId, group, u));
  }

  lemma WithoutOnlyRow(rows: seq<Row>, row: Row)
    requires rows == [row]
    ensures Without(rows, row) == []
  {
    assert rows[1..] == [];
  }

  /** Removing a user who is not in the group is refused. */
  lemma DeleteNonMember(room: Room, sender: string, message: string, rows: seq<Row>, group: string, u: string)
    requires room.members == [User(u, u)] && message == "!hld group user1" && u == "user1"
    requires group == "group" && Row(room.roomId, group, u) !in rows
    ensures RunSpec(true, room, sender, message, rows) ==
      (Replied("Could not remove \"" + u + "\" from group \"" + group + "\""), rows)
  {
    GroupCommandWords("!hld", message, group, u);
    GroupWordLowered(group, group);
    DeleteOne(room, sender, message, rows, group, u);
  }
}
