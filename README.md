# chaanbot core in Dafny

A model of the core of chaanbot, a Matrix chat bot written in Python, with proofs about it.
The model covers:

- **Command matching** (`chaanbot/command_utility.py`). A message splits into a command token and an optional argument (`split(None, 1)`). `matches` compares the token, ignoring case, with an alias list or a dictionary of alias lists. It is modelled over a small datatype of Python values, so that iterating a dictionary yields its keys, iterating a compiled pattern raises `TypeError`, and indexing an empty split raises `IndexError` exactly as in Python.
- **Room and user resolution** (`matrix_utility.py`). `get_room_id` makes four passes over the rooms, by id, canonical alias, name and alias list. `get_user` finds a joined member by user id or display name, ignoring case.
- **The highlight module** (`chaanbot/modules/highlight.py`). There are four commands: `!hlall` (everyone but the sender), `!hl GROUP` (a group's members but the sender), `!hla` (add users to a group) and `!hld` (remove them). They work over a table of (room, group, member) rows. The table is a class whose methods are the SELECT, INSERT OR IGNORE and DELETE statements. The add and delete loops are methods proved against functions of the old table.
- **The older highlight module** (`modules/highlight.py`). It has five commands, keeps group names as typed and mentions only online users. Presence is an uninterpreted predicate.
- **The client** (`chaanbot/client.py`):
  - loading the module list;
  - reading the comma-separated settings;
  - admission of rooms through a whitelist, then a blacklist, then open joining;
  - following an invite, reporting who caused a leave, filtering room events;
  - dispatching a message to the modules, where a flag set by the first module that claims the message skips the later modules that are not `always_run`.
- **The chan save module** (`chaanbot/modules/chan_save.py`):
  - normalising its directory and URL settings;
  - the disabled flag;
  - choosing the file extension, naming the file, skipping files that exist;
  - never claiming a message.

Python strings are `seq<char>`. Python's `lower()` and `title()` are modelled for ASCII letters; `strip()` and `split()` remove the whitespace characters that `str.isspace` accepts (module `Text`). A message's outcome is an `Outcome.RunOutcome`: declined (`run` returned `False`), one reply sent, or an exception raised.

## Model

| member | source | states |
|---|---|---|
| CommandUtility.GetCommandAndArgument | chaanbot/command_utility.py:36-37 | at most two parts; none exactly when the message is all whitespace; the first part is a non-empty word without whitespace; a second part is non-empty and starts with a non-space |
| CommandUtility.GetCommandAndArgumentMeaning | chaanbot/command_utility.py:36-37 | the parts come from the message: the first is a prefix of the message without its leading whitespace; only whitespace follows a lone first part; a second part ends the message and has whitespace right before it |
| CommandUtility.GetCommand | chaanbot/command_utility.py:25-26 | raises `IndexError` exactly when the message is all whitespace; otherwise it is the first word of `split()` |
| CommandUtility.GetArgument | chaanbot/command_utility.py:29-33 | `None` exactly when the message has at most one word; otherwise a suffix of the message right after a whitespace character, whose words are the message's words after the command |
| CommandUtility.SplitSingleWord | chaanbot/command_utility.py:36-37 | a one-word message splits into that word alone |
| CommandUtility.SplitWordAndRest | chaanbot/command_utility.py:36-37 | a word, a space and a text starting with a non-space split back into the word and the text |
| CommandUtility.SingleWordMessage | chaanbot/command_utility.py:25-33 | a one-word message is its own command and has no argument |
| CommandUtility.CommandLine | chaanbot/command_utility.py:25-33 | `get_command` and `get_argument` take apart `word + " " + text` into the word and the text |
| CommandUtility.LStripKeepsWords | chaanbot/command_utility.py:36-37 | leading whitespace does not change the words of a string |
| CommandUtility.SplitWhitespaceAgrees | chaanbot/command_utility.py:36-37 | `split(None, 1)` is the first word of `split()` followed by the rest of the message, whose words are the remaining words |
| CommandUtility.Matches | chaanbot/command_utility.py:7-22 | the empty message never matches; a command set that is neither a dictionary nor a list never matches |
| CommandUtility.OperationsValue | chaanbot/command_utility.py:11-16 | a dictionary of operation names to alias lists, entry by entry |
| CommandUtility.AliasLoopOverStrings | chaanbot/command_utility.py:17-21 | once the token is fetched, the loop over a list of strings holds exactly when some non-empty alias equals the token up to case |
| CommandUtility.AnyCommandOverStrings | chaanbot/command_utility.py:17-21 | on a message with a command token, the loop over a list of strings holds exactly when some non-empty alias equals the token up to case |
| CommandUtility.MatchesAliasList | chaanbot/command_utility.py:17-21 | with an alias list, `matches` holds exactly when some non-empty alias equals the command token, ignoring case |
| CommandUtility.OperationLoopOverLists | chaanbot/command_utility.py:11-16 | once the token is fetched, the loop over a dictionary of alias lists holds exactly when some operation's list holds the token |
| CommandUtility.OperationsMatchToken | chaanbot/command_utility.py:11-16 | on a message with a command token, some operation's list matches the message exactly when some list holds the token |
| CommandUtility.AnyOperationOverLists | chaanbot/command_utility.py:11-16 | on a message with a command token, the loop over a dictionary of alias lists holds exactly when some operation's list matches |
| CommandUtility.MatchesOperationDict | chaanbot/command_utility.py:11-16 | with a dictionary of alias lists, `matches` is the disjunction of matching each operation's list |
| CommandUtility.AliasLoopOnError | chaanbot/command_utility.py:17-21 | when fetching the token fails, the loop raises that error if some alias is non-empty and is false otherwise |
| CommandUtility.AnyCommandOnBlank | chaanbot/command_utility.py:17-21 | on a whitespace-only message the loop raises `IndexError` at the first non-empty alias and is false without one |
| CommandUtility.BlankMessageRaises | chaanbot/command_utility.py:7-21 | a non-empty whitespace-only message passes the emptiness test and raises `IndexError` when some alias is non-empty |
| CommandUtility.AliasLoopCaseInsensitive | chaanbot/command_utility.py:17-21 | the list loop gives the same answer, raised errors included, for two tokens equal up to case |
| CommandUtility.AnyCommandCaseInsensitive | chaanbot/command_utility.py:17-21 | the list loop gives the same answer on two messages whose tokens agree up to case |
| CommandUtility.ValueTestCaseInsensitive | chaanbot/command_utility.py:14-15 | the inner loop over one dictionary value gives the same answer for two tokens equal up to case |
| CommandUtility.ValueCaseInsensitive | chaanbot/command_utility.py:14-15 | the inner loop over one dictionary value gives the same answer on such messages |
| CommandUtility.OperationLoopCaseInsensitive | chaanbot/command_utility.py:11-16 | the dictionary loop gives the same answer for two tokens equal up to case |
| CommandUtility.AnyOperationCaseInsensitive | chaanbot/command_utility.py:11-16 | the dictionary loop gives the same answer on such messages |
| CommandUtility.TokenCaseIrrelevant | chaanbot/command_utility.py:7-22 | for every command set, changing the letter case of the command token does not change `matches` |
| MatrixUtility.FirstOn | matrix_utility.py:9-27 | one pass finds the first room matching on its key, and none exactly when no room does |
| MatrixUtility.GetRoomId | matrix_utility.py:4-27 | a result is a room of the mapping that matches the reference on some key; `None` exactly when no room matches on any key |
| MatrixUtility.GetRoomIdPriority | matrix_utility.py:4-27 | when some room matches, the result is the first room matching on the highest-priority key that any room matches |
| MatrixUtility.RoomIdWins | matrix_utility.py:9-12 | a room whose id is the reference is found even when other rooms match by alias or name |
| MatrixUtility.PriorityBelowId | matrix_utility.py:14-27 | without an id match, a canonical-alias match beats a name match, which beats an alias-list match |
| MatrixUtility.FirstUser | matrix_utility.py:32-36 | the position of the first member answering to the query, and none exactly when no member does |
| MatrixUtility.GetUserMeaning | matrix_utility.py:30-36 | `get_user` returns the first joined member whose user id or display name equals the query up to case, and `None` exactly when no member does |
| MatrixUtility.GetUserCaseInsensitive | matrix_utility.py:33-34 | queries that agree up to case find the same member |
| MatrixUtility.FirstUserCaseInsensitive | matrix_utility.py:32-35 | the search loop gives the same position for such queries |
| MatrixUtility.MemberFoundById | matrix_utility.py:33 | every joined member is found by its own user id |
| Outcome.FirstTrue | chaanbot/modules/highlight.py:70-84 | an `if ... elif` chain picks the first test that holds, after tests that are all false; none exactly when all are false; the first raising test's error otherwise |
| GroupStore.DistinctTail | chaanbot/modules/highlight.py:63 | the tail of a table without duplicates has none, and lacks the head |
| GroupStore.WithoutMeaning | chaanbot/modules/highlight.py:184-185 | a DELETE keeps exactly the rows other than the one named |
| GroupStore.WithoutAbsent | chaanbot/modules/highlight.py:184-185 | deleting a row that is not there changes nothing |
| GroupStore.WithoutDistinct | chaanbot/modules/highlight.py:63 | deleting keeps the uniqueness constraint |
| GroupStore.WithoutConcat | chaanbot/modules/highlight.py:184-185 | deleting works piecewise, so the other rows keep their order |
| GroupStore.MembersOfMeaning | chaanbot/modules/highlight.py:214-218 | `_get_members` lists exactly the members stored for the group, each once |
| GroupStore.HighlightTable.constructor | chaanbot/modules/highlight.py:58-64 | a fresh table is empty and meets the uniqueness constraint |
| GroupStore.HighlightTable.IsInGroup | chaanbot/modules/highlight.py:206-212 | `_is_in_group` holds exactly when the row is stored |
| GroupStore.HighlightTable.Insert | chaanbot/modules/highlight.py:147-151 | INSERT OR IGNORE appends a new row and ignores a stored one, keeping the constraint |
| GroupStore.HighlightTable.Delete | chaanbot/modules/highlight.py:182-186 | DELETE removes the row and keeps the others in order |
| GroupStore.IndexOfRow | chaanbot/modules/highlight.py:206-212 | a stored row is found at some position |
| GroupStore.FirstMissing | chaanbot/modules/highlight.py:133-137 | a position found names a user `get_user` does not find |
| GroupStore.FirstMissingMeaning | chaanbot/modules/highlight.py:133-137 | the check finds the first named user not in the room, and none exactly when all are in it |
| GroupStore.FirstMissingAt | chaanbot/modules/highlight.py:133-137 | a user not in the room, with every earlier user in it, is the position the check reports |
| GroupStore.FirstMissingAppend | chaanbot/modules/highlight.py:133-137 | the check passes one user further exactly when it passed before and that user is in the room |
| GroupStore.FirstMissingStops | chaanbot/modules/highlight.py:133-137 | the check stops at the first missing user whatever follows |
| GroupStore.AbsentMeaning | chaanbot/modules/highlight.py:142-153 | the users without a row are exactly the named users whose row is not stored |
| GroupStore.PresentMeaning | chaanbot/modules/highlight.py:180-187 | the users with a row are exactly the named users whose row is stored |
| GroupStore.DedupMeaning | chaanbot/modules/highlight.py:142-153 | keeping first occurrences keeps every element and leaves no repeat |
| GroupStore.KeptMeaning | chaanbot/modules/highlight.py:180-187 | the rows kept by a delete loop are exactly those not named |
| GroupStore.RowsFor | chaanbot/modules/highlight.py:148-150 | the rows inserted for a list of users, one per user, in order |
| GroupStore.AddedRowPresent | chaanbot/modules/highlight.py:142-153 | while the insert loop runs, a user's row is stored exactly when it was stored before or the user was added |
| GroupStore.AddAllRows | chaanbot/modules/highlight.py:142-153 | the insert loop appends exactly the rows of the users it reports |
| GroupStore.AddAllReport | chaanbot/modules/highlight.py:142-153 | the users reported are the named users without a row before, first occurrences only, in order |
| GroupStore.AddAllEffect | chaanbot/modules/highlight.py:142-153 | both of the above together |
| GroupStore.AddAllProperties | chaanbot/modules/highlight.py:139-153 | afterwards every named row is stored, the old rows stay in order, every new row is a named row absent before, and the constraint holds |
| GroupStore.KeptAddOne | chaanbot/modules/highlight.py:180-187 | the delete loop one member further is one more DELETE |
| GroupStore.RemovePrefixKept | chaanbot/modules/highlight.py:180-187 | a member's row survives the deletes of a list exactly when it was stored and the member is not in the list |
| GroupStore.RemoveAllEffect | chaanbot/modules/highlight.py:178-187 | the delete loop keeps, in order, exactly the rows not named, and reports the named members that were stored, first occurrences only |
| GroupStore.KeptNone | chaanbot/modules/highlight.py:180-187 | deleting nobody keeps every row |
| GroupStore.KeptDistinct | chaanbot/modules/highlight.py:180-187 | deleting keeps the uniqueness constraint |
| GroupStore.RemoveAllProperties | chaanbot/modules/highlight.py:178-187 | afterwards no named row is stored, every other row is kept, and the constraint holds |
| GroupStore.AbsentNone | chaanbot/modules/highlight.py:142-153 | when every named row is stored, no user lacks one |
| GroupStore.PresentNone | chaanbot/modules/highlight.py:180-187 | when no named row is stored, no member has one |
| GroupStore.AddAllIdempotent | chaanbot/modules/highlight.py:139-153 | inserting the same users again changes nothing and reports nobody |
| GroupStore.KeptUnnamed | chaanbot/modules/highlight.py:180-187 | a table holding no named row is kept whole |
| GroupStore.RemoveAllIdempotent | chaanbot/modules/highlight.py:178-187 | deleting the same members again changes nothing and reports nobody |
| HighlightModule.ShouldRun | chaanbot/modules/highlight.py:88-89 | without a database every message is declined |
| HighlightModule.ShouldRunMeaning | chaanbot/modules/highlight.py:88-89 | on a well-formed message the gate holds exactly when there is a database and some operation's alias matches the token |
| HighlightModule.BranchTests | chaanbot/modules/highlight.py:70-84 | there are four command tests |
| HighlightModule.BranchTestsMeaning | chaanbot/modules/highlight.py:70-82 | test k holds exactly when one of the k-th alias list (highlight all, highlight, add, delete) matches |
| HighlightModule.RemoveElement | chaanbot/modules/highlight.py:225-226 | never longer than the list |
| HighlightModule.RemoveElementMeaning | chaanbot/modules/highlight.py:225-226 | keeps exactly the elements other than the one removed |
| HighlightModule.RemoveElementConcat | chaanbot/modules/highlight.py:225-226 | works piecewise, so the order of the kept elements is kept |
| HighlightModule.RemoveElementAbsent | chaanbot/modules/highlight.py:225-226 | a list without the element is left as it is |
| HighlightModule.UserIds | chaanbot/modules/highlight.py:92 | the user ids of the room's users, position by position |
| HighlightModule.ResolvedIdsMeaning | chaanbot/modules/highlight.py:221-222 | the resolved ids are exactly the ids of the room users the stored members name |
| HighlightModule.MemberUserIdsMeaning | chaanbot/modules/highlight.py:220-223 | the ids `!hl` mentions are exactly those, the sender's left out |
| HighlightModule.GroupAndUsers | chaanbot/modules/highlight.py:128-130 | a group word is non-empty; there is none exactly when the message has no argument |
| HighlightModule.FindMissing | chaanbot/modules/highlight.py:133-137 | the membership loop returns the first named user not in the room |
| HighlightModule.InsertAll | chaanbot/modules/highlight.py:139-153 | the insert loop leaves the table and reports the users as the insert-loop function of the old table says |
| HighlightModule.DeleteAll | chaanbot/modules/highlight.py:178-187 | the delete loop leaves the table and reports the members as the delete-loop function of the old table says |
| HighlightModule.AddToGroup | chaanbot/modules/highlight.py:127-165 | `_add_or_create_group`: outcome and new table as its specification function of the old table |
| HighlightModule.DeleteFromGroup | chaanbot/modules/highlight.py:167-204 | `_delete_from_group`: outcome and new table as its specification function of the old table |
| HighlightModule.Highlight.constructor | chaanbot/modules/highlight.py:52-67 | the module holds the table it was built with, or none |
| HighlightModule.RunWithOpen | chaanbot/modules/highlight.py:70-86 | past an open gate, `run` is the `if ... elif` chain of the four command tests, ending in the `RuntimeError` of the `else` |
| HighlightModule.Highlight.Run | chaanbot/modules/highlight.py:69-86 | `run`: outcome and new table as the corrected `run` specification; without a table it declines |
| HighlightProperties.OperationsCoverBranches | chaanbot/modules/highlight.py:70-84 | some operation matches exactly when one of the four branch tests does, so the `RuntimeError` branch is unreachable |
| HighlightProperties.CommandsAnswer | chaanbot/modules/highlight.py:127-204 | add and delete always reply or raise, and never decline |
| HighlightProperties.RunWithDeclines | chaanbot/modules/highlight.py:69-86 | `run` declines exactly when the gate is false, leaving the table |
| HighlightProperties.RunDeclines | chaanbot/modules/highlight.py:69-89 | `run` declines, leaving the table, exactly when there is no database or no alias matches |
| HighlightProperties.RunWithPicks | chaanbot/modules/highlight.py:70-85 | with the gate open and tests that do not raise, the first test that holds picks the command |
| HighlightProperties.RunPicksFirstBranch | chaanbot/modules/highlight.py:70-85 | with the gate open, the commands are tried in the order highlight all, highlight, add, delete |
| HighlightProperties.RunRaisesOnlyOnBareAddOrDelete | chaanbot/modules/highlight.py:69-86 | `run` never raises `RuntimeError`; the only error is `AttributeError` from `!hla`/`!hld` without an argument |
| HighlightProperties.UsersAfterGroupWord | chaanbot/modules/highlight.py:128-130 | `arguments[1:]` of `!hla`/`!hld` are the words of the message after the command and the group word |
| HighlightProperties.GroupWordShared | chaanbot/modules/highlight.py:128-130 | the group of `!hla`/`!hld` is the lower-cased first word of the argument, already in lower case, and the users are the message's words after the command and the group word |
| HighlightProperties.SyntaxReplyWithoutUsers | chaanbot/modules/highlight.py:162-164 | a group without users gets the syntax reply and the table is not touched |
| HighlightProperties.MembershipCheckedFirst | chaanbot/modules/highlight.py:133-137 | when a named user is the first not in the room, the reply names that user and the table is unchanged |
| HighlightProperties.AddEffect | chaanbot/modules/highlight.py:139-161 | with every named user in the room, `!hla` appends, in order, the rows of exactly the users without one, and replies with them or "Could not add" |
| HighlightProperties.DeleteEffect | chaanbot/modules/highlight.py:178-199 | with every named member in the room, `!hld` keeps, in order, exactly the rows not named, and replies with the members that were stored or "Could not remove" |
| HighlightProperties.AddIdempotent | chaanbot/modules/highlight.py:139-161 | repeating an add leaves the table as the first add left it; when every named user is in the room, the repeat replies "Could not add" |
| HighlightProperties.DeleteIdempotent | chaanbot/modules/highlight.py:178-199 | repeating a delete leaves the table as the first delete left it; when every named member is in the room, the repeat replies "Could not remove" |
| HighlightProperties.HighlightAllMeaning | chaanbot/modules/highlight.py:91-104 | `!hlall` mentions exactly the room's user ids other than the sender's, and with none says "No users to highlight" |
| HighlightProperties.AddedUserIsHighlighted | chaanbot/modules/highlight.py:214-223 | a room user added to a group is mentioned by `!hl` for it, unless they are the sender |
| HighlightProperties.DeletedUserIsNotStored | chaanbot/modules/highlight.py:178-187 | a member deleted from a group is no longer stored for it |
| HighlightScenarios.HighlightAllSelected | chaanbot/modules/highlight.py:71-73 | `!hlall` selects the highlight-all branch |
| HighlightScenarios.HighlightSelected | chaanbot/modules/highlight.py:74-76 | `!hl` selects the highlight branch |
| HighlightScenarios.AddSelected | chaanbot/modules/highlight.py:77-79 | `!hla` selects the add branch |
| HighlightScenarios.DeleteSelected | chaanbot/modules/highlight.py:80-82 | `!hld` selects the delete branch |
| HighlightScenarios.NotRanIfWrongCommand | tests/test_highlight.py:18-20 | the message `highlight` is declined |
| HighlightScenarios.HighlightAllWithoutText | tests/test_highlight.py:26-35 | `!hlall` names the one other user |
| HighlightScenarios.HighlightAllWithText | tests/test_highlight.py:37-47 | `!hlall helloes` names the other user and repeats the text |
| HighlightScenarios.NoneToHighlightAll | tests/test_highlight.py:49-69 | with nobody but the sender, `!hlall` says there is nobody to highlight |
| HighlightScenarios.NoneToHighlightAllWithText | tests/test_highlight.py:49-69 | the same for `!hlall helloes` |
| HighlightScenarios.HighlightWithoutText | tests/test_highlight.py:71-81 | `!hl group` names the group's stored member |
| HighlightScenarios.HighlightWithText | tests/test_highlight.py:93-103 | `!hl group helloes` names the stored member and repeats the text |
| HighlightScenarios.NoMembersForHighlight | tests/test_highlight.py:115-136 | `!hl group` for a group without members, or with only the sender, says so |
| HighlightScenarios.HighlightWithoutGroup | chaanbot/modules/highlight.py:108-111 | a bare `!hl` gets the syntax reply |
| HighlightScenarios.AddToCaseInsensitiveGroup | tests/test_highlight.py:138-147 | `!hla GRouP user1` stores the user under `group` |
| HighlightScenarios.AddExistingMember | tests/test_highlight.py:149-158 | adding a stored member reports "Could not add" and changes nothing |
| HighlightScenarios.AddUserNotInRoom | tests/test_highlight.py:160-167 | adding a user not in the room is refused and changes nothing |
| HighlightScenarios.DeleteFromCaseInsensitiveGroup | tests/test_highlight.py:169-178 | `!hld gROUp user1` removes the user's row from `group` |
| HighlightScenarios.DeleteNonMember | tests/test_highlight.py:180-189 | deleting a user who is not stored reports "Could not remove" and changes nothing |
| HighlightFindings.EntryIteratesKeys | chaanbot/modules/highlight.py:34-49 | iterating an operation dictionary gives its keys `commands` and `argument_regex` |
| HighlightFindings.EntryValueMatchesKeys | chaanbot/command_utility.py:11-16 | the inner loop over an operation dictionary matches exactly those two keys |
| HighlightFindings.AnyOperationAllAlike | chaanbot/command_utility.py:11-16 | the outer loop over values that all give one answer gives that answer |
| HighlightFindings.GateAsWritten | chaanbot/modules/highlight.py:88-89 | as written, the gate with a database opens exactly when the token is `commands` or `argument_regex` up to case |
| HighlightFindings.GateAsWrittenOnToken | chaanbot/command_utility.py:11-16 | as written, the search over the four operation dictionaries, once the token is fetched, holds exactly when the token is a key |
| HighlightFindings.EveryEntryMatchesKeys | chaanbot/modules/highlight.py:33-50 | each of the four dictionaries matches exactly the two keys |
| HighlightFindings.NoDatabaseRaises | chaanbot/modules/highlight.py:54-67 | as written, a module built without a database raises `AttributeError` on every message |
| HighlightFindings.NoDatabaseDeclines | chaanbot/modules/highlight.py:54-67 | corrected, such a module declines every message |
| HighlightFindings.DeclinedAsWritten | chaanbot/modules/highlight.py:69-89 | as written, a token that is no key is declined whatever command it names |
| HighlightFindings.KeyTokenRaisesAsWritten | chaanbot/modules/highlight.py:69-89 | as written, a key token opens the gate and `run` raises `TypeError` |
| HighlightFindings.EntryLoopRaises | chaanbot/command_utility.py:11-16 | an operation dictionary whose alias list gives no match makes the search raise `TypeError` at its pattern |
| HighlightFindings.FirstTestRaises | chaanbot/modules/highlight.py:71 | as written, the `!hlall` test raises `TypeError` on a token that is no alias |
| HighlightFindings.RunWithFirstTestRaises | chaanbot/modules/highlight.py:70-71 | past an open gate, a raising first test makes `run` raise |
| HighlightFindings.KeyIsNoHighlightAllAlias | chaanbot/modules/highlight.py:35 | neither key is an alias of `!hlall` |
| HighlightFindings.HighlightAllDeclinedAsWritten | chaanbot/modules/highlight.py:33-37 | `!hlall` is declined as written, and answered once corrected |
| HighlightFindings.HighlightAllIsNoKey | chaanbot/modules/highlight.py:35 | `!hlall` is neither key |
| LegacyHighlight.ShouldRun | modules/highlight.py:55-59 | false when an SQLite database is asked for without its location |
| LegacyHighlight.ShouldRunMeaning | modules/highlight.py:55-59 | on a well-formed message the gate holds exactly when the location is not missing and some command's alias matches |
| LegacyHighlight.BranchTests | modules/highlight.py:35-49 | there are five command tests |
| LegacyHighlight.BranchTestsMeaning | modules/highlight.py:35-49 | test k holds exactly when one of the k-th alias list (all, group, highlight, add, delete) matches |
| LegacyHighlight.CommandsCoverBranches | modules/highlight.py:33-51 | some command matches exactly when one of the five tests does, so the `RuntimeError` branch is unreachable |
| LegacyHighlight.OnlineOnlyMeaning | modules/highlight.py:100 | the online filter keeps exactly the online ids |
| LegacyHighlight.OnlineOnlyConcat | modules/highlight.py:100 | the filter works piecewise, so it keeps the order |
| LegacyHighlight.UserIdsOfMeaning | modules/highlight.py:99 | the lookup succeeds exactly when every stored member names a room user, and then gives their ids in order |
| LegacyHighlight.TypedGroupAndUsers | modules/highlight.py:114-116 | a group word is non-empty; there is none exactly when the message has no argument |
| LegacyHighlight.LegacyHighlight.constructor | modules/highlight.py:18-30 | the module holds its table and its two configuration flags |
| LegacyHighlight.LegacyHighlight.Run | modules/highlight.py:32-53 | `run`: outcome and new table as the `run` specification of the old table |
| LegacyHighlight.RunWithOpen | modules/highlight.py:33-53 | past an open gate, `run` is the `if ... elif` chain of the five commands |
| LegacyProperties.RunWithDeclines | modules/highlight.py:32-53 | `run` declines exactly when the gate is false, leaving the table |
| LegacyProperties.RunDeclines | modules/highlight.py:32-59 | `run` declines exactly when the location is missing or no alias matches |
| LegacyProperties.RunWithPicks | modules/highlight.py:33-51 | with the gate open and tests that do not raise, the first test that holds picks the command |
| LegacyProperties.RunPicksFirstBranch | modules/highlight.py:33-51 | the commands are tried in the order all, group, highlight, add, delete |
| LegacyProperties.RunRaises | modules/highlight.py:32-53 | `run` never raises `RuntimeError`; it raises only for bare commands or a stored member no longer in the room |
| LegacyProperties.AllOnlineMeaning | modules/highlight.py:61-76 | `!hlall` mentions exactly the online joined users, in order, or says "No online users to highlight" |
| LegacyProperties.GroupReplyMeaning | modules/highlight.py:78-93 | `!hlg` lists exactly the members stored for the group as typed, or says the group does not exist |
| LegacyProperties.MemberReplyMeaning | modules/highlight.py:95-111 | `!hl` raises exactly when a stored member is no room user, and otherwise mentions their online ids or says there are none |
| LegacyProperties.MemberReplyFails | modules/highlight.py:95-99 | `!hl` fails exactly when the lookup of stored members fails, with its error |
| LegacyProperties.UserIdsOfFails | modules/highlight.py:99 | the lookup raises `AttributeError` exactly when a member names no room user |
| LegacyProperties.MemberIdsMeaning | modules/highlight.py:99-100 | the ids mentioned are exactly the online ids of the users the stored members name |
| LegacyProperties.NoOnlineMember | modules/highlight.py:110-111 | with no online member, `!hl` says so |
| LegacyProperties.GroupWordAsTyped | modules/highlight.py:114-116 | `!hla`/`!hld` use the first word of the argument as typed |
| LegacyProperties.AddedUserIsListed | modules/highlight.py:113-146 | a user added to a group is listed by `!hlg` for it |
| LegacyProperties.DeletedUserIsNotListed | modules/highlight.py:148-181 | a member deleted from a group is no longer listed |
| BotClient.RoomsOf | chaanbot/client.py:115 | the rooms of the mapping, in order |
| BotClient.Loaded | chaanbot/client.py:39-53 | one loaded module per module file |
| BotClient.CommaList | chaanbot/client.py:65 | one item per comma-separated piece |
| BotClient.FirstResolving | chaanbot/client.py:117-120 | the first list entry that resolves to the room id, and none exactly when no entry does |
| BotClient.Dispatch | chaanbot/client.py:149-159 | one run flag per module |
| BotClient.Client.constructor | chaanbot/client.py:15-28 | loads the modules of the module files, then reads the three lists from the settings; nothing is joined yet |
| BotClient.Client.LoadModules | chaanbot/client.py:39-53 | appends one module per module file in listing order, with its class name and `always_run` (default false) |
| BotClient.Client.LoadEnvironment | chaanbot/client.py:62-76 | each list that is set becomes its stripped comma list; the others keep their value |
| BotClient.Client.JoinRoom | chaanbot/client.py:114-137 | the joins are those of the corrected admission rule: the first whitelist entry resolving to the target's room, else the target unless blacklisted, else the target |
| BotClient.Client.JoinWhitelisted | chaanbot/client.py:117-124 | joins the first whitelist entry resolving to the room id, or nothing |
| BotClient.Client.JoinRoomAsWritten | chaanbot/client.py:114-137 | as written, with a whitelist every entry resolving to the target's room is joined |
| BotClient.Client.JoinWhitelistedAsWritten | chaanbot/client.py:117-124 | as written, the whitelist loop joins every entry resolving to the room id |
| BotClient.Client.JoinUnlessBlacklisted | chaanbot/client.py:125-133 | joins the target exactly when no blacklist entry resolves to its room |
| BotClient.Client.JoinRooms | chaanbot/client.py:78-91 | the joins of the listen rooms, then of every invite-only room, in order, with the corrected `_join_room` |
| BotClient.Client.JoinEach | chaanbot/client.py:84-85 | the joins of each listed room in turn, with the corrected `_join_room` |
| BotClient.Client.JoinInviteOnly | chaanbot/client.py:87-91 | the joins of each invite-only room in the mapping's order, with the corrected `_join_room` |
| BotClient.Client.OnInvite | chaanbot/client.py:93-112 | joins the room, with the corrected `_join_room`, exactly when the inviter check accepts the sender, who is that of the first invite of the bot |
| BotClient.Client.OnRoomEvent | chaanbot/client.py:139-147 | runs no module for a dropped event, and otherwise dispatches the stripped body |
| BotClient.Client.RunModules | chaanbot/client.py:149-159 | the modules that run are those of the dispatch rule |
| BotClient.OnLeave | chaanbot/client.py:161-168 | reports the actor of the leave |
| BotClient.JoinTargetsCases | chaanbot/client.py:114-137 | the admission decision by cases: whitelist, then blacklist, then open |
| BotClient.FirstResolvingAt | chaanbot/client.py:117-120 | the first entry resolving is the one before which none does |
| BotClient.JoinAllConcat | chaanbot/client.py:78-91 | the joins of a list of targets are those of any split of it, one after the other |
| BotClient.FlatMapConcat | chaanbot/client.py:78-91 | joining each target of a concatenation yields the joins of the first part followed by those of the second |
| BotClient.FlatMapKeeps | chaanbot/client.py:78-91 | when each target joins at most itself, and only if it has a property, every join of the list is a target with that property |
| ClientProperties.ProcessedMeaning | chaanbot/client.py:151-156 | the message is processed before module i exactly when some earlier module ran and claimed it |
| ClientProperties.DispatchMeaning | chaanbot/client.py:151-156 | module i runs exactly when it is `always_run` or no earlier module ran and claimed the message |
| ClientProperties.FirstModuleRuns | chaanbot/client.py:151-156 | the first module always runs |
| ClientProperties.OnlyAlwaysRunAfterClaim | chaanbot/client.py:151-156 | after a claim only `always_run` modules run |
| ClientProperties.NoClaimAllRun | chaanbot/client.py:151-156 | when no module claims the message, every module runs |
| ClientProperties.ProcessedWithout | chaanbot/client.py:151-156 | a module that does not claim leaves the processed flag of the others as it would be without it |
| ClientProperties.NonClaimingModuleTransparent | chaanbot/client.py:151-156 | inserting a module that never claims does not change which of the other modules run |
| ClientProperties.ClaimScenario | chaanbot/client.py:151-156 | with two modules, the first claiming, the second runs exactly when it is `always_run` |
| ClientProperties.EventMessageMeaning | chaanbot/client.py:139-147 | the bot's own events, non-message events and non-text messages are dropped; otherwise the stripped body is dispatched |
| ClientProperties.WhitelistAdmission | chaanbot/client.py:115-124 | with a whitelist, at most one join, exactly when some entry resolves to the target's room; what is joined is a whitelist entry; the blacklist plays no part |
| ClientProperties.BlacklistAdmission | chaanbot/client.py:125-133 | with only a blacklist, the target is refused exactly when an entry resolves to its room, and is otherwise joined once |
| ClientProperties.OpenAdmission | chaanbot/client.py:134-137 | with neither list, every target is joined, in order |
| ClientProperties.OnlyWhitelistedJoined | chaanbot/client.py:117-124 | with a whitelist, only whitelist entries are joined, at most one per target |
| ClientProperties.NoBlacklistedJoined | chaanbot/client.py:125-133 | with only a blacklist, every join is a target no blacklist entry resolves to |
| ClientProperties.DuplicateWhitelistJoinAsWritten | chaanbot/client.py:117-124 | as written, a room whitelisted by its id and its alias is joined twice; corrected, once |
| ClientProperties.InviteSenderFirst | chaanbot/client.py:94-99 | the inviter is the sender of the first event inviting the bot |
| ClientProperties.InviteSenderAbsent | chaanbot/client.py:94-99 | without such an event the inviter is "Someone" |
| ClientProperties.InviterCheckIgnoresCase | chaanbot/client.py:103-109 | the inviter check ignores case, and an empty inviter list turns every invite away |
| ClientProperties.StrangerInviteScenario | chaanbot/client.py:103-109 | "Carol" is accepted when "carol" is allowed, "mallory" is not |
| ClientProperties.LeaveActorLast | chaanbot/client.py:163-167 | the actor is the sender of the last event without a membership key |
| ClientProperties.LeaveActorAbsent | chaanbot/client.py:163-167 | without such an event the actor is "Someone" |
| ClientProperties.StripKeepsOut | chaanbot/client.py:65 | stripping adds no character |
| ClientProperties.CommaListMeaning | chaanbot/client.py:65 | a comma list has one item more than the setting has commas; no item holds a comma or starts or ends with whitespace |
| ClientProperties.ConfiguredMeaning | chaanbot/client.py:62-76 | an absent or empty setting keeps the list; a set one replaces it by its comma list |
| ClientProperties.ModuleFilesMeaning | chaanbot/client.py:41 | the module files are exactly the listed files holding `.py` and no `__` |
| ClientProperties.ModuleNameOfFile | chaanbot/client.py:45 | removing `.py` from `name.py`, for a name without a dot, gives the name |
| ClientProperties.SplitOnFirst | chaanbot/client.py:49 | splitting at a separator the first part lacks gives that part first |
| ClientProperties.SplitOnNone | chaanbot/client.py:49 | a string without the separator is one piece |
| ClientProperties.ChanSaveClassName | chaanbot/client.py:45-50 | the module file `chan_save.py` names the class `ChanSave` |
| ClientProperties.ChanSaveTitles | chaanbot/client.py:49 | the title-cased words `chan` and `save` join to `ChanSave` |
| ClientProperties.ChanSaveWords | chaanbot/client.py:49 | `chan_save` splits at `_` into `chan` and `save` |
| ChanSaveModule.WithSlash | chaanbot/modules/chan_save.py:38 | ends with a slash, extends the string, and by at most one character |
| ChanSaveModule.FirstExtension | chaanbot/modules/chan_save.py:86-88 | the first extension of the list that the link has, and none exactly when it has none |
| ChanSaveModule.FileExtension | chaanbot/modules/chan_save.py:85-88 | an extension to save that the link has, and none exactly when it has no such extension |
| ChanSaveModule.FilenameAndPath | chaanbot/modules/chan_save.py:90-93 | the path is the directory followed by the file name, which starts with the digest and ends with "." and the extension |
| ChanSaveModule.ChanSave.constructor | chaanbot/modules/chan_save.py:31-51 | the directory gets a trailing slash; the module is disabled exactly when the directory is missing, empty or unwritable; the access URL, with a trailing slash, is kept only by an enabled module |
| ChanSaveModule.ChanSave.Run | chaanbot/modules/chan_save.py:54-70 | never claims the message; the downloads and replies are those of the link-by-link specification |
| ChanSaveProperties.WithSlashMeaning | chaanbot/modules/chan_save.py:38 | a slash is appended exactly when missing, and normalising twice is normalising once |
| ChanSaveProperties.LowerStrAppend | chaanbot/modules/chan_save.py:87 | lower-casing works piecewise |
| ChanSaveProperties.ExtensionsLowerCase | chaanbot/modules/chan_save.py:28 | the extensions to save are written in lower case |
| ChanSaveProperties.HasExtensionOf | chaanbot/modules/chan_save.py:87 | a link has an extension exactly when its lower-cased form ends with a dot and the extension |
| ChanSaveProperties.UpperCaseExtension | chaanbot/modules/chan_save.py:85-88 | a link ending in `.JPG` is saved as `jpg` |
| ChanSaveProperties.JpegExtension | chaanbot/modules/chan_save.py:85-88 | a link ending in `.jpeg` is saved as `jpeg`, not `jpg` |
| ChanSaveProperties.SearchMeaning | chaanbot/modules/chan_save.py:27 | `search` finds a pattern exactly when it matches at some position |
| ChanSaveProperties.ImageHostLink | chaanbot/modules/chan_save.py:27 | a link naming `I.4CDN.ORG` in any case is a link to save from |
| ChanSaveProperties.DisabledSavesNothing | chaanbot/modules/chan_save.py:81-83 | a disabled module downloads nothing and says nothing |
| ChanSaveProperties.SavesAreNew | chaanbot/modules/chan_save.py:62-63 | no saved path existed before, no path is saved twice, and the existing paths grow by exactly the saved ones |
| ChanSaveProperties.RepliesFollowSaves | chaanbot/modules/chan_save.py:64-66 | no replies without an access URL, one per download with it |
| ChanSaveProperties.SavesQualify | chaanbot/modules/chan_save.py:56-63 | every download is made by an enabled module, from a non-empty 4chan link of the message with an extension to save, to the path named by its digest |
| ChanSaveProperties.SavesEveryNewLink | chaanbot/modules/chan_save.py:56-63 | an enabled module saves every eligible link of the message whose path neither existed before nor is the path of an earlier eligible link |
| ChanSaveProperties.NotYetSaved | chaanbot/modules/chan_save.py:62-63 | before the module reaches such a link, its path does not exist |
| ChanSaveProperties.SavesPrefix | chaanbot/modules/chan_save.py:56-63 | the downloads for the first links come first among those for all the links |
| ChanSaveProperties.StepSavesNew | chaanbot/modules/chan_save.py:58-63 | an eligible link whose path does not exist yet is downloaded to that path |
| ChanSaveProperties.ChanSaveInDispatch | chaanbot/modules/chan_save.py:29 | wherever it is loaded, the module runs on every message, and since it never claims, the other modules run as they would without it |

## Left out

- Matrix transport is not modelled: sending text, `join_room`, listener registration, the listener thread and the `sleep` loop of `Client.run` (`chaanbot/client.py:30-37`). Each join is recorded in the client's `joins` log; each reply is an outcome or an entry of a reply list, and the room it goes to is implicit.
- SQLite is not modelled: connections, commits and the table's DDL. The table is a sequence of distinct rows, and `_get_members` lists rows in table order, because the order of an unordered SELECT is not specified.
- `importlib`, `pkg_resources`, `getattr` and `_instantiate_module_class` (`chaanbot/client.py:40`, `47`, `50-51`, `55-60`) are foreign calls. The model keeps the file filter, the module name and the class name. A module's `always_run` comes from a `declared` parameter. The `IOError` handler of the constructor is not modelled.
- `BotClient.Client.LoadModules`: the loader in `chaanbot/client.py` builds modules with `(matrix, database)` and reads `config["always_run"]`, but `chan_save.py` and `chaanbot/modules/highlight.py` take `(config, matrix, database, requests)` and declare a class attribute `always_run`. The model records each module's declared `always_run`; it does not model the `TypeError` fallback or a module that cannot be built.
- Who claims a message is a parameter of dispatch, a predicate on module positions. Each module's own `run` is not called from it, because the modules are arbitrary objects. Exceptions raised by a module's `run` are outside the model.
- Events whose keys are missing, which raise `KeyError` in the source, are not modelled: events are records with every field present.
- The class-level lists of `Client` (`chaanbot/client.py:13`), which all instances share, are modelled as fields of a single client.
- The rooms the client knows are fixed for the life of a `Client` object; `join_room` does not add to them.
- The "join anyway" path of `_on_invite` (`chaanbot/client.py:110-112`) is reached when the `try` block raises `AttributeError`. `allowed_inviters` is a class attribute (`chaanbot/client.py:13`), so reading it cannot raise. The error can only come from `inviter.lower()` or `sender.lower()` on a value that is not a string (line 104), or from inside `_join_room` (line 106), after which the handler joins a second time. The model has only strings there, so it abstracts these sources as an inviter list of `None`, which joins once and which `LoadEnvironment` never produces. The second join after `_join_room` raised is not modelled, and neither is the uncaught `TypeError` of iterating an inviter list of `None`. With no configured inviters the list is `[]` and every invite is ignored, as the code does.
- HighlightModule.UserIds, HighlightModule.MemberUserIdsMeaning, HighlightProperties.HighlightAllMeaning: `_highlight_all` reads `room.users.values()` (`chaanbot/modules/highlight.py:92`), while `get_user` reads `room.get_joined_members()` (`matrix_utility.py:31`). The model gives a room one member list, `Room.members`, for both, so it assumes the two agree.
- `modules/highlight.py:3` imports a top-level `command_utility`, which is not among the repository files modelled here. The model takes it to be `chaanbot/command_utility.py`, so module `LegacyHighlight` imports `CommandUtility`.
- `chaanbot/matrix.py` is not part of this model. Its `get_room` is taken to be `get_room_id` of `matrix_utility.py`, and its `get_user`, which both highlight modules call (`chaanbot/modules/highlight.py:134`, `174`, `221`; `modules/highlight.py:99`, `120`, `155`), is taken to be `get_user` of `matrix_utility.py`.
- MatrixUtility.FirstUser, MatrixUtility.GetUserMeaning: every member has a display name string. A member whose display name is `None` is not modelled: in the source `user.displayname.lower()` (`matrix_utility.py:32-33`) raises `AttributeError` for it when the user id test fails.
- `get_presence` (`matrix_utility.py:39-48`) and `is_online` are network calls; presence is a parameter `online`, a predicate on user ids.
- A bare `!hl` is answered with the syntax message, as the code at `chaanbot/modules/highlight.py:109-110` does; the unit test at `tests/test_highlight.py:83-91` expects no reply.
- `!hla`, `!hld`, `!hlg` and the older `!hl` without an argument call `.split()` on `None`; the model raises `AttributeError`.
- `_get_links` (`chaanbot/modules/chan_save.py:72-79`) depends on regular-expression semantics and is left out: the links of a message are a parameter of `Run`.
- The SHA-1 digest (`chaanbot/modules/chan_save.py:91`) is a parameter `digest`. The download and the file write (`_save_media`, lines 95-98) are recorded as a list of downloads. `os.access` is a parameter `writable`, and `os.path.exists` is a set of existing paths.
- The patterns of `url_regexes` are matched as written, so their unescaped `.` matches any character but a newline; `re.IGNORECASE`, like `lower()` and `title()`, is modelled for ASCII letters only.
- The alive modules (`chaanbot/modules/alive.py`, `modules/alive.py`, `scripts/alive.py`) and the old bootstrap (`chaanbot.py`, `start.py`) are outside the core.
- `async`/`await` are taken as sequential calls, and logging is dropped.
- ChanSaveProperties.ChanSaveInDispatch, BotClient.Client.RunModules: `_run_modules` calls `module.run(...)` without `await` (`chaanbot/client.py:155`), while `ChanSave.run` is `async def` (`chaanbot/modules/chan_save.py:54`). The unawaited coroutine object is truthy, so as written the chan save module would count as claiming every message and its body would not run there. The model treats `run` as awaited, so it returns the module's own `False`.
- BotClient.Client.JoinRooms, BotClient.Client.JoinEach, BotClient.Client.JoinInviteOnly, BotClient.Client.OnInvite: these join through the corrected `_join_room` (`BotClient.Client.JoinRoom`), which joins at most once per target. The source's `_join_room` has no `return` in its whitelist loop (`chaanbot/client.py:117-124`); that as-written behaviour is modelled for one target by `BotClient.Client.JoinRoomAsWritten` and recorded under Findings, but not for these callers.

## Findings

| source | as written | input that shows it | evidently intended | confidence | as-written member | corrected member |
|---|---|---|---|---|---|---|
| chaanbot/modules/highlight.py:33-50 | each operation is a dictionary `{"commands": [...], "argument_regex": ...}`, so `matches` iterates its keys: the gate opens only for `commands` or `argument_regex`, and then the first command test iterates a compiled pattern and raises `TypeError` | the message `!hlall` is declined; the message `commands` raises `TypeError` | each operation's `commands` list is matched, which is what `tests/test_highlight.py:26-47` expects | not executed | HighlightFindings.GateAsWritten, HighlightFindings.KeyTokenRaisesAsWritten, HighlightFindings.HighlightAllDeclinedAsWritten | HighlightModule.ShouldRunMeaning, HighlightProperties.RunPicksFirstBranch |
| chaanbot/modules/highlight.py:54-67 | without a database `self.database` is never assigned, and `_should_run` then raises `AttributeError` | a module built with database `None` and any message | the module is disabled and declines every message | not executed | HighlightFindings.NoDatabaseRaises | HighlightFindings.NoDatabaseDeclines |
| chaanbot/client.py:117-124 | the whitelist loop does not stop after a join, so a room that several whitelist entries resolve to is joined once per entry | whitelist `!r:x, #r:x`, a room with id `!r:x` and canonical alias `#r:x`, target `!r:x`: two joins | join at most once, with the first entry that resolves | not executed | BotClient.Client.JoinRoomAsWritten, ClientProperties.DuplicateWhitelistJoinAsWritten | BotClient.Client.JoinRoom, ClientProperties.WhitelistAdmission |
