/** chaanbot/command_utility.py: splitting a message into its command token and argument,
    and matching the token against command aliases.

    `matches` accepts any Python value, so it is modelled over `PyValue` with Python's
    iteration, truthiness and method-lookup semantics; then it is proved to agree with the
    plain statements "some non-empty alias equals the token, ignoring case" for a list of
    strings and for a dictionary of such lists. */
module CommandUtility {
  import opened Python
  import opened Text

  /** `message.split(None, 1)`: the first word and, when something follows it, the rest of
      the message after the whitespace run that ends the first word. */
  function GetCommandAndArgument(message: string): (parts: seq<string>)
    ensures |parts| <= 2
    ensures parts == [] <==> AllSpace(message)
    ensures |parts| >= 1 ==> parts[0] != [] && NoSpace(parts[0])
    ensures |parts| == 2 ==> parts[1] != [] && !IsSpace(parts[1][0])
  {
    var t := LStrip(message);
    if t == [] then
      assert message == message[..|message| - |t|];
      []
    else
      assert message[|message| - |t|] == t[0];
      var i := FirstSpace(t);
      var rest := LStrip(t[i..]);
      if rest == [] then [t[..i]] else [t[..i], rest]
  }

  /** The parts are taken from the message: the first is a prefix of the message without its
      leading whitespace; only whitespace follows a lone first part; a second part ends the
      message and has whitespace right before it. */
  lemma GetCommandAndArgumentMeaning(message: string)
    ensures var parts := GetCommandAndArgument(message);
      && (|parts| >= 1 ==> parts[0] <= LStrip(message))
      && (|parts| == 1 ==> AllSpace(LStrip(message)[|parts[0]|..]))
      && (|parts| == 2 ==> SpaceBefore(message, parts[1]))
  {
    CommandIsPrefix(message);
    LoneCommand(message);
    ArgumentEndsMessage(message);
  }

  lemma CommandIsPrefix(message: string)
    ensures var parts := GetCommandAndArgument(message); |parts| >= 1 ==> parts[0] <= LStrip(message)
  {
    var t := LStrip(message);
    if t != [] {
      var i := FirstSpace(t);
      TakeIsPrefix(t, i);
      assert GetCommandAndArgument(message)[0] == t[..i];
    }
  }

  lemma LoneCommand(message: string)
    ensures var parts := GetCommandAndArgument(message); |parts| == 1 ==> AllSpace(LStrip(message)[|parts[0]|..])
  {
    var t := LStrip(message);
    if t != [] && LStrip(t[FirstSpace(t)..]) == [] {
      StripEmptyIsBlank(t[FirstSpace(t)..]);
    }
  }

  lemma ArgumentEndsMessage(message: string)
    ensures var parts := GetCommandAndArgument(message);
      |parts| == 2 ==> SpaceBefore(message, parts[1])
  {
    var t := LStrip(message);
    if t != [] {
      var i := FirstSpace(t);
      var rest := LStrip(t[i..]);
      if rest != [] {
        ArgumentFollowsSpace(message, t, i, rest);
        assert GetCommandAndArgument(message)[1] == rest;
      }
    }
  }

  /** `get_command`: element 0 of the split, which raises `IndexError` on a message that is
      empty or all whitespace. */
  function GetCommand(message: string): (r: Result<string>)
    ensures r.Err? <==> AllSpace(message)
    ensures r.Err? ==> r.error == IndexError
    ensures r.Ok? ==> r.value != [] && NoSpace(r.value) && SplitWhitespace(message)[0] == r.value
  {
    var parts := GetCommandAndArgument(message);
    if parts == [] then Err(IndexError)
    else
      SplitWhitespaceAgrees(message);
      Ok(parts[0])
  }

  /** `get_argument`: element 1 of the split, or `None` when it does not exist. */
  function GetArgument(message: string): (r: Option<string>)
    ensures r.None? <==> |SplitWhitespace(message)| <= 1
    ensures r.Some? ==> r.value != [] && !IsSpace(r.value[0]) && SpaceBefore(message, r.value)
    ensures r.Some? ==> SplitWhitespace(message) == [GetCommand(message).value] + SplitWhitespace(r.value)
  {
    var parts := GetCommandAndArgument(message);
    SplitWhitespaceAgrees(message);
    if |parts| < 2 then None
    else
      GetCommandAndArgumentMeaning(message);
      Some(parts[1])
  }

  /** A message that is one word splits into that word alone. */
  lemma SplitSingleWord(w: string)
    requires w != [] && NoSpace(w)
    ensures GetCommandAndArgument(w) == [w]
  {
    assert !IsSpace(w[0]);
    assert LStrip(w) == w;
    FirstSpaceAfterWord(w, []);
    assert w + [] == w;
    assert w[|w|..] == [];
  }

  /** A word, a space and a text that starts with a non-space split back into the word and
      the text: `get_command` and `get_argument` undo putting a command line together. */
  lemma SplitWordAndRest(w: string, a: string)
    requires w != [] && NoSpace(w) && a != [] && !IsSpace(a[0])
    ensures GetCommandAndArgument(w + " " + a) == [w, a]
  {
    var m := w + " " + a;
    assert m[0] == w[0] && !IsSpace(w[0]);
    assert LStrip(m) == m;
    assert m == w + (" " + a);
    FirstSpaceAfterWord(w, " " + a);
    assert m[..|w|] == w;
    var u := m[|w|..];
    assert u == " " + a;
    assert u[1..] == a;
    assert LStrip(u) == LStrip(a);
    assert LStrip(a) == a;
  }

  /** A one-word message is its own command and has no argument. */
  lemma SingleWordMessage(w: string)
    requires w != [] && NoSpace(w)
    ensures GetCommand(w) == Ok(w) && GetArgument(w) == None
  {
    SplitSingleWord(w);
  }

  /** `get_command` and `get_argument` take apart a command line built from a word, a space
      and an argument that starts with a non-space. */
  lemma CommandLine(w: string, a: string)
    requires w != [] && NoSpace(w) && a != [] && !IsSpace(a[0])
    ensures GetCommand(w + " " + a) == Ok(w) && GetArgument(w + " " + a) == Some(a)
  {
    SplitWordAndRest(w, a);
  }

  /** Stripping leading whitespace does not change the words of a string. */
  lemma LStripKeepsWords(s: string)
    ensures SplitWhitespace(LStrip(s)) == SplitWhitespace(s)
  {
    var t := LStrip(s);
    assert LStrip(t) == t;
  }

  /** `split(None, 1)` is the first word of `split()` followed by the rest of the message. */
  lemma SplitWhitespaceAgrees(message: string)
    ensures var parts := GetCommandAndArgument(message);
      SplitWhitespace(message) ==
        if parts == [] then []
        else [parts[0]] + (if |parts| == 2 then SplitWhitespace(parts[1]) else [])
  {
    var t := LStrip(message);
    if t != [] {
      var i := FirstSpace(t);
      LStripKeepsWords(t[i..]);
      var rest := LStrip(t[i..]);
      if rest == [] {
        assert SplitWhitespace(rest) == [];
      }
    }
  }

  /** What follows the first word, stripped of its leading whitespace, is a suffix of the
      message with whitespace right before it. */
  lemma ArgumentFollowsSpace(message: string, t: string, i: nat, rest: string)
    requires t == LStrip(message) && i == FirstSpace(t)
    requires rest == LStrip(t[i..]) && rest != []
    ensures SpaceBefore(message, rest)
  {
    TailAfterTokenStartsWithSpace(t, i, rest);
    var u := t[i..];
    SpaceBeforeStripped(u, rest);
    DropIsSuffix(t, i);
    SpaceBeforeInSuffix(t, u, rest);
    StrippedIsSuffix(message);
    SpaceBeforeInSuffix(message, t, rest);
  }

  /** When something other than whitespace follows the first word, what follows it starts
      with whitespace. */
  lemma TailAfterTokenStartsWithSpace(t: string, i: nat, rest: string)
    requires i == FirstSpace(t) && rest == LStrip(t[i..]) && rest != []
    ensures t[i..] != [] && IsSpace(t[i..][0])
  {
  }

  /** A string that starts with whitespace and is not all whitespace has whitespace right
      before what `lstrip()` leaves of it. */
  lemma SpaceBeforeStripped(u: string, rest: string)
    requires u != [] && IsSpace(u[0]) && rest == LStrip(u) && rest != []
    ensures SpaceBefore(u, rest)
  {
    var m := |rest|;
    assert u[0] != rest[0];
    assert m < |u|;
    assert u[..|u| - m][|u| - m - 1] == u[|u| - m - 1];
  }

  /** The test in the loop body of `matches`:
      `command and command.lower() == get_command_and_argument(message)[0].lower()`,
      given what fetching the token gives (`token`). A falsy command is skipped; a truthy
      one that is not a string has no `lower` (`AttributeError`); only then is the token
      used, so its `IndexError` surfaces at the first truthy string. */
  function CommandTest(command: PyValue, token: Result<string>): Result<bool> {
    if !Truthy(command) then Ok(false)
    else if !command.PyStr? then Err(AttributeError)
    else
      match token
      case Err(e) => Err(e)
      case Ok(t) => Ok(LowerStr(command.s) == LowerStr(t))
  }

  /** `for command in commands: if <test>: return True` followed by falling through:
      the first command that matches or raises decides. */
  function AliasLoop(commands: seq<PyValue>, token: Result<string>): Result<bool> {
    if commands == [] then Ok(false)
    else
      var first := CommandTest(commands[0], token);
      if first.Err? || first.value then first else AliasLoop(commands[1..], token)
  }

  /** The test of one command against the message. */
  function CommandMatches(command: PyValue, message: string): Result<bool> {
    CommandTest(command, GetCommand(message))
  }

  /** The loop over a list of commands against the message. */
  function AnyCommandMatches(commands: seq<PyValue>, message: string): Result<bool> {
    AliasLoop(commands, GetCommand(message))
  }

  /** The inner loop `for command in value: ...` over one value of a dictionary, given the
      token; iterating the value may itself raise. */
  function ValueTest(value: PyValue, token: Result<string>): Result<bool> {
    match Iterate(value)
    case Err(e) => Err(e)
    case Ok(commands) => AliasLoop(commands, token)
  }

  /** `for operation in d: for command in d[operation]: ...`, given the token: the values of
      the dictionary are searched in turn, and the first that matches or raises decides. */
  function OperationLoop(entries: seq<(string, PyValue)>, token: Result<string>): Result<bool> {
    if entries == [] then Ok(false)
    else
      var first := ValueTest(entries[0].1, token);
      if first.Err? || first.value then first else OperationLoop(entries[1..], token)
  }

  /** The inner loop over one value of a dictionary against the message. */
  function ValueMatches(value: PyValue, message: string): Result<bool> {
    ValueTest(value, GetCommand(message))
  }

  /** The search over the values of a dictionary against the message. */
  function AnyOperationMatches(entries: seq<(string, PyValue)>, message: string): Result<bool> {
    OperationLoop(entries, GetCommand(message))
  }

  /** `matches(commands_dict_or_list, message)` */
  function Matches(commandsDictOrList: PyValue, message: string): (r: Result<bool>)
    ensures message == [] ==> r == Ok(false)
    ensures !commandsDictOrList.PyDict? && !commandsDictOrList.PyList? ==> r == Ok(false)
  {
    if message == [] then Ok(false)
    else
      match commandsDictOrList
      case PyDict(entries) => AnyOperationMatches(entries, message)
      case PyList(items) => AnyCommandMatches(items, message)
      case _ => Ok(false)
  }

  /** A message `matches` can inspect without raising: empty, or holding a word. Every
      stripped message body is one. */
  predicate WellFormedMessage(message: string) {
    message == [] || !AllSpace(message)
  }

  /** The message has a command token and some non-empty alias equals it, ignoring case. */
  predicate AliasesMatch(aliases: seq<string>, message: string) {
    !AllSpace(message) &&
    exists i :: 0 <= i < |aliases| && aliases[i] != [] && LowerStr(aliases[i]) == LowerStr(GetCommand(message).value)
  }

  /** Some operation's alias list matches the message. */
  predicate OperationsMatch(ops: seq<(string, seq<string>)>, message: string) {
    exists i :: 0 <= i < |ops| && AliasesMatch(ops[i].1, message)
  }

  /** A dictionary from operation names to lists of aliases, as a Python value. */
  function OperationsValue(ops: seq<(string, seq<string>)>): (v: PyValue)
    ensures v.PyDict? && |v.entries| == |ops|
    ensures forall i :: 0 <= i < |ops| ==> v.entries[i] == (ops[i].0, PyList(StrList(ops[i].1)))
  {
    PyDict(seq(|ops|, i requires 0 <= i < |ops| => (ops[i].0, PyList(StrList(ops[i].1)))))
  }

  /** Some non-empty alias equals the token, ignoring case. */
  predicate TokenIsAlias(aliases: seq<string>, token: string) {
    exists i :: 0 <= i < |aliases| && aliases[i] != [] && LowerStr(aliases[i]) == LowerStr(token)
  }

  /** The loop over a list of strings, once the token is fetched, holds exactly when some
      non-empty alias equals the token up to case. */
  lemma {:induction false} AliasLoopOverStrings(aliases: seq<string>, token: string)
    ensures AliasLoop(StrList(aliases), Ok(token)) == Ok(TokenIsAlias(aliases, token))
  {
    if aliases != [] {
      assert CommandTest(PyStr(aliases[0]), Ok(token)) == Ok(aliases[0] != [] && LowerStr(aliases[0]) == LowerStr(token));
      assert StrList(aliases)[1..] == StrList(aliases[1..]);
      AliasLoopOverStrings(aliases[1..], token);
      if TokenIsAlias(aliases[1..], token) {
        var i :| 0 <= i < |aliases[1..]| && aliases[1..][i] != [] && LowerStr(aliases[1..][i]) == LowerStr(token);
        assert aliases[i + 1] == aliases[1..][i];
      }
      if TokenIsAlias(aliases, token) && !(aliases[0] != [] && LowerStr(aliases[0]) == LowerStr(token)) {
        var i :| 0 <= i < |aliases| && aliases[i] != [] && LowerStr(aliases[i]) == LowerStr(token);
        assert i > 0 && aliases[1..][i - 1] == aliases[i];
      }
    }
  }

  /** On a message with a command token, the loop over a list of strings holds exactly when
      some non-empty alias equals the token up to case. */
  lemma AnyCommandOverStrings(aliases: seq<string>, message: string)
    requires !AllSpace(message)
    ensures AnyCommandMatches(StrList(aliases), message) == Ok(AliasesMatch(aliases, message))
  {
    AliasLoopOverStrings(aliases, GetCommand(message).value);
  }

  /** With a list of aliases, `matches` holds exactly when some non-empty alias equals the
      command token, ignoring case. */
  lemma MatchesAliasList(aliases: seq<string>, message: string)
    requires WellFormedMessage(message)
    ensures Matches(PyList(StrList(aliases)), message) == Ok(AliasesMatch(aliases, message))
  {
    if message != [] {
      AnyCommandOverStrings(aliases, message);
    }
  }

  /** Some operation's alias list holds the token. */
  predicate TokenInOperations(ops: seq<(string, seq<string>)>, token: string) {
    exists i :: 0 <= i < |ops| && TokenIsAlias(ops[i].1, token)
  }

  /** The loop over a dictionary of alias lists, once the token is fetched, holds exactly when
      some operation's list holds the token. */
  lemma {:induction false} OperationLoopOverLists(ops: seq<(string, seq<string>)>, token: string)
    ensures OperationLoop(OperationsValue(ops).entries, Ok(token)) == Ok(TokenInOperations(ops, token))
  {
    var entries := OperationsValue(ops).entries;
    if ops != [] {
      AliasLoopOverStrings(ops[0].1, token);
      assert ValueTest(entries[0].1, Ok(token)) == Ok(TokenIsAlias(ops[0].1, token));
      assert entries[1..] == OperationsValue(ops[1..]).entries;
      OperationLoopOverLists(ops[1..], token);
      if TokenInOperations(ops[1..], token) {
        var i :| 0 <= i < |ops[1..]| && TokenIsAlias(ops[1..][i].1, token);
        assert ops[i + 1] == ops[1..][i];
      }
      if TokenInOperations(ops, token) && !TokenIsAlias(ops[0].1, token) {
        var i :| 0 <= i < |ops| && TokenIsAlias(ops[i].1, token);
        assert i > 0 && ops[1..][i - 1] == ops[i];
      }
    }
  }

  /** On a message with a command token, some operation's list matches the message exactly
      when some operation's list holds the token. */
  lemma OperationsMatchToken(ops: seq<(string, seq<string>)>, message: string)
    requires !AllSpace(message)
    ensures OperationsMatch(ops, message) == TokenInOperations(ops, GetCommand(message).value)
  {
    var token := GetCommand(message).value;
    if TokenInOperations(ops, token) {
      var i :| 0 <= i < |ops| && TokenIsAlias(ops[i].1, token);
      assert AliasesMatch(ops[i].1, message);
    }
  }

  /** On a message with a command token, the loop over a dictionary of alias lists holds
      exactly when some operation's list matches. */
  lemma AnyOperationOverLists(ops: seq<(string, seq<string>)>, message: string)
    requires !AllSpace(message)
    ensures AnyOperationMatches(OperationsValue(ops).entries, message) == Ok(OperationsMatch(ops, message))
  {
    OperationLoopOverLists(ops, GetCommand(message).value);
    OperationsMatchToken(ops, message);
  }

  /** With a dictionary of alias lists, `matches` is the disjunction of matching each
      operation's list. */
  lemma MatchesOperationDict(ops: seq<(string, seq<string>)>, message: string)
    requires WellFormedMessage(message)
    ensures Matches(OperationsValue(ops), message) == Ok(OperationsMatch(ops, message))
  {
    if message != [] {
      AnyOperationOverLists(ops, message);
    }
  }

  /** When fetching the token fails, the loop raises that error at the first non-empty
      alias and is false without one. */
  lemma {:induction false} AliasLoopOnError(aliases: seq<string>, e: PyError)
    ensures AliasLoop(StrList(aliases), Err(e)) ==
            if exists i :: 0 <= i < |aliases| && aliases[i] != [] then Err(e) else Ok(false)
  {
    if aliases != [] {
      assert StrList(aliases)[1..] == StrList(aliases[1..]);
      AliasLoopOnError(aliases[1..], e);
      if exists i :: 0 <= i < |aliases[1..]| && aliases[1..][i] != [] {
        var i :| 0 <= i < |aliases[1..]| && aliases[1..][i] != [];
        assert aliases[i + 1] != [];
      }
      if aliases[0] == [] && exists i :: 0 <= i < |aliases| && aliases[i] != [] {
        var i :| 0 <= i < |aliases| && aliases[i] != [];
        assert aliases[1..][i - 1] == aliases[i];
      }
    }
  }

  /** On a whitespace-only message the loop raises `IndexError` at the first non-empty
      alias and is false without one. */
  lemma AnyCommandOnBlank(aliases: seq<string>, message: string)
    requires AllSpace(message)
    ensures AnyCommandMatches(StrList(aliases), message) ==
            if exists i :: 0 <= i < |aliases| && aliases[i] != [] then Err(IndexError) else Ok(false)
  {
    AliasLoopOnError(aliases, IndexError);
  }

  /** A non-empty message of whitespace only slips past the emptiness test and then raises
      `IndexError` at the first non-empty alias. */
  lemma BlankMessageRaises(aliases: seq<string>, message: string)
    requires message != [] && AllSpace(message)
    ensures Matches(PyList(StrList(aliases)), message) ==
            if exists i :: 0 <= i < |aliases| && aliases[i] != [] then Err(IndexError) else Ok(false)
  {
    AnyCommandOnBlank(aliases, message);
  }

  /** Two messages whose command tokens agree up to letter case. */
  predicate SameTokenUpToCase(m1: string, m2: string) {
    !AllSpace(m1) && !AllSpace(m2) && LowerStr(GetCommand(m1).value) == LowerStr(GetCommand(m2).value)
  }

  /** The loop gives the same answer for two tokens equal up to case. */
  lemma {:induction false} AliasLoopCaseInsensitive(commands: seq<PyValue>, t1: string, t2: string)
    requires LowerStr(t1) == LowerStr(t2)
    ensures AliasLoop(commands, Ok(t1)) == AliasLoop(commands, Ok(t2))
  {
    if commands != [] {
      assert CommandTest(commands[0], Ok(t1)) == CommandTest(commands[0], Ok(t2));
      AliasLoopCaseInsensitive(commands[1..], t1, t2);
    }
  }

  lemma AnyCommandCaseInsensitive(commands: seq<PyValue>, m1: string, m2: string)
    requires SameTokenUpToCase(m1, m2)
    ensures AnyCommandMatches(commands, m1) == AnyCommandMatches(commands, m2)
  {
    AliasLoopCaseInsensitive(commands, GetCommand(m1).value, GetCommand(m2).value);
  }

  /** The inner loop over one dictionary value gives the same answer for two tokens equal
      up to case. */
  lemma ValueTestCaseInsensitive(value: PyValue, t1: string, t2: string)
    requires LowerStr(t1) == LowerStr(t2)
    ensures ValueTest(value, Ok(t1)) == ValueTest(value, Ok(t2))
  {
    var it := Iterate(value);
    if it.Ok? {
      AliasLoopCaseInsensitive(it.value, t1, t2);
    }
  }

  lemma ValueCaseInsensitive(value: PyValue, m1: string, m2: string)
    requires SameTokenUpToCase(m1, m2)
    ensures ValueMatches(value, m1) == ValueMatches(value, m2)
  {
    ValueTestCaseInsensitive(value, GetCommand(m1).value, GetCommand(m2).value);
  }

  /** The dictionary loop gives the same answer for two tokens equal up to case. */
  lemma {:induction false} OperationLoopCaseInsensitive(entries: seq<(string, PyValue)>, t1: string, t2: string)
    requires LowerStr(t1) == LowerStr(t2)
    ensures OperationLoop(entries, Ok(t1)) == OperationLoop(entries, Ok(t2))
  {
    if entries != [] {
      ValueTestCaseInsensitive(entries[0].1, t1, t2);
      OperationLoopCaseInsensitive(entries[1..], t1, t2);
    }
  }

  lemma AnyOperationCaseInsensitive(entries: seq<(string, PyValue)>, m1: string, m2: string)
    requires SameTokenUpToCase(m1, m2)
    ensures AnyOperationMatches(entries, m1) == AnyOperationMatches(entries, m2)
  {
    OperationLoopCaseInsensitive(entries, GetCommand(m1).value, GetCommand(m2).value);
  }

  /** Whatever the command set, only the letters of the command token up to case matter:
      the result of `matches`, raised exceptions included, is the same for two messages whose
      tokens differ only in letter case (the argument plays no part either). */
  lemma TokenCaseIrrelevant(commandsDictOrList: PyValue, m1: string, m2: string)
    requires SameTokenUpToCase(m1, m2)
    ensures Matches(commandsDictOrList, m1) == Matches(commandsDictOrList, m2)
  {
    NonBlankIsNonEmpty(m1);
    NonBlankIsNonEmpty(m2);
    match commandsDictOrList
    case PyDict(entries) =>
      AnyOperationCaseInsensitive(entries, m1, m2);
      MatchesDict(entries, m1);
      MatchesDict(entries, m2);
    case PyList(items) =>
      AnyCommandCaseInsensitive(items, m1, m2);
      MatchesList(items, m1);
      MatchesList(items, m2);
    case _ =>
  }

  lemma NonBlankIsNonEmpty(m: string)
    requires !AllSpace(m)
    ensures m != []
  {
  }

  /** On a non-empty message, `matches` on a dictionary is the search over its values. */
  lemma MatchesDict(entries: seq<(string, PyValue)>, message: string)
    requires message != []
    ensures Matches(PyDict(entries), message) == AnyOperationMatches(entries, message)
  {
  }

  /** On a non-empty message, `matches` on a list is the search over its aliases. */
  lemma MatchesList(items: seq<PyValue>, message: string)
    requires message != []
    ensures Matches(PyList(items), message) == AnyCommandMatches(items, message)
  {
  }
}
