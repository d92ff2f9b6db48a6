/** What the highlight module does as written, next to the corrected model: its operations
    are dictionaries `{"commands": [...], "argument_regex": ...}`, so `matches` compares the
    command token with the OPERATION DICTIONARIES' KEYS, and a module built without a
    database has no `database` attribute to read. */
module HighlightFindings {
  import opened Python
  import opened Text
  import opened CommandUtility
  import opened MatrixUtility
  import opened GroupStore
  import opened Outcome
  import opened HighlightModule
  import opened HighlightProperties
  import HighlightScenarios

  /** The keys of every operation dictionary, which is what `for command in d[operation]`
      walks. */
  const EntryKeys: seq<string> := ["commands", "argument_regex"]

  /** Iterating an operation dictionary gives its two keys. */
  lemma EntryIteratesKeys(commands: seq<string>, regex: string)
    ensures Iterate(OperationEntry(commands, regex)) == Ok(StrList(EntryKeys))
  {
    var entries := [("commands", PyList(StrList(commands))), ("argument_regex", PyPattern(regex))];
    assert OperationEntry(commands, regex) == PyDict(entries);
    var keys := seq(|entries|, i requires 0 <= i < |entries| => PyStr(entries[i].0));
    assert keys == StrList(EntryKeys) by {
      assert keys[0] == PyStr("commands") && keys[1] == PyStr("argument_regex");
    }
  }

  /** Each operation dictionary, searched by the outer loop of `matches`, matches exactly
      when the token is one of its keys. */
  lemma EntryValueMatchesKeys(commands: seq<string>, regex: string, token: string)
    ensures ValueTest(OperationEntry(commands, regex), Ok(token)) == Ok(TokenIsAlias(EntryKeys, token))
  {
    EntryIteratesKeys(commands, regex);
    AliasLoopOverStrings(EntryKeys, token);
  }

  /** The outer loop of `matches` over dictionary values that all give the same answer. */
  lemma {:induction false} AnyOperationAllAlike(entries: seq<(string, PyValue)>, token: Result<string>, b: bool)
    requires forall i :: 0 <= i < |entries| ==> ValueTest(entries[i].1, token) == Ok(b)
    ensures OperationLoop(entries, token) == Ok(entries != [] && b)
  {
    if entries != [] {
      AnyOperationAllAlike(entries[1..], token, b);
    }
  }

  /** As written, the gate with a database opens exactly when the command token is
      `commands` or `argument_regex`, up to case; the aliases play no part. */
  lemma GateAsWritten(message: string)
    requires WellFormedMessage(message)
    ensures ShouldRunAsWritten(true, message) == Ok(AliasesMatch(EntryKeys, message))
  {
    if message != [] {
      GateAsWrittenOnToken(GetCommand(message).value);
      MatchesDict(OperationsAsWritten.entries, message);
    }
  }

  /** The search over the four operation dictionaries, given the token, holds exactly when
      the token is a key. */
  lemma GateAsWrittenOnToken(token: string)
    ensures OperationLoop(OperationsAsWritten.entries, Ok(token)) == Ok(TokenIsAlias(EntryKeys, token))
  {
    var entries := OperationsAsWritten.entries;
    EveryEntryMatchesKeys(entries, token);
    AnyOperationAllAlike(entries, Ok(token), TokenIsAlias(EntryKeys, token));
  }

  lemma EveryEntryMatchesKeys(entries: seq<(string, PyValue)>, token: string)
    requires entries == OperationsAsWritten.entries
    ensures forall i :: 0 <= i < |entries| ==> ValueTest(entries[i].1, Ok(token)) == Ok(TokenIsAlias(EntryKeys, token))
  {
    forall i | 0 <= i < |entries|
      ensures ValueTest(entries[i].1, Ok(token)) == Ok(TokenIsAlias(EntryKeys, token))
    {
      if i == 0 {
        EntryValueMatchesKeys(HighlightAllAliases, "[.+]?", token);
      } else if i == 1 {
        EntryValueMatchesKeys(AddAliases, ".+ .+", token);
      } else if i == 2 {
        EntryValueMatchesKeys(DeleteAliases, ".+ .+", token);
      } else {
        EntryValueMatchesKeys(HighlightAliases, ".+", token);
      }
    }
  }

  /** As written, a module without a database raises `AttributeError` on every message. */
  lemma NoDatabaseRaises(room: Room, sender: string, message: string, rows: seq<Row>)
    ensures RunAsWritten(false, room, sender, message, rows) == (Raised(AttributeError), rows)
  {
  }

  /** The corrected gate: without a database every message is declined. */
  lemma NoDatabaseDeclines(room: Room, sender: string, message: string, rows: seq<Row>)
    requires WellFormedMessage(message)
    ensures RunSpec(false, room, sender, message, rows) == (Declined, rows)
  {
    RunDeclines(false, room, sender, message, rows);
  }

  /** As written, a message whose token is no key of the operation dictionaries is
      declined, whatever command it names. */
  lemma DeclinedAsWritten(room: Room, sender: string, message: string, rows: seq<Row>)
    requires WellFormedMessage(message) && !AliasesMatch(EntryKeys, message)
    ensures RunAsWritten(true, room, sender, message, rows) == (Declined, rows)
  {
    GateAsWritten(message);
  }

  /** As written, a token that is a key opens the gate, and the first command test then
      meets the compiled pattern stored under `argument_regex`, which is not iterable: `run`
      raises `TypeError`. */
  lemma KeyTokenRaisesAsWritten(room: Room, sender: string, message: string, rows: seq<Row>)
    requires WellFormedMessage(message) && AliasesMatch(EntryKeys, message)
    ensures RunAsWritten(true, room, sender, message, rows) == (Raised(TypeError), rows)
  {
    GateAsWritten(message);
    KeyIsNoHighlightAllAlias(message);
    FirstTestRaises(message);
    var tests := BranchTestsAsWritten(message);
    assert tests[0] == Err(TypeError);
    RunWithFirstTestRaises(ShouldRunAsWritten(true, message), tests, room, sender,
                           GetArgument(message), GroupAndUsers(message), rows);
  }

  /** The `!hlall` test as written, on a token none of its aliases is: the alias list gives
      no match, and iterating the pattern that follows it raises. */
  lemma FirstTestRaises(message: string)
    requires !AllSpace(message) && !AliasesMatch(HighlightAllAliases, message)
    ensures Matches(OperationEntry(HighlightAllAliases, "[.+]?"), message) == Err(TypeError)
  {
    AnyCommandOverStrings(HighlightAllAliases, message);
    EntryRaisesPastCommands(HighlightAllAliases, "[.+]?", message);
  }

  /** An operation dictionary whose alias list gives no match: the search goes on to the
      compiled pattern, and iterating it raises. */
  lemma EntryRaisesPastCommands(commands: seq<string>, regex: string, message: string)
    requires message != [] && AnyCommandMatches(StrList(commands), message) == Ok(false)
    ensures Matches(OperationEntry(commands, regex), message) == Err(TypeError)
  {
    EntryLoopRaises(commands, regex, GetCommand(message));
  }

  /** The search over an operation dictionary, given the token, when its alias list gives no
      match. */
  lemma EntryLoopRaises(commands: seq<string>, regex: string, token: Result<string>)
    requires AliasLoop(StrList(commands), token) == Ok(false)
    ensures OperationLoop(OperationEntry(commands, regex).entries, token) == Err(TypeError)
  {
    var entries := [("commands", PyList(StrList(commands))), ("argument_regex", PyPattern(regex))];
    assert OperationEntry(commands, regex) == PyDict(entries);
    assert ValueTest(entries[0].1, token) == Ok(false);
    assert ValueTest(entries[1].1, token) == Err(TypeError);
    assert entries[1..][1..] == [];
  }

  /** `run` past an open gate, when the first command test raises. */
  lemma RunWithFirstTestRaises(gate: Result<bool>, tests: seq<Result<bool>>, room: Room, sender: string,
                               argument: Option<string>, parsed: Option<(string, seq<string>)>, rows: seq<Row>)
    requires gate == Ok(true) && tests != [] && tests[0].Err?
    requires argument.Some? ==> !AllSpace(argument.value)
    ensures RunWith(gate, tests, room, sender, argument, parsed, rows) == (Raised(tests[0].error), rows)
  {
  }

  /** Neither key is an alias of `!hlall`: the lengths differ. */
  lemma KeyIsNoHighlightAllAlias(message: string)
    requires AliasesMatch(EntryKeys, message)
    ensures !AliasesMatch(HighlightAllAliases, message)
  {
    var token := GetCommand(message).value;
    var i :| 0 <= i < |EntryKeys| && EntryKeys[i] != [] && LowerStr(EntryKeys[i]) == LowerStr(token);
    KeyLengthsDiffer(token, i);
    HighlightScenarios.NoAliasMatches(HighlightAllAliases, message);
  }

  /** A token that lowers to one of the keys lowers to no alias of `!hlall`. */
  lemma KeyLengthsDiffer(token: string, i: nat)
    requires i < |EntryKeys| && LowerStr(EntryKeys[i]) == LowerStr(token)
    ensures forall j :: 0 <= j < |HighlightAllAliases| ==> LowerStr(HighlightAllAliases[j]) != LowerStr(token)
  {
    assert |LowerStr(token)| == |EntryKeys[i]|;
    assert |EntryKeys[i]| == 8 || |EntryKeys[i]| == 14;
    forall j | 0 <= j < |HighlightAllAliases|
      ensures LowerStr(HighlightAllAliases[j]) != LowerStr(token)
    {
      assert |LowerStr(HighlightAllAliases[j])| == |HighlightAllAliases[j]|;
      assert |HighlightAllAliases[j]| == 6 || |HighlightAllAliases[j]| == 13;
    }
  }

  /** `!hlall` itself: declined as written, answered once corrected. */
  lemma HighlightAllDeclinedAsWritten(room: Room, sender: string, message: string, rows: seq<Row>)
    requires GetCommand(message) == Ok("!hlall")
    ensures RunAsWritten(true, room, sender, message, rows) == (Declined, rows)
    ensures RunSpec(true, room, sender, message, rows).0.Replied?
  {
    HighlightAllIsNoKey(message);
    DeclinedAsWritten(room, sender, message, rows);
    HighlightScenarios.HighlightAllSelected(room, sender, message, rows);
  }

  /** `!hlall` is neither key: the lengths differ. */
  lemma HighlightAllIsNoKey(message: string)
    requires GetCommand(message) == Ok("!hlall")
    ensures !AliasesMatch(EntryKeys, message)
  {
    var token := GetCommand(message).value;
    assert |LowerStr(token)| == 6;
    forall j | 0 <= j < |EntryKeys|
      ensures LowerStr(EntryKeys[j]) != LowerStr(token)
    {
      assert |LowerStr(EntryKeys[j])| == |EntryKeys[j]|;
      assert |EntryKeys[j]| == 8 || |EntryKeys[j]| == 14;
    }
    HighlightScenarios.NoAliasMatches(EntryKeys, message);
  }
}
