/** Properties of the client model: the order in which modules see a message, the
    admission lists, the inviter check, the leave report, the comma lists of the
    configuration and the loading of modules. */
module ClientProperties {
  import opened Python
  import opened Text
  import opened MatrixUtility
  import opened BotClient

  // ---------------------------------------------------------------------------------------
  // Dispatch

  /** The message is processed before module `i` exactly when some earlier module ran and
      claimed it. */
  lemma {:induction false} ProcessedMeaning(modules: seq<LoadedModule>, claims: nat -> bool, i: nat)
    requires i <= |modules|
    ensures Processed(modules, claims, i) <==> exists j :: 0 <= j < i && Runs(modules, claims, j) && claims(j)
    decreases i
  {
    if i > 0 {
      ProcessedMeaning(modules, claims, i - 1);
      if Runs(modules, claims, i - 1) && claims(i - 1) {
        assert exists j :: 0 <= j < i && Runs(modules, claims, j) && claims(j);
      }
    }
  }

  /** Module `i` runs exactly when it is `always_run` or no module before it ran and
      claimed the message. */
  lemma DispatchMeaning(modules: seq<LoadedModule>, claims: nat -> bool, i: nat)
    requires i < |modules|
    ensures var ran := Dispatch(modules, claims);
      ran[i] <==> (modules[i].alwaysRun || forall j :: 0 <= j < i ==> !(ran[j] && claims(j)))
  {
    var ran := Dispatch(modules, claims);
    ProcessedMeaning(modules, claims, i);
    assert forall j :: 0 <= j < i ==> ran[j] == Runs(modules, claims, j);
  }

  /** The first module always runs. */
  lemma FirstModuleRuns(modules: seq<LoadedModule>, claims: nat -> bool)
    requires modules != []
    ensures Dispatch(modules, claims)[0]
  {
    DispatchMeaning(modules, claims, 0);
  }

  /** Once a module has claimed the message, only `always_run` modules run after it. */
  lemma OnlyAlwaysRunAfterClaim(modules: seq<LoadedModule>, claims: nat -> bool, j: nat, i: nat)
    requires j < i < |modules|
    requires Dispatch(modules, claims)[j] && claims(j)
    ensures Dispatch(modules, claims)[i] <==> modules[i].alwaysRun
  {
    DispatchMeaning(modules, claims, i);
  }

  /** When no module that runs claims the message, every module runs. */
  lemma {:induction false} NoClaimAllRun(modules: seq<LoadedModule>, claims: nat -> bool, i: nat)
    requires i < |modules|
    requires forall k :: 0 <= k < |modules| ==> !claims(k)
    ensures Dispatch(modules, claims)[i]
  {
    ProcessedMeaning(modules, claims, i);
  }

  /** `shifted` is `claims` with position `p` taken out. */
  ghost predicate Without(claims: nat -> bool, p: nat, shifted: nat -> bool) {
    forall k: nat {:trigger shifted(k)} :: shifted(k) == if k < p then claims(k) else claims(k + 1)
  }

  /** A module that does not claim the message leaves unchanged which of the others run:
      the modules `with`, which are `without` with one more module at position `p`, run
      under `claims` as `without` does under the same claims with position `p` taken
      out. */
  lemma {:induction false} ProcessedWithout(with: seq<LoadedModule>, without: seq<LoadedModule>, p: nat,
                                            claims: nat -> bool, shifted: nat -> bool, i: nat)
    requires p < |with| == |without| + 1
    requires Without(claims, p, shifted)
    requires with[..p] == without[..p] && with[p + 1..] == without[p..]
    requires !claims(p)
    requires i <= |with|
    ensures i <= p ==> Processed(with, claims, i) == Processed(without, shifted, i)
    ensures i > p ==> Processed(with, claims, i) == Processed(without, shifted, i - 1)
    decreases i
  {
    if i > 0 {
      ProcessedWithout(with, without, p, claims, shifted, i - 1);
      var before := Processed(with, claims, i - 1);
      assert Processed(with, claims, i) == (before || (Runs(with, claims, i - 1) && claims(i - 1)));
      if i - 1 < p {
        assert with[i - 1] == with[..p][i - 1] == without[..p][i - 1] == without[i - 1];
        assert shifted(i - 1) == claims(i - 1);
        assert Processed(without, shifted, i) ==
          (before || (Runs(without, shifted, i - 1) && shifted(i - 1)));
      } else if i - 1 > p {
        assert with[i - 1] == with[p + 1..][i - p - 2] == without[p..][i - p - 2] == without[i - 2];
        assert shifted(i - 2) == claims(i - 1);
        assert Processed(without, shifted, i - 1) ==
          (before || (Runs(without, shifted, i - 2) && shifted(i - 2)));
      }
    }
  }

  /** `_run_modules` with a module that never claims a message: the other modules run as
      they would without it. */
  lemma NonClaimingModuleTransparent(pre: seq<LoadedModule>, m: LoadedModule, post: seq<LoadedModule>,
                                     claims: nat -> bool, shifted: nat -> bool, k: nat)
    requires !claims(|pre|)
    requires Without(claims, |pre|, shifted)
    requires k < |pre| + |post|
    ensures k < |pre| ==> Dispatch(pre + [m] + post, claims)[k] == Dispatch(pre + post, shifted)[k]
    ensures k >= |pre| ==> Dispatch(pre + [m] + post, claims)[k + 1] == Dispatch(pre + post, shifted)[k]
  {
    var with, without := pre + [m] + post, pre + post;
    assert with[..|pre|] == pre == without[..|pre|];
    assert with[|pre| + 1..] == post == without[|pre|..];
    if k < |pre| {
      ProcessedWithout(with, without, |pre|, claims, shifted, k);
      assert with[k] == without[k];
    } else {
      ProcessedWithout(with, without, |pre|, claims, shifted, k + 1);
      assert with[k + 1] == without[k];
    }
  }

  /** Two modules, the first claiming the message: the second, not `always_run`, does not
      run; an `always_run` second module does. */
  lemma ClaimScenario(first: LoadedModule, second: LoadedModule, claims: nat -> bool)
    requires claims(0)
    ensures Dispatch([first, second], claims) == [true, second.alwaysRun]
  {
    OnlyAlwaysRunAfterClaim([first, second], claims, 0, 1);
    FirstModuleRuns([first, second], claims);
  }

  /** Events the bot sent itself, events other than room messages and messages that are
      not text reach no module; the others reach the modules stripped. */
  lemma EventMessageMeaning(botUserId: string, event: RoomEvent)
    ensures EventMessage(botUserId, event).Some? <==>
      (event.sender != botUserId && event.eventType == "m.room.message" && event.msgtype == "m.text")
    ensures match EventMessage(botUserId, event)
            case None => true
            case Some(message) =>
              |message| <= |event.body| && (message == [] || (!IsSpace(message[0]) && !IsSpace(message[|message| - 1])))
  {
  }

  // ---------------------------------------------------------------------------------------
  // Admission

  /** With a whitelist, a reference is joined at most once, exactly when some whitelist
      entry resolves to its id, and what is joined is such an entry; the blacklist plays
      no part. */
  lemma WhitelistAdmission(whitelist: seq<string>, blacklist: seq<string>, rooms: seq<Room>, target: string)
    requires whitelist != []
    ensures var joined := JoinTargets(whitelist, blacklist, rooms, target);
      && |joined| <= 1
      && (joined != [] <==>
            exists k :: 0 <= k < |whitelist| && ResolvesToId(rooms, whitelist[k], ResolvedId(rooms, target)))
      && (joined != [] ==> joined[0] in whitelist && ResolvesToId(rooms, joined[0], ResolvedId(rooms, target)))
      && joined == JoinTargets(whitelist, [], rooms, target)
  {
    JoinTargetsCases(whitelist, blacklist, rooms, target);
    JoinTargetsCases(whitelist, [], rooms, target);
  }

  /** With a blacklist and no whitelist, the reference itself is joined unless some
      blacklist entry resolves to its id. */
  lemma BlacklistAdmission(blacklist: seq<string>, rooms: seq<Room>, target: string)
    requires blacklist != []
    ensures var joined := JoinTargets([], blacklist, rooms, target);
      && (joined == [] <==>
            exists k :: 0 <= k < |blacklist| && ResolvesToId(rooms, blacklist[k], ResolvedId(rooms, target)))
      && (joined != [] ==> joined == [target])
  {
    JoinTargetsCases([], blacklist, rooms, target);
  }

  /** With neither list, every reference of a list is joined, in order. */
  lemma {:induction false} OpenAdmission(rooms: seq<Room>, targets: seq<string>)
    ensures JoinAll([], [], rooms, targets) == targets
    decreases |targets|
  {
    if targets != [] {
      OpenAdmission(rooms, targets[..|targets| - 1]);
      JoinTargetsCases([], [], rooms, targets[|targets| - 1]);
    }
  }

  /** With a whitelist, only whitelist entries are ever joined, at most one per target. */
  lemma {:induction false} OnlyWhitelistedJoined(whitelist: seq<string>, blacklist: seq<string>,
                                                 rooms: seq<Room>, targets: seq<string>)
    requires whitelist != []
    ensures |JoinAll(whitelist, blacklist, rooms, targets)| <= |targets|
    ensures forall x :: x in JoinAll(whitelist, blacklist, rooms, targets) ==> x in whitelist
    decreases |targets|
  {
    if targets != [] {
      OnlyWhitelistedJoined(whitelist, blacklist, rooms, targets[..|targets| - 1]);
      WhitelistAdmission(whitelist, blacklist, rooms, targets[|targets| - 1]);
    }
  }

  /** With a blacklist and no whitelist, every joined reference is one of the targets and
      no blacklist entry resolves to its id. */
  lemma NoBlacklistedJoined(blacklist: seq<string>, rooms: seq<Room>, targets: seq<string>)
    requires blacklist != []
    ensures forall x :: x in JoinAll([], blacklist, rooms, targets) ==>
      x in targets && forall k :: 0 <= k < |blacklist| ==> !ResolvesToId(rooms, blacklist[k], ResolvedId(rooms, x))
  {
    var admit := JoinRoomOf([], blacklist, rooms);
    var clear := (t: string) => forall k :: 0 <= k < |blacklist| ==> !ResolvesToId(rooms, blacklist[k], ResolvedId(rooms, t));
    forall t | t in targets
      ensures forall x :: x in admit(t) ==> x == t && clear(t)
    {
      BlacklistAdmission(blacklist, rooms, t);
    }
    FlatMapKeeps(admit, clear, targets);
  }

  /** The whitelist loop as written joins once for every entry that resolves to the
      target's id: two entries naming one room, by id and by canonical alias, make two
      joins of that room, where the corrected loop makes one. */
  lemma DuplicateWhitelistJoinAsWritten()
    ensures var room := Room("!r:x", Some("#r:x"), None, [], []);
      && JoinTargetsAsWritten(["!r:x", "#r:x"], [], [room], "!r:x") == ["!r:x", "#r:x"]
      && JoinTargets(["!r:x", "#r:x"], [], [room], "!r:x") == ["!r:x"]
  {
    var room := Room("!r:x", Some("#r:x"), None, [], []);
    var rooms, whitelist := [room], ["!r:x", "#r:x"];
    assert MatchesOn(room, ById, "!r:x");
    assert GetRoomId(rooms, "!r:x") == Some(room);
    assert !MatchesOn(room, ById, "#r:x") && MatchesOn(room, ByCanonicalAlias, "#r:x");
    assert GetRoomId(rooms, "#r:x") == Some(room);
    assert ResolvedId(rooms, "!r:x") == "!r:x";
    assert whitelist[1..] == ["#r:x"] && whitelist[1..][1..] == [];
    assert AllResolving(rooms, whitelist, "!r:x") == ["!r:x"] + AllResolving(rooms, ["#r:x"], "!r:x");
    JoinTargetsCases(whitelist, [], rooms, "!r:x");
  }

  // ---------------------------------------------------------------------------------------
  // Invites and leaves

  /** The sender of the first event inviting the bot is the one reported. */
  lemma {:induction false} InviteSenderFirst(events: seq<StateEvent>, botUserId: string, k: nat)
    requires k < |events| && IsInviteOf(events[k], botUserId)
    requires forall j :: 0 <= j < k ==> !IsInviteOf(events[j], botUserId)
    ensures InviteSender(events, botUserId) == events[k].sender
    decreases k
  {
    if k > 0 {
      assert !IsInviteOf(events[0], botUserId);
      InviteSenderFirst(events[1..], botUserId, k - 1);
    }
  }

  /** Without an event inviting the bot, the inviter is reported as "Someone". */
  lemma {:induction false} InviteSenderAbsent(events: seq<StateEvent>, botUserId: string)
    requires forall j :: 0 <= j < |events| ==> !IsInviteOf(events[j], botUserId)
    ensures InviteSender(events, botUserId) == "Someone"
    decreases |events|
  {
    if events != [] {
      assert !IsInviteOf(events[0], botUserId);
      InviteSenderAbsent(events[1..], botUserId);
    }
  }

  /** The inviter check ignores case, and an empty inviter list turns every invite away. */
  lemma InviterCheckIgnoresCase(inviters: seq<string>, sender: string, other: string)
    requires LowerStr(sender) == LowerStr(other)
    ensures InviteAccepted(Some(inviters), sender) == InviteAccepted(Some(inviters), other)
    ensures !InviteAccepted(Some([]), sender)
  {
  }

  /** An invite from "Carol" is followed when "carol" is an allowed inviter, and one from
      "mallory" is not. */
  lemma StrangerInviteScenario()
    ensures InviteAccepted(Some(["carol"]), "Carol")
    ensures !InviteAccepted(Some(["carol"]), "mallory")
  {
    assert LowerStr("Carol") == "carol";
    assert LowerStr("carol") == "carol";
    assert LowerStr("mallory") == "mallory";
    assert ["carol"][0] == "carol";
  }

  /** The sender of the last event without a membership key is the one reported. */
  lemma {:induction false} LeaveActorLast(events: seq<TimelineEvent>, k: nat)
    requires k < |events| && !events[k].hasMembership
    requires forall j :: k < j < |events| ==> events[j].hasMembership
    ensures LeaveActor(events) == events[k].sender
    decreases |events|
  {
    if k < |events| - 1 {
      LeaveActorLast(events[..|events| - 1], k);
    }
  }

  /** When every event has a membership key, the actor is reported as "Someone". */
  lemma {:induction false} LeaveActorAbsent(events: seq<TimelineEvent>)
    requires forall j :: 0 <= j < |events| ==> events[j].hasMembership
    ensures LeaveActor(events) == "Someone"
    decreases |events|
  {
    if events != [] {
      LeaveActorAbsent(events[..|events| - 1]);
    }
  }

  // ---------------------------------------------------------------------------------------
  // Configuration

  /** A character missing from a string is missing from its stripped form. */
  lemma StripKeepsOut(s: string, c: char)
    requires c !in s
    ensures c !in Strip(s)
  {
    var l := LStrip(s);
    assert c !in l;
  }

  /** An item of a comma list: no comma in it, and no whitespace at either end. */
  predicate CleanItem(item: string) {
    ',' !in item && (item == [] || (!IsSpace(item[0]) && !IsSpace(item[|item| - 1])))
  }

  /** A comma list has one item more than the setting has commas; no item holds a comma or
      starts or ends with whitespace. */
  lemma CommaListMeaning(s: string)
    ensures |CommaList(s)| == Count(s, ',') + 1
    ensures forall k :: 0 <= k < |CommaList(s)| ==> CleanItem(CommaList(s)[k])
  {
    SplitOnCount(s, ',');
    var pieces := SplitOn(s, ',');
    var items := CommaList(s);
    forall k | 0 <= k < |items| ensures CleanItem(items[k]) {
      assert items[k] == Strip(pieces[k]);
      StripKeepsOut(pieces[k], ',');
    }
  }

  /** A list setting that is absent or empty keeps the list; one that is set replaces it. */
  lemma ConfiguredMeaning(current: seq<string>, settings: map<string, string>, key: string)
    ensures key !in settings || settings[key] == [] ==> Configured(current, Setting(settings, key)) == current
    ensures key in settings && settings[key] != [] ==>
      |Configured(current, Setting(settings, key))| == Count(settings[key], ',') + 1
  {
    if key in settings && settings[key] != [] {
      CommaListMeaning(settings[key]);
    }
  }

  // ---------------------------------------------------------------------------------------
  // Loading the modules

  /** The module files are the listed files that hold a module, each once per listing. */
  lemma {:induction false} ModuleFilesMeaning(files: seq<string>, file: string)
    ensures file in ModuleFiles(files) <==> file in files && IsModuleFile(file)
    ensures |ModuleFiles(files)| <= |files|
    decreases |files|
  {
    if files != [] {
      ModuleFilesMeaning(files[1..], file);
      assert files == [files[0]] + files[1..];
    }
  }

  /** Removing the extension of `name.py`, for a name without a dot, gives back the
      name. */
  lemma {:induction false} ModuleNameOfFile(name: string)
    requires '.' !in name
    ensures ModuleName(name + ".py") == name
    decreases |name|
  {
    if name != [] {
      var file := name + ".py";
      assert file[0] == name[0] != '.';
      assert !(".py" <= file);
      assert file[1..] == name[1..] + ".py";
      ModuleNameOfFile(name[1..]);
      assert name == [name[0]] + name[1..];
    } else {
      assert name + ".py" == ".py" && ".py" <= ".py" && ".py"[3..] == [];
    }
  }

  /** Splitting at a separator that the first part does not hold. */
  lemma SplitOnFirst(first: string, rest: string, sep: char)
    requires sep !in first
    ensures SplitOn(first + [sep] + rest, sep) == [first] + SplitOn(rest, sep)
  {
    var s := first + [sep] + rest;
    var i := IndexOf(s, sep);
    assert s[|first|] == sep;
    if i != |first| {
      assert false;
    }
    assert s[..i] == first && s[i + 1..] == rest;
  }

  /** A string without the separator is a single piece. */
  lemma SplitOnNone(s: string, sep: char)
    requires sep !in s
    ensures SplitOn(s, sep) == [s]
  {
    assert IndexOf(s, sep) == |s|;
  }

  /** The module `chan_save.py` is the class `ChanSave`. */
  lemma ChanSaveClassName()
    ensures ClassName(ModuleName("chan_save.py")) == "ChanSave"
  {
    assert "chan_save" + ".py" == "chan_save.py";
    ModuleNameOfFile("chan_save");
    ChanSaveWords();
    ChanSaveTitles();
  }

  lemma ChanSaveTitles()
    ensures TitleWords(["chan", "save"]) == "ChanSave"
  {
    var words := ["chan", "save"];
    assert Title("chan") == "Chan" by {
      assert Title("chan")[0] == Upper('c') == 'C';
    }
    assert Title("save") == "Save" by {
      assert Title("save")[0] == Upper('s') == 'S';
    }
    assert words[1..] == ["save"] && words[1..][1..] == [];
    assert TitleWords(words) == "Chan" + ("Save" + []);
  }

  lemma ChanSaveWords()
    ensures SplitOn("chan_save", '_') == ["chan", "save"]
  {
    assert "chan" + ['_'] + "save" == "chan_save";
    SplitOnFirst("chan", "save", '_');
    SplitOnNone("save", '_');
  }
}
