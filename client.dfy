/** chaanbot/client.py: the bot's client. It loads the modules, reads the admission lists
    from the configuration, decides which rooms to join (on start-up and on invites), and
    hands each text message of a joined room to the modules in order.

    The chat transport is outside the model: the rooms the client knows are a constant
    `rooms`, and each call of `join_room(x)` followed by `add_listener(_on_room_event)` is
    recorded as `x` in the log `joins`. What a module's `run` returns is a parameter
    `claims`. */
module BotClient {
  import opened Python
  import opened Text
  import opened MatrixUtility

  // ---------------------------------------------------------------------------------------
  // Events

  /** A room message event: `event["sender"]`, `event["type"]`,
      `event["content"]["msgtype"]` and `event["content"]["body"]`. */
  datatype RoomEvent = RoomEvent(sender: string, eventType: string, msgtype: string, body: string)

  /** An event of an invite's `state["events"]`: its type, `content.membership`,
      `state_key` and sender. */
  datatype StateEvent = StateEvent(eventType: string, membership: string, stateKey: string, sender: string)

  /** An event of a leave's `state["timeline"]["events"]`: whether it has a `"membership"`
      key, and its sender. */
  datatype TimelineEvent = TimelineEvent(hasMembership: bool, sender: string)

  /** A room of `matrix_client.rooms`, with its `invite_only` flag. */
  datatype ListedRoom = ListedRoom(room: Room, inviteOnly: bool)

  /** A loaded module: the name of its class and its `config["always_run"]`. */
  datatype LoadedModule = LoadedModule(className: string, alwaysRun: bool)

  /** The rooms as `get_room` sees them, in the mapping's order. */
  function RoomsOf(listed: seq<ListedRoom>): (rs: seq<Room>)
    ensures |rs| == |listed| && forall k :: 0 <= k < |listed| ==> rs[k] == listed[k].room
  {
    seq(|listed|, k requires 0 <= k < |listed| => listed[k].room)
  }

  // ---------------------------------------------------------------------------------------
  // Loading the modules

  /** `'.py' in file and '__' not in file` */
  predicate IsModuleFile(file: string) {
    Contains(file, ".py") && !Contains(file, "__")
  }

  /** The files of the modules directory that hold a module, in listing order. */
  function ModuleFiles(files: seq<string>): seq<string> {
    if files == [] then []
    else (if IsModuleFile(files[0]) then [files[0]] else []) + ModuleFiles(files[1..])
  }

  /** `module_file.replace('.py', '')` */
  function ModuleName(file: string): string {
    ReplaceAll(file, ".py", "")
  }

  /** `''.join(word.title() for word in words)` */
  function TitleWords(words: seq<string>): string {
    if words == [] then [] else Title(words[0]) + TitleWords(words[1..])
  }

  /** The class a module file must define: the title-cased words of its name between
      underscores, run together. */
  function ClassName(moduleName: string): string {
    TitleWords(SplitOn(moduleName, '_'))
  }

  /** The module a file loads, given `declared`, the `always_run` setting its class's
      configuration declares (`None` when it declares none); an absent setting becomes
      `False`. */
  function LoadOne(file: string, declared: string -> Option<bool>): LoadedModule {
    var className := ClassName(ModuleName(file));
    LoadedModule(className, declared(className) == Some(true))
  }

  /** What `_load_modules` appends, one module per module file, in listing order. */
  function Loaded(files: seq<string>, declared: string -> Option<bool>): (ms: seq<LoadedModule>)
    ensures |ms| == |ModuleFiles(files)|
  {
    var moduleFiles := ModuleFiles(files);
    seq(|moduleFiles|, k requires 0 <= k < |moduleFiles| => LoadOne(moduleFiles[k], declared))
  }

  // ---------------------------------------------------------------------------------------
  // The configuration

  /** `config.get("chaanbot", key, fallback=None)`, the section given as a map. */
  function Setting(settings: map<string, string>, key: string): Option<string> {
    if key in settings then Some(settings[key]) else None
  }

  /** `[str.strip(x) for x in s.split(",")]` */
  function CommaList(s: string): (items: seq<string>)
    ensures |items| == |SplitOn(s, ',')|
  {
    var pieces := SplitOn(s, ',');
    seq(|pieces|, k requires 0 <= k < |pieces| => Strip(pieces[k]))
  }

  /** A setting that is present and not the empty string. */
  predicate IsSet(setting: Option<string>) {
    setting.Some? && setting.value != []
  }

  /** A list setting of `_load_environment`: the comma list when the setting is set, and
      otherwise the list the client had. */
  function Configured(current: seq<string>, setting: Option<string>): seq<string> {
    if IsSet(setting) then CommaList(setting.value) else current
  }

  // ---------------------------------------------------------------------------------------
  // Admission

  /** `get_room(rooms, reference)` finds a room whose id is `id`. */
  predicate ResolvesToId(rooms: seq<Room>, reference: string, id: string) {
    GetRoomId(rooms, reference).Some? && GetRoomId(rooms, reference).value.roomId == id
  }

  /** `room.room_id if room else room_id_or_alias`: the id a reference resolves to, or the
      reference itself for a room the client does not know. */
  function ResolvedId(rooms: seq<Room>, reference: string): string {
    match GetRoomId(rooms, reference)
    case Some(room) => room.roomId
    case None => reference
  }

  /** The position of the first entry of `entries` that resolves to `id`. */
  function FirstResolving(rooms: seq<Room>, entries: seq<string>, id: string): (r: Option<nat>)
    ensures r.Some? ==> r.value < |entries| && ResolvesToId(rooms, entries[r.value], id)
    ensures r.Some? ==> forall j :: 0 <= j < r.value ==> !ResolvesToId(rooms, entries[j], id)
    ensures r.None? <==> forall j :: 0 <= j < |entries| ==> !ResolvesToId(rooms, entries[j], id)
  {
    FirstWhere(e => ResolvesToId(rooms, e, id), entries, 0)
  }

  /** The position of the first entry at or after `k` that satisfies `p`. */
  function FirstWhere(p: string -> bool, entries: seq<string>, k: nat): (r: Option<nat>)
    requires k <= |entries|
    ensures r.Some? ==> k <= r.value < |entries| && p(entries[r.value])
    ensures r.Some? ==> forall j :: k <= j < r.value ==> !p(entries[j])
    ensures r.None? <==> forall j :: k <= j < |entries| ==> !p(entries[j])
    decreases |entries| - k
  {
    if k == |entries| then None
    else if p(entries[k]) then Some(k)
    else FirstWhere(p, entries, k + 1)
  }

  /** The whitelist entries that resolve to `id`, in order: the whitelist loop as written,
      which joins once per such entry. */
  function AllResolving(rooms: seq<Room>, entries: seq<string>, id: string): seq<string> {
    if entries == [] then []
    else
      var last := entries[|entries| - 1];
      AllResolving(rooms, entries[..|entries| - 1], id) + (if ResolvesToId(rooms, last, id) then [last] else [])
  }

  /** What `_join_room(target)` joins: with a whitelist, the first whitelist entry that
      resolves to the target's id, or nothing; otherwise, with a blacklist, nothing when an
      entry resolves to the target's id and the target else; with neither, the target. */
  function JoinTargets(whitelist: seq<string>, blacklist: seq<string>, rooms: seq<Room>, target: string): seq<string> {
    var id := ResolvedId(rooms, target);
    if whitelist != [] then
      match FirstResolving(rooms, whitelist, id)
      case None => []
      case Some(k) => [whitelist[k]]
    else if blacklist != [] then
      if FirstResolving(rooms, blacklist, id).Some? then [] else [target]
    else [target]
  }

  /** `_join_room(target)` as written: the whitelist loop does not stop at the first entry
      it joins. */
  function JoinTargetsAsWritten(whitelist: seq<string>, blacklist: seq<string>, rooms: seq<Room>, target: string): seq<string> {
    var id := ResolvedId(rooms, target);
    if whitelist != [] then AllResolving(rooms, whitelist, id)
    else JoinTargets(whitelist, blacklist, rooms, target)
  }

  /** `_join_room` as a function of its target. */
  function JoinRoomOf(whitelist: seq<string>, blacklist: seq<string>, rooms: seq<Room>): string -> seq<string> {
    target => JoinTargets(whitelist, blacklist, rooms, target)
  }

  /** What `f` gives for each element of `xs`, one after the other. */
  function FlatMap(f: string -> seq<string>, xs: seq<string>): seq<string> {
    if xs == [] then [] else FlatMap(f, xs[..|xs| - 1]) + f(xs[|xs| - 1])
  }

  /** The joins of `_join_room` for each target in turn. */
  function JoinAll(whitelist: seq<string>, blacklist: seq<string>, rooms: seq<Room>, targets: seq<string>): seq<string> {
    FlatMap(JoinRoomOf(whitelist, blacklist, rooms), targets)
  }

  /** The ids of the invite-only rooms, in the mapping's order. */
  function InviteOnlyIds(listed: seq<ListedRoom>): seq<string> {
    if listed == [] then []
    else InviteOnlyIds(listed[..|listed| - 1]) +
         (if listed[|listed| - 1].inviteOnly then [listed[|listed| - 1].room.roomId] else [])
  }

  /** `listen_rooms` as a comma list, or nothing without that option. */
  function ListenRooms(settings: map<string, string>): seq<string> {
    if "listen_rooms" in settings then CommaList(settings["listen_rooms"]) else []
  }

  /** An event of an invite naming the bot as the one invited. */
  predicate IsInviteOf(event: StateEvent, botUserId: string) {
    event.eventType == "m.room.member" && event.membership == "invite" && event.stateKey == botUserId
  }

  /** The sender `_on_invite` reports: that of the first event inviting the bot, or
      "Someone". */
  function InviteSender(events: seq<StateEvent>, botUserId: string): string {
    if events == [] then "Someone"
    else if IsInviteOf(events[0], botUserId) then events[0].sender
    else InviteSender(events[1..], botUserId)
  }

  /** The invite is followed: `None` stands for an inviter check that raises
      `AttributeError` (an inviter or sender without `lower`), after which the handler
      joins anyway; otherwise some entry must equal the sender, ignoring case. */
  predicate InviteAccepted(allowedInviters: Option<seq<string>>, sender: string) {
    match allowedInviters
    case None => true
    case Some(inviters) => exists k :: 0 <= k < |inviters| && LowerStr(inviters[k]) == LowerStr(sender)
  }

  /** The actor `_on_leave` reports: the sender of the last event without a `"membership"`
      key, or "Someone". */
  function LeaveActor(events: seq<TimelineEvent>): string {
    if events == [] then "Someone"
    else if !events[|events| - 1].hasMembership then events[|events| - 1].sender
    else LeaveActor(events[..|events| - 1])
  }

  // ---------------------------------------------------------------------------------------
  // Dispatch

  /** The message `_on_room_event` hands to the modules: none for the bot's own events,
      for events that are no room message and for messages that are not text; otherwise
      the body without surrounding whitespace. */
  function EventMessage(botUserId: string, event: RoomEvent): Option<string> {
    if event.sender == botUserId then None
    else if event.eventType != "m.room.message" then None
    else if event.msgtype != "m.text" then None
    else Some(Strip(event.body))
  }

  /** `module_processed_message` before module `i`: some earlier module ran and claimed the
      message. `claims(k)` is what module `k`'s `run` returns. */
  predicate Processed(modules: seq<LoadedModule>, claims: nat -> bool, i: nat)
    requires i <= |modules|
    decreases i, 0
  {
    i > 0 && (Processed(modules, claims, i - 1) || (Runs(modules, claims, i - 1) && claims(i - 1)))
  }

  /** Module `i` runs: the message is not yet processed, or the module is `always_run`. */
  predicate Runs(modules: seq<LoadedModule>, claims: nat -> bool, i: nat)
    requires i < |modules|
    decreases i, 1
  {
    !Processed(modules, claims, i) || modules[i].alwaysRun
  }

  /** For each module, whether `_run_modules` runs it. */
  function Dispatch(modules: seq<LoadedModule>, claims: nat -> bool): (ran: seq<bool>)
    ensures |ran| == |modules|
  {
    seq(|modules|, i requires 0 <= i < |modules| => Runs(modules, claims, i))
  }

  /** What the modules claim for one message. */
  function ClaimsOn(claims: (string, nat) -> bool, message: string): nat -> bool {
    (i: nat) => claims(message, i)
  }

  // ---------------------------------------------------------------------------------------
  // The client

  class Client {
    /** `matrix_client.user_id` and `matrix_client.rooms`. */
    const botUserId: string
    const rooms: seq<ListedRoom>
    /** `allowed_inviters`, `blacklisted_room_ids`, `whitelisted_room_ids`,
        `loaded_modules`. */
    var allowedInviters: Option<seq<string>>
    var blacklist: seq<string>
    var whitelist: seq<string>
    var loadedModules: seq<LoadedModule>
    /** The references passed to `join_room`, each followed by `add_listener`. */
    var joins: seq<string>

    /** `Client(config, matrix, database)`: load the modules of `files`, then read the
        section `settings`. */
    constructor(settings: map<string, string>, files: seq<string>, declared: string -> Option<bool>,
                botUserId: string, rooms: seq<ListedRoom>)
      ensures this.botUserId == botUserId && this.rooms == rooms
      ensures loadedModules == Loaded(files, declared)
      ensures allowedInviters == (if IsSet(Setting(settings, "allowed_inviters"))
                                  then Some(CommaList(settings["allowed_inviters"])) else Some([]))
      ensures blacklist == Configured([], Setting(settings, "blacklisted_room_ids"))
      ensures whitelist == Configured([], Setting(settings, "whitelisted_room_ids"))
      ensures joins == []
    {
      this.botUserId := botUserId;
      this.rooms := rooms;
      allowedInviters := Some([]);
      blacklist := [];
      whitelist := [];
      loadedModules := [];
      joins := [];
      new;
      LoadModules(files, declared);
      LoadEnvironment(settings);
    }

    /** `_load_modules`: one module per module file, appended in listing order. */
    method LoadModules(files: seq<string>, declared: string -> Option<bool>)
      modifies this`loadedModules
      ensures loadedModules == old(loadedModules) + Loaded(files, declared)
    {
      var moduleFiles := ModuleFiles(files);
      ghost var loaded := Loaded(files, declared);
      var modules := loadedModules;
      var i := 0;
      while i < |moduleFiles|
        invariant 0 <= i <= |moduleFiles|
        invariant modules == old(loadedModules) + loaded[..i]
      {
        var file := moduleFiles[i];
        var className := ClassName(ModuleName(file));
        var alwaysRun := declared(className);
        var instance := LoadedModule(className, if alwaysRun.Some? then alwaysRun.value else false);
        assert instance == LoadOne(file, declared) == loaded[i];
        assert loaded[..i + 1] == loaded[..i] + [instance];
        modules := modules + [instance];
        i := i + 1;
      }
      assert loaded[..i] == loaded;
      loadedModules := modules;
    }

    /** `_load_environment`: each list that is set becomes its comma list; the others keep
        their value. */
    method LoadEnvironment(settings: map<string, string>)
      modifies this`allowedInviters, this`blacklist, this`whitelist
      ensures allowedInviters == (if IsSet(Setting(settings, "allowed_inviters"))
                                  then Some(CommaList(settings["allowed_inviters"])) else old(allowedInviters))
      ensures blacklist == Configured(old(blacklist), Setting(settings, "blacklisted_room_ids"))
      ensures whitelist == Configured(old(whitelist), Setting(settings, "whitelisted_room_ids"))
    {
      var inviters := Setting(settings, "allowed_inviters");
      if inviters.Some? && inviters.value != [] {
        allowedInviters := Some(CommaList(inviters.value));
      }
      var blacklisted := Setting(settings, "blacklisted_room_ids");
      if blacklisted.Some? && blacklisted.value != [] {
        blacklist := CommaList(blacklisted.value);
      }
      var whitelisted := Setting(settings, "whitelisted_room_ids");
      if whitelisted.Some? && whitelisted.value != [] {
        whitelist := CommaList(whitelisted.value);
      }
    }

    /** `_join_room(target)`, joining at most once. */
    method JoinRoom(target: string)
      modifies this`joins
      ensures joins == old(joins) + JoinTargets(whitelist, blacklist, RoomsOf(rooms), target)
    {
      var known := RoomsOf(rooms);
      var roomId := ResolvedId(known, target);
      JoinTargetsCases(whitelist, blacklist, known, target);
      if whitelist != [] {
        JoinWhitelisted(roomId);
      } else if blacklist != [] {
        JoinUnlessBlacklisted(target, roomId);
      } else {
        joins := joins + [target];
      }
    }

    /** The whitelist loop of `_join_room`: join the first entry that resolves to the
        target's id. */
    method JoinWhitelisted(roomId: string)
      modifies this`joins
      ensures var first := FirstResolving(RoomsOf(rooms), whitelist, roomId);
        joins == old(joins) + (if first.Some? then [whitelist[first.value]] else [])
    {
      var known, entries := RoomsOf(rooms), whitelist;
      var i := 0;
      while i < |entries|
        invariant 0 <= i <= |entries|
        invariant forall j :: 0 <= j < i ==> !ResolvesToId(known, entries[j], roomId)
        invariant joins == old(joins)
      {
        if ResolvesToId(known, entries[i], roomId) {
          FirstResolvingAt(known, entries, roomId, i);
          joins := joins + [entries[i]];
          return;
        }
        i := i + 1;
      }
    }

    /** `_join_room(target)` as written: with a whitelist, every entry that resolves to the
        target's id is joined. */
    method JoinRoomAsWritten(target: string)
      modifies this`joins
      ensures joins == old(joins) + JoinTargetsAsWritten(whitelist, blacklist, RoomsOf(rooms), target)
    {
      var known := RoomsOf(rooms);
      var roomId := ResolvedId(known, target);
      JoinTargetsCases(whitelist, blacklist, known, target);
      if whitelist != [] {
        JoinWhitelistedAsWritten(roomId);
      } else if blacklist != [] {
        JoinUnlessBlacklisted(target, roomId);
      } else {
        joins := joins + [target];
      }
    }

    /** The whitelist loop of `_join_room` as written: it does not stop after a join. */
    method JoinWhitelistedAsWritten(roomId: string)
      modifies this`joins
      ensures joins == old(joins) + AllResolving(RoomsOf(rooms), whitelist, roomId)
    {
      var known := RoomsOf(rooms);
      var i := 0;
      while i < |whitelist|
        invariant 0 <= i <= |whitelist|
        invariant joins == old(joins) + AllResolving(known, whitelist[..i], roomId)
      {
        AllResolvingSnoc(known, whitelist, roomId, i);
        if ResolvesToId(known, whitelist[i], roomId) {
          joins := joins + [whitelist[i]];
        }
        i := i + 1;
      }
      assert whitelist[..i] == whitelist;
    }

    /** The blacklist loop of `_join_room`: join the target unless an entry resolves to its
        id. */
    method JoinUnlessBlacklisted(target: string, roomId: string)
      modifies this`joins
      ensures joins == old(joins) + (if FirstResolving(RoomsOf(rooms), blacklist, roomId).Some? then [] else [target])
    {
      var known, entries := RoomsOf(rooms), blacklist;
      var i := 0;
      while i < |entries|
        invariant 0 <= i <= |entries|
        invariant forall j :: 0 <= j < i ==> !ResolvesToId(known, entries[j], roomId)
        invariant joins == old(joins)
      {
        if ResolvesToId(known, entries[i], roomId) {
          FirstResolvingAt(known, entries, roomId, i);
          return;
        }
        i := i + 1;
      }
      joins := joins + [target];
    }

    /** `_join_rooms`: the `listen_rooms`, then every invite-only room the client knows. */
    method JoinRooms(settings: map<string, string>)
      modifies this`joins
      ensures joins == old(joins) + JoinAll(whitelist, blacklist, RoomsOf(rooms), ListenRooms(settings) + InviteOnlyIds(rooms))
    {
      var allowed, refused, known := whitelist, blacklist, RoomsOf(rooms);
      var listenRooms := ListenRooms(settings);
      JoinEach(listenRooms);
      ghost var afterListen := joins;
      assert allowed == whitelist && refused == blacklist;
      assert afterListen == old(joins) + JoinAll(allowed, refused, known, listenRooms);
      JoinInviteOnly();
      assert allowed == whitelist && refused == blacklist;
      assert joins == afterListen + JoinAll(allowed, refused, known, InviteOnlyIds(rooms));
      JoinAllConcat(allowed, refused, known, listenRooms, InviteOnlyIds(rooms));
      AppendAssociative(old(joins), JoinAll(allowed, refused, known, listenRooms),
                        JoinAll(allowed, refused, known, InviteOnlyIds(rooms)));
    }

    /** The first loop of `_join_rooms`: `_join_room` for each listed room in turn. */
    method JoinEach(targets: seq<string>)
      modifies this`joins
      ensures joins == old(joins) + JoinAll(whitelist, blacklist, RoomsOf(rooms), targets)
    {
      var allowed, refused, known := whitelist, blacklist, RoomsOf(rooms);
      var i := 0;
      while i < |targets|
        invariant 0 <= i <= |targets|
        invariant allowed == whitelist && refused == blacklist
        invariant joins == old(joins) + JoinAll(allowed, refused, known, targets[..i])
      {
        ghost var before := joins;
        JoinRoom(targets[i]);
        FlatMapStep(JoinRoomOf(allowed, refused, known), old(joins), before, joins, targets, i);
        i := i + 1;
      }
      assert targets[..i] == targets;
    }

    /** The second loop of `_join_rooms`: `_join_room` for each invite-only room the client
        knows. */
    method JoinInviteOnly()
      modifies this`joins
      ensures joins == old(joins) + JoinAll(whitelist, blacklist, RoomsOf(rooms), InviteOnlyIds(rooms))
    {
      var allowed, refused, known, joined := whitelist, blacklist, RoomsOf(rooms), rooms;
      ghost var ids: seq<string> := [];
      var k := 0;
      while k < |joined|
        invariant 0 <= k <= |joined|
        invariant allowed == whitelist && refused == blacklist && joined == rooms
        invariant ids == InviteOnlyIds(joined[..k])
        invariant joins == old(joins) + JoinAll(allowed, refused, known, ids)
      {
        InviteOnlyIdsSnoc(joined, k);
        if joined[k].inviteOnly {
          var roomId := joined[k].room.roomId;
          JoinRoom(roomId);
          JoinsAfterSnoc(old(joins), allowed, refused, known, ids, roomId);
          ids := ids + [roomId];
        }
        k := k + 1;
      }
      assert joined[..k] == joined;
    }

    /** `_on_invite(room_id, state)`: find who invited the bot, and join when the inviter
        list allows it. */
    method OnInvite(roomId: string, events: seq<StateEvent>)
      modifies this`joins
      ensures joins == old(joins) +
        (if InviteAccepted(allowedInviters, InviteSender(events, botUserId))
         then JoinTargets(whitelist, blacklist, RoomsOf(rooms), roomId) else [])
    {
      var sender := "Someone";
      var i := 0;
      while i < |events|
        invariant 0 <= i <= |events|
        invariant sender == "Someone" && InviteSender(events, botUserId) == InviteSender(events[i..], botUserId)
      {
        if IsInviteOf(events[i], botUserId) {
          sender := events[i].sender;
          break;
        }
        assert events[i..][1..] == events[i + 1..];
        i := i + 1;
      }
      assert sender == InviteSender(events, botUserId);
      if allowedInviters.None? {
        JoinRoom(roomId);
        return;
      }
      var inviters := allowedInviters.value;
      var k := 0;
      while k < |inviters|
        invariant 0 <= k <= |inviters|
        invariant forall j :: 0 <= j < k ==> LowerStr(inviters[j]) != LowerStr(sender)
      {
        if LowerStr(inviters[k]) == LowerStr(sender) {
          JoinRoom(roomId);
          return;
        }
        k := k + 1;
      }
    }

    /** `_on_room_event(room, event)`: which modules run on the message the event carries;
        none when it carries none. `claims(m, k)` is what module `k` returns on the
        message `m`. */
    method OnRoomEvent(event: RoomEvent, claims: (string, nat) -> bool) returns (ran: seq<bool>)
      ensures ran == match EventMessage(botUserId, event)
                     case None => []
                     case Some(message) => Dispatch(loadedModules, ClaimsOn(claims, message))
    {
      if event.sender == botUserId {
        return [];
      }
      if event.eventType != "m.room.message" {
        return [];
      }
      if event.msgtype != "m.text" {
        return [];
      }
      var message := Strip(event.body);
      ran := RunModules(ClaimsOn(claims, message));
    }

    /** `_run_modules`: a module runs while no earlier one has claimed the message, and an
        `always_run` module runs in any case. */
    method RunModules(claims: nat -> bool) returns (ran: seq<bool>)
      ensures ran == Dispatch(loadedModules, claims)
    {
      var processed := false;
      ran := [];
      var i := 0;
      while i < |loadedModules|
        invariant 0 <= i <= |loadedModules|
        invariant processed == Processed(loadedModules, claims, i)
        invariant ran == Dispatch(loadedModules, claims)[..i]
      {
        var runs := !processed || loadedModules[i].alwaysRun;
        assert runs == Runs(loadedModules, claims, i);
        if runs && claims(i) {
          processed := true;
        }
        ran := ran + [runs];
        i := i + 1;
      }
    }
  }

  /** `_on_leave(room_id, state)`: the actor it reports. */
  method OnLeave(events: seq<TimelineEvent>) returns (sender: string)
    ensures sender == LeaveActor(events)
  {
    sender := "Someone";
    var i := 0;
    while i < |events|
      invariant 0 <= i <= |events|
      invariant sender == LeaveActor(events[..i])
    {
      assert events[..i + 1][..i] == events[..i];
      if !events[i].hasMembership {
        sender := events[i].sender;
      }
      i := i + 1;
    }
    assert events[..i] == events;
  }

  /** The admission decision by cases of the lists and of the first entry resolving to the
      target's id. */
  lemma JoinTargetsCases(whitelist: seq<string>, blacklist: seq<string>, rooms: seq<Room>, target: string)
    ensures var first := FirstResolving(rooms, whitelist, ResolvedId(rooms, target));
      whitelist != [] ==>
        JoinTargets(whitelist, blacklist, rooms, target) == (if first.Some? then [whitelist[first.value]] else [])
    ensures whitelist == [] && blacklist != [] ==>
      JoinTargets(whitelist, blacklist, rooms, target) ==
        (if FirstResolving(rooms, blacklist, ResolvedId(rooms, target)).Some? then [] else [target])
    ensures whitelist == [] && blacklist == [] ==> JoinTargets(whitelist, blacklist, rooms, target) == [target]
  {
  }

  /** The first entry resolving to `id` is the one before which none does. */
  lemma FirstResolvingAt(rooms: seq<Room>, entries: seq<string>, id: string, i: nat)
    requires i < |entries| && ResolvesToId(rooms, entries[i], id)
    requires forall j :: 0 <= j < i ==> !ResolvesToId(rooms, entries[j], id)
    ensures FirstResolving(rooms, entries, id) == Some(i)
  {
    var r := FirstResolving(rooms, entries, id);
    assert r.Some?;
    assert !(r.value < i);
    assert !(r.value > i);
  }

  lemma JoinAllSnoc(whitelist: seq<string>, blacklist: seq<string>, rooms: seq<Room>, xs: seq<string>, x: string)
    ensures JoinAll(whitelist, blacklist, rooms, xs + [x]) ==
      JoinAll(whitelist, blacklist, rooms, xs) + JoinTargets(whitelist, blacklist, rooms, x)
  {
    assert (xs + [x])[..|xs|] == xs;
  }

  /** One turn of a loop that appends what `f` gives for each element in turn. */
  lemma FlatMapStep(f: string -> seq<string>, start: seq<string>, before: seq<string>, after: seq<string>,
                    xs: seq<string>, i: nat)
    requires i < |xs|
    requires before == start + FlatMap(f, xs[..i])
    requires after == before + f(xs[i])
    ensures after == start + FlatMap(f, xs[..i + 1])
  {
    assert xs[..i + 1][..i] == xs[..i];
  }

  lemma InviteOnlyIdsSnoc(listed: seq<ListedRoom>, k: nat)
    requires k < |listed|
    ensures InviteOnlyIds(listed[..k + 1]) ==
      InviteOnlyIds(listed[..k]) + (if listed[k].inviteOnly then [listed[k].room.roomId] else [])
  {
    assert listed[..k + 1][..k] == listed[..k];
  }

  /** The entries resolving to `id` among the first `i + 1`. */
  lemma AllResolvingSnoc(rooms: seq<Room>, entries: seq<string>, id: string, i: nat)
    requires i < |entries|
    ensures AllResolving(rooms, entries[..i + 1], id) ==
      AllResolving(rooms, entries[..i], id) + (if ResolvesToId(rooms, entries[i], id) then [entries[i]] else [])
  {
    assert entries[..i + 1][..i] == entries[..i];
  }

  /** The joins recorded after one more target of a loop over targets. */
  lemma JoinsAfterSnoc(start: seq<string>, whitelist: seq<string>, blacklist: seq<string>, rooms: seq<Room>,
                       xs: seq<string>, x: string)
    ensures start + JoinAll(whitelist, blacklist, rooms, xs) + JoinTargets(whitelist, blacklist, rooms, x) ==
      start + JoinAll(whitelist, blacklist, rooms, xs + [x])
  {
    JoinAllSnoc(whitelist, blacklist, rooms, xs, x);
    AppendAssociative(start, JoinAll(whitelist, blacklist, rooms, xs), JoinTargets(whitelist, blacklist, rooms, x));
  }

  lemma AppendAssociative(a: seq<string>, b: seq<string>, c: seq<string>)
    ensures (a + b) + c == a + (b + c)
  {
  }

  /** The joins for a list of targets are those for any split of it, one after the other. */
  lemma JoinAllConcat(whitelist: seq<string>, blacklist: seq<string>, rooms: seq<Room>,
                      xs: seq<string>, ys: seq<string>)
    ensures JoinAll(whitelist, blacklist, rooms, xs + ys) ==
      JoinAll(whitelist, blacklist, rooms, xs) + JoinAll(whitelist, blacklist, rooms, ys)
  {
    FlatMapConcat(JoinRoomOf(whitelist, blacklist, rooms), xs, ys);
  }

  lemma {:induction false} FlatMapConcat(f: string -> seq<string>, xs: seq<string>, ys: seq<string>)
    ensures FlatMap(f, xs + ys) == FlatMap(f, xs) + FlatMap(f, ys)
    decreases |ys|
  {
    if ys == [] {
      assert xs + ys == xs;
    } else {
      var init, last := ys[..|ys| - 1], ys[|ys| - 1];
      assert ys == init + [last];
      assert xs + ys == (xs + init) + [last];
      FlatMapConcat(f, xs, init);
      FlatMapSnoc(f, xs + init, last);
      FlatMapSnoc(f, init, last);
    }
  }

  /** When what `f` gives for an element is made of that element, and only when `ok` holds
      of it, what `f` gives for a list is made of elements of the list for which `ok`
      holds. */
  lemma {:induction false} FlatMapKeeps(f: string -> seq<string>, ok: string -> bool, xs: seq<string>)
    requires forall t :: t in xs ==> forall x :: x in f(t) ==> x == t && ok(t)
    ensures forall x :: x in FlatMap(f, xs) ==> x in xs && ok(x)
    decreases |xs|
  {
    if xs != [] {
      var init := xs[..|xs| - 1];
      assert forall t :: t in init ==> t in xs;
      FlatMapKeeps(f, ok, init);
    }
  }

  lemma FlatMapSnoc(f: string -> seq<string>, xs: seq<string>, x: string)
    ensures FlatMap(f, xs + [x]) == FlatMap(f, xs) + f(x)
  {
    assert (xs + [x])[..|xs|] == xs;
  }
}
