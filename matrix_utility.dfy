/** matrix_utility.py: resolving a room reference (an id, a canonical alias, a name or one
    of the aliases) against the rooms the client knows, and finding a joined member of a
    room by user id or display name. */
module MatrixUtility {
  import opened Python
  import opened Text

  /** A joined member of a room as the client library reports it. */
  datatype User = User(userId: string, displayName: string)

  /** A room as the client library reports it. The canonical alias and the name may be
      unset. */
  datatype Room = Room(
    roomId: string,
    canonicalAlias: Option<string>,
    name: Option<string>,
    aliases: seq<string>,
    members: seq<User>)

  /** The four keys `get_room_id` compares, in decreasing priority. */
  datatype Key = ById | ByCanonicalAlias | ByName | ByAlias

  /** `room` matches `reference` on `key`. An unset alias or name (`None`) never equals a
      string. */
  predicate MatchesOn(room: Room, key: Key, reference: string) {
    match key
    case ById => room.roomId == reference
    case ByCanonicalAlias => room.canonicalAlias == Some(reference)
    case ByName => room.name == Some(reference)
    case ByAlias => reference in room.aliases
  }

  /** `room` matches `reference` on some key. */
  predicate RoomMatches(room: Room, reference: string) {
    MatchesOn(room, ById, reference) || MatchesOn(room, ByCanonicalAlias, reference) ||
    MatchesOn(room, ByName, reference) || MatchesOn(room, ByAlias, reference)
  }

  /** One search pass of `get_room_id`: the position of the first room, in the order the
      mapping enumerates them, that matches on `key`. */
  function FirstOn(rooms: seq<Room>, key: Key, reference: string): (r: Option<nat>)
    ensures r.Some? ==> r.value < |rooms| && MatchesOn(rooms[r.value], key, reference)
    ensures r.Some? ==> forall j :: 0 <= j < r.value ==> !MatchesOn(rooms[j], key, reference)
    ensures r.None? <==> forall j :: 0 <= j < |rooms| ==> !MatchesOn(rooms[j], key, reference)
  {
    if rooms == [] then None
    else if MatchesOn(rooms[0], key, reference) then Some(0)
    else
      match FirstOn(rooms[1..], key, reference)
      case None => None
      case Some(i) => Some(i + 1)
  }

  /** Some room of `rooms` matches on `key`. */
  predicate AnyOn(rooms: seq<Room>, key: Key, reference: string) {
    exists j :: 0 <= j < |rooms| && MatchesOn(rooms[j], key, reference)
  }

  /** The key that decides the lookup: the first of the four, in priority order, on which
      some room matches. */
  function DecidingKey(rooms: seq<Room>, reference: string): Option<Key> {
    if AnyOn(rooms, ById, reference) then Some(ById)
    else if AnyOn(rooms, ByCanonicalAlias, reference) then Some(ByCanonicalAlias)
    else if AnyOn(rooms, ByName, reference) then Some(ByName)
    else if AnyOn(rooms, ByAlias, reference) then Some(ByAlias)
    else None
  }

  /** `get_room_id(rooms, reference)`: four passes over the rooms, by id, canonical alias,
      name and alias list; the first room found wins, and the function falls off its end
      (returning `None`) when no pass finds one. */
  function GetRoomId(rooms: seq<Room>, reference: string): (r: Option<Room>)
    ensures r.Some? ==> r.value in rooms && RoomMatches(r.value, reference)
    ensures r.None? <==> forall j :: 0 <= j < |rooms| ==> !RoomMatches(rooms[j], reference)
  {
    var byId := FirstOn(rooms, ById, reference);
    var byCanonical := FirstOn(rooms, ByCanonicalAlias, reference);
    var byName := FirstOn(rooms, ByName, reference);
    var byAlias := FirstOn(rooms, ByAlias, reference);
    if byId.Some? then Some(rooms[byId.value])
    else if byCanonical.Some? then Some(rooms[byCanonical.value])
    else if byName.Some? then Some(rooms[byName.value])
    else if byAlias.Some? then Some(rooms[byAlias.value])
    else None
  }

  /** The room found is the first that matches on the highest-priority key on which any
      room matches. */
  lemma GetRoomIdPriority(rooms: seq<Room>, reference: string)
    requires DecidingKey(rooms, reference).Some?
    ensures exists i ::
      && 0 <= i < |rooms| && GetRoomId(rooms, reference) == Some(rooms[i])
      && MatchesOn(rooms[i], DecidingKey(rooms, reference).value, reference)
      && forall j :: 0 <= j < i ==> !MatchesOn(rooms[j], DecidingKey(rooms, reference).value, reference)
  {
  }

  /** A room whose id is the reference is found even when other rooms match it by alias
      or name. */
  lemma RoomIdWins(rooms: seq<Room>, reference: string, k: nat)
    requires k < |rooms| && rooms[k].roomId == reference
    ensures GetRoomId(rooms, reference).Some? && GetRoomId(rooms, reference).value.roomId == reference
  {
    assert AnyOn(rooms, ById, reference);
  }

  /** Without an id match, a canonical-alias match beats a name match, which beats
      membership of an alias list. */
  lemma PriorityBelowId(rooms: seq<Room>, reference: string)
    requires forall j :: 0 <= j < |rooms| ==> rooms[j].roomId != reference
    ensures AnyOn(rooms, ByCanonicalAlias, reference) ==>
      GetRoomId(rooms, reference).Some? && GetRoomId(rooms, reference).value.canonicalAlias == Some(reference)
    ensures !AnyOn(rooms, ByCanonicalAlias, reference) && AnyOn(rooms, ByName, reference) ==>
      GetRoomId(rooms, reference).Some? && GetRoomId(rooms, reference).value.name == Some(reference)
    ensures !AnyOn(rooms, ByCanonicalAlias, reference) && !AnyOn(rooms, ByName, reference) && AnyOn(rooms, ByAlias, reference) ==>
      GetRoomId(rooms, reference).Some? && reference in GetRoomId(rooms, reference).value.aliases
  {
    assert !AnyOn(rooms, ById, reference);
  }

  /** `user` answers to `query`, ignoring case, by user id or by display name. */
  predicate UserMatches(user: User, query: string) {
    LowerStr(query) == LowerStr(user.userId) || LowerStr(query) == LowerStr(user.displayName)
  }

  /** The position of the first member answering to `query`. */
  function FirstUser(members: seq<User>, query: string): (r: Option<nat>)
    ensures r.Some? ==> r.value < |members| && UserMatches(members[r.value], query)
    ensures r.Some? ==> forall j :: 0 <= j < r.value ==> !UserMatches(members[j], query)
    ensures r.None? <==> forall j :: 0 <= j < |members| ==> !UserMatches(members[j], query)
  {
    if members == [] then None
    else if UserMatches(members[0], query) then Some(0)
    else
      match FirstUser(members[1..], query)
      case None => None
      case Some(i) => Some(i + 1)
  }

  /** `get_user(room, query)`: the first joined member whose user id or display name equals
      the query ignoring case, or `None` when there is none. */
  function GetUser(room: Room, query: string): Option<User> {
    match FirstUser(room.members, query)
    case None => None
    case Some(i) => Some(room.members[i])
  }

  /** `get_user` finds the first member answering to the query, and finds none exactly when
      no member answers to it. */
  lemma GetUserMeaning(room: Room, query: string)
    ensures GetUser(room, query).Some? ==>
      exists i :: 0 <= i < |room.members| && room.members[i] == GetUser(room, query).value &&
        UserMatches(room.members[i], query) && forall j :: 0 <= j < i ==> !UserMatches(room.members[j], query)
    ensures GetUser(room, query).None? <==> forall j :: 0 <= j < |room.members| ==> !UserMatches(room.members[j], query)
  {
    var f := FirstUser(room.members, query);
    if f.Some? {
      assert room.members[f.value] == GetUser(room, query).value;
    }
  }

  /** Only the letters of the query up to case matter to `get_user`. */
  lemma GetUserCaseInsensitive(room: Room, q1: string, q2: string)
    requires LowerStr(q1) == LowerStr(q2)
    ensures GetUser(room, q1) == GetUser(room, q2)
  {
    FirstUserCaseInsensitive(room.members, q1, q2);
  }

  lemma {:induction false} FirstUserCaseInsensitive(members: seq<User>, q1: string, q2: string)
    requires LowerStr(q1) == LowerStr(q2)
    ensures FirstUser(members, q1) == FirstUser(members, q2)
  {
    if members != [] {
      FirstUserCaseInsensitive(members[1..], q1, q2);
    }
  }

  /** A member is found by its own user id. */
  lemma MemberFoundById(room: Room, k: nat)
    requires k < |room.members|
    ensures GetUser(room, room.members[k].userId).Some?
  {
    GetUserMeaning(room, room.members[k].userId);
    assert UserMatches(room.members[k], room.members[k].userId);
  }
}
