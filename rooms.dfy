/** Resolving a talk's room identifier to a display name, from the room list
    of the same fetched schedule. */
module Rooms {
  import opened Wrappers
  import Text

  /** Returned when there is no identifier, no room list, or no usable name. */
  const UnknownLocation: string := "未知地點"
  /** Prefix of the placeholder for an identifier no room carries. */
  const ClassroomPrefix: string := "教室 "
  /** Locales tried, in order, when a room's name is a locale map. */
  const LocalePrecedence: seq<string> := ["zh-hant", "zh-tw", "en"]

  /** A room's `name` field: a single string or a locale -> name map. A room
      without a `name` key reads as the empty map. */
  datatype RoomName = PlainName(text: string) | LocalizedName(names: map<string, string>)

  /** An entry of the schedule's `rooms` list; `id` is None when the key is absent. */
  datatype Room = Room(id: Option<int>, name: RoomName)

  /** Python's truth test on the talk's `room` value: None and 0 are false. */
  predicate IsFalsy(roomId: Option<int>) {
    roomId.None? || roomId.value == 0
  }

  /** The nested `m.get(k0, m.get(k1, ... default))`: the value of the first
      key of `keys` present in `m`. */
  function FirstPresent(m: map<string, string>, keys: seq<string>, default: string): (r: string)
    ensures r == default || r in m.Values
  {
    if keys == [] then default
    else if keys[0] in m then m[keys[0]]
    else FirstPresent(m, keys[1..], default)
  }

  lemma {:induction false} FirstPresentPicksEarliest(m: map<string, string>, keys: seq<string>, default: string, i: int)
    requires 0 <= i < |keys| && keys[i] in m
    requires forall j :: 0 <= j < i ==> keys[j] !in m
    ensures FirstPresent(m, keys, default) == m[keys[i]]
  {
    if i > 0 {
      FirstPresentPicksEarliest(m, keys[1..], default, i - 1);
    }
  }

  lemma {:induction false} FirstPresentNone(m: map<string, string>, keys: seq<string>, default: string)
    requires forall j :: 0 <= j < |keys| ==> keys[j] !in m
    ensures FirstPresent(m, keys, default) == default
  {
    if keys != [] {
      FirstPresentNone(m, keys[1..], default);
    }
  }

  /** The name a matching room shows: a plain name unless it is empty, or an
      entry of the locale map, or the unknown-location text. */
  function DisplayName(name: RoomName): (r: string)
    ensures name.PlainName? && name.text != "" ==> r == name.text
    ensures name.PlainName? && name.text == "" ==> r == UnknownLocation
    ensures name.LocalizedName? ==> r == UnknownLocation || r in name.names.Values
  {
    match name
    case LocalizedName(m) => FirstPresent(m, LocalePrecedence, UnknownLocation)
    case PlainName(s) => if s == "" then UnknownLocation else s
  }

  /** A locale map yields its zh-hant name, else its zh-tw name, else its en
      name, else the unknown-location text. A key that is present wins even
      when its value is empty. */
  lemma DisplayNamePrecedence(m: map<string, string>)
    ensures "zh-hant" in m ==> DisplayName(LocalizedName(m)) == m["zh-hant"]
    ensures "zh-hant" !in m && "zh-tw" in m ==> DisplayName(LocalizedName(m)) == m["zh-tw"]
    ensures "zh-hant" !in m && "zh-tw" !in m && "en" in m ==> DisplayName(LocalizedName(m)) == m["en"]
    ensures "zh-hant" !in m && "zh-tw" !in m && "en" !in m ==> DisplayName(LocalizedName(m)) == UnknownLocation
  {
    var keys := LocalePrecedence;
    if "zh-hant" in m {
      FirstPresentPicksEarliest(m, keys, UnknownLocation, 0);
    } else if "zh-tw" in m {
      FirstPresentPicksEarliest(m, keys, UnknownLocation, 1);
    } else if "en" in m {
      FirstPresentPicksEarliest(m, keys, UnknownLocation, 2);
    } else {
      FirstPresentNone(m, keys, UnknownLocation);
    }
  }

  /** The search of the room list, for an identifier known to be truthy. */
  function FindRoom(id: int, rooms: seq<Room>): (r: string)
    ensures || r == ClassroomPrefix + Text.IntToDecimal(id)
            || exists j :: 0 <= j < |rooms| && rooms[j].id == Some(id) && r == DisplayName(rooms[j].name)
  {
    if rooms == [] then ClassroomPrefix + Text.IntToDecimal(id)
    else if rooms[0].id == Some(id) then DisplayName(rooms[0].name)
    else FindRoom(id, rooms[1..])
  }

  /** get_room_name: the name always comes from a room carrying the
      identifier, or is one of the two placeholders. */
  function GetRoomName(roomId: Option<int>, rooms: seq<Room>): (r: string)
    ensures || r == UnknownLocation
            || (roomId.Some? && r == ClassroomPrefix + Text.IntToDecimal(roomId.value))
            || exists j :: 0 <= j < |rooms| && rooms[j].id == roomId && r == DisplayName(rooms[j].name)
  {
    if IsFalsy(roomId) || rooms == [] then UnknownLocation
    else FindRoom(roomId.value, rooms)
  }

  /** With no identifier (or 0), or with no rooms at all, the name is the
      unknown-location text whatever else is given. */
  lemma GetRoomNameUnknown(roomId: Option<int>, rooms: seq<Room>)
    requires IsFalsy(roomId) || rooms == []
    ensures GetRoomName(roomId, rooms) == UnknownLocation
  {
  }

  /** Otherwise the first room carrying the identifier gives the name. */
  lemma {:induction false} GetRoomNameFirstMatch(roomId: Option<int>, rooms: seq<Room>, i: int)
    requires !IsFalsy(roomId)
    requires 0 <= i < |rooms| && rooms[i].id == roomId
    requires forall j :: 0 <= j < i ==> rooms[j].id != roomId
    ensures GetRoomName(roomId, rooms) == DisplayName(rooms[i].name)
  {
    FindRoomFirstMatch(roomId.value, rooms, i);
  }

  lemma {:induction false} FindRoomFirstMatch(id: int, rooms: seq<Room>, i: int)
    requires 0 <= i < |rooms| && rooms[i].id == Some(id)
    requires forall j :: 0 <= j < i ==> rooms[j].id != Some(id)
    ensures FindRoom(id, rooms) == DisplayName(rooms[i].name)
  {
    if i > 0 {
      FindRoomFirstMatch(id, rooms[1..], i - 1);
    }
  }

  /** And when no room carries it, the name is "教室 " followed by the
      identifier in decimal. */
  lemma {:induction false} GetRoomNameNoMatch(roomId: Option<int>, rooms: seq<Room>)
    requires !IsFalsy(roomId) && rooms != []
    requires forall j :: 0 <= j < |rooms| ==> rooms[j].id != roomId
    ensures GetRoomName(roomId, rooms) == ClassroomPrefix + Text.IntToDecimal(roomId.value)
  {
    FindRoomNoMatch(roomId.value, rooms);
  }

  lemma {:induction false} FindRoomNoMatch(id: int, rooms: seq<Room>)
    requires forall j :: 0 <= j < |rooms| ==> rooms[j].id != Some(id)
    ensures FindRoom(id, rooms) == ClassroomPrefix + Text.IntToDecimal(id)
  {
    if rooms != [] {
      FindRoomNoMatch(id, rooms[1..]);
    }
  }

  /** The placeholders of two different unknown identifiers differ. */
  lemma PlaceholderInjective(a: int, b: int)
    requires ClassroomPrefix + Text.IntToDecimal(a) == ClassroomPrefix + Text.IntToDecimal(b)
    ensures a == b
  {
    var pa, pb := ClassroomPrefix + Text.IntToDecimal(a), ClassroomPrefix + Text.IntToDecimal(b);
    assert pa[|ClassroomPrefix|..] == Text.IntToDecimal(a);
    assert pb[|ClassroomPrefix|..] == Text.IntToDecimal(b);
    Text.IntToDecimalInjective(a, b);
  }

  /** Three concrete lookups: a zh-hant name, an id no room carries, and no id. */
  lemma GetRoomNameExamples()
    ensures GetRoomName(Some(7), [Room(Some(7), LocalizedName(map["zh-hant" := "國際會議廳"]))]) == "國際會議廳"
    ensures GetRoomName(Some(99), [Room(Some(7), PlainName("R0"))]) == "教室 99"
    ensures GetRoomName(None, [Room(Some(7), PlainName("R0"))]) == UnknownLocation
  {
    DisplayNamePrecedence(map["zh-hant" := "國際會議廳"]);
  }
}
