/**
  Which avatar a room-join session renders. A room named
  `liveavatar-<avatar id>-<extra>-<extra>` names its avatar; any other
  room, or one whose middle segments join to nothing, uses the configured
  default (`LIVEAVATAR_AVATAR_ID`, or `josh_lite3_20230714` when unset).
*/
module AvatarId {

  import opened Optional
  import opened PyStr
  import opened Environment

  const Separator := '-'
  const RoomPrefix := "liveavatar-"
  const RoomPrefixToken := "liveavatar"
  /** Fewest hyphen-separated parts a room name needs before the middle is read. */
  const MinParts := 4
  const AvatarIdVar := "LIVEAVATAR_AVATAR_ID"
  const DefaultAvatarId := "josh_lite3_20230714"

  /** The hyphen-separated parts of a room name (`room_name.split("-")`). */
  function RoomParts(roomName: string): (parts: seq<string>)
    ensures |parts| >= 1
  {
    Split(roomName, Separator)
  }

  /**
    The value of `avatar_id` once the room name has been examined: `None`
    unless the name has the prefix and at least four parts, and then the
    hyphen-join of all parts but the first and the last two (which may be
    the empty string).
  */
  function ParseRoomName(roomName: string): (id: Option<string>)
    ensures id.Some? <==> StartsWith(roomName, RoomPrefix) && CountChar(roomName, Separator) >= MinParts - 1
  {
    if StartsWith(roomName, RoomPrefix) then
      var parts := RoomParts(roomName);
      if |parts| >= MinParts then Some(Join(Separator, Slice(parts, 1, -2))) else None
    else None
  }

  /** `os.getenv("LIVEAVATAR_AVATAR_ID", "josh_lite3_20230714")`. */
  function FallbackAvatarId(env: Env): (id: string)
    ensures AvatarIdVar in env ==> id == env[AvatarIdVar]
    ensures AvatarIdVar !in env ==> id == DefaultAvatarId
  {
    GetEnvOr(env, AvatarIdVar, DefaultAvatarId)
  }

  /**
    The avatar identifier used for a room: the parsed identifier when it is
    truthy, otherwise the fallback. It is never empty unless the
    environment sets `LIVEAVATAR_AVATAR_ID` to the empty string.
  */
  function ResolveAvatarId(roomName: string, env: Env): (id: string)
    ensures id == "" ==> AvatarIdVar in env && env[AvatarIdVar] == ""
  {
    var parsed := ParseRoomName(roomName);
    if Truthy(parsed) then parsed.value else FallbackAvatarId(env)
  }

  /** A room name without the prefix always gets the fallback. */
  lemma ResolveWithoutPrefix(roomName: string, env: Env)
    requires !StartsWith(roomName, RoomPrefix)
    ensures ResolveAvatarId(roomName, env) == FallbackAvatarId(env)
  {
  }

  /** With the prefix but fewer than four parts (fewer than three hyphens) the fallback is used. */
  lemma ResolveTooFewParts(roomName: string, env: Env)
    requires StartsWith(roomName, RoomPrefix)
    requires |RoomParts(roomName)| < MinParts
    ensures CountChar(roomName, Separator) < MinParts - 1
    ensures ResolveAvatarId(roomName, env) == FallbackAvatarId(env)
  {
  }

  /** With the prefix, at least four parts and a non-empty middle, the result is the joined middle, whatever the environment says. */
  lemma ResolveParsed(roomName: string, env: Env)
    requires StartsWith(roomName, RoomPrefix)
    requires |RoomParts(roomName)| >= MinParts
    requires Join(Separator, RoomParts(roomName)[1..|RoomParts(roomName)| - 2]) != ""
    ensures ResolveAvatarId(roomName, env) == Join(Separator, RoomParts(roomName)[1..|RoomParts(roomName)| - 2])
  {
    SliceDropsFirstAndLastTwo(RoomParts(roomName));
  }

  /**
    The joined middle of a four-or-more-part name is empty exactly when there
    are four parts and the second is empty (`liveavatar---x`): with more
    parts the join contains a hyphen.
  */
  lemma MiddleEmptyIff(roomName: string)
    requires |RoomParts(roomName)| >= MinParts
    ensures var parts := RoomParts(roomName);
      Join(Separator, parts[1..|parts| - 2]) == "" <==> |parts| == MinParts && parts[1] == ""
  {
    var parts := RoomParts(roomName);
    var middle := parts[1..|parts| - 2];
    if |parts| == MinParts {
      assert middle == [parts[1]];
    } else {
      assert |middle| >= 2;
    }
  }

  /** An empty middle segment does not become the identifier: `not avatar_id` sends it to the fallback. */
  lemma ResolveEmptyMiddle(roomName: string, env: Env)
    requires StartsWith(roomName, RoomPrefix)
    requires |RoomParts(roomName)| == MinParts && RoomParts(roomName)[1] == ""
    ensures ParseRoomName(roomName) == Some("")
    ensures ResolveAvatarId(roomName, env) == FallbackAvatarId(env)
  {
    SliceDropsFirstAndLastTwo(RoomParts(roomName));
  }

  /**
    The `>= 4` guard does not change the result: with fewer parts the slice
    `parts[1:-2]` is empty, so its join is `""`, which is falsy, and the
    fallback is taken either way.
  */
  lemma LengthGuardIsRedundant(roomName: string, env: Env)
    requires StartsWith(roomName, RoomPrefix)
    ensures var middle := Join(Separator, Slice(RoomParts(roomName), 1, -2));
      ResolveAvatarId(roomName, env) == if middle != "" then middle else FallbackAvatarId(env)
  {
    SliceDropsFirstAndLastTwo(RoomParts(roomName));
  }

  /**
    Round trip from a room name: the parsed identifier splits back into the
    middle parts, and the room name is the prefix, the identifier and the
    last two parts joined by hyphens.
  */
  lemma ParsedRoundTrip(roomName: string)
    requires ParseRoomName(roomName).Some?
    ensures var parts, id := RoomParts(roomName), ParseRoomName(roomName).value;
      && Split(id, Separator) == parts[1..|parts| - 2]
      && roomName == RoomPrefix + id + [Separator] + parts[|parts| - 2] + [Separator] + parts[|parts| - 1]
  {
    var parts := RoomParts(roomName);
    var n := |parts|;
    var id := ParseRoomName(roomName).value;
    SliceDropsFirstAndLastTwo(parts);
    var middle := parts[1..n - 2];
    assert id == Join(Separator, middle);
    assert forall i :: 0 <= i < |middle| ==> Separator !in middle[i] by {
      forall i | 0 <= i < |middle| ensures Separator !in middle[i] {
        assert middle[i] == parts[i + 1];
      }
    }
    SplitJoin(Separator, middle);
    PrefixIsFirstPart(roomName);
    JoinSplit(roomName, Separator);
    JoinFirstMiddleLastTwo(Separator, parts);
    assert RoomPrefix == RoomPrefixToken + [Separator];
  }

  /** A name with the prefix has `liveavatar` as its first part, and so at least two parts. */
  lemma PrefixIsFirstPart(roomName: string)
    requires StartsWith(roomName, RoomPrefix)
    ensures |RoomParts(roomName)| >= 2 && RoomParts(roomName)[0] == RoomPrefixToken
  {
    assert RoomPrefix == RoomPrefixToken + [Separator];
    SplitAfterHead(roomName, RoomPrefixToken, Separator);
  }

  /** The room name for an avatar identifier and two trailing segments. */
  function RoomNameFor(id: string, extra1: string, extra2: string): (roomName: string)
    ensures StartsWith(roomName, RoomPrefix)
  {
    RoomPrefix + id + [Separator] + extra1 + [Separator] + extra2
  }

  /**
    Round trip from an identifier: a room named after a non-empty
    identifier and two hyphen-free trailing segments resolves to that
    identifier, whatever the environment says.
  */
  lemma ResolveRoomNameFor(id: string, extra1: string, extra2: string, env: Env)
    requires id != ""
    requires Separator !in extra1 && Separator !in extra2
    ensures ResolveAvatarId(RoomNameFor(id, extra1, extra2), env) == id
  {
    var roomName := RoomNameFor(id, extra1, extra2);
    var idParts := Split(id, Separator);
    var parts := [RoomPrefixToken] + idParts + [extra1, extra2];
    var n := |parts|;
    assert parts[1..n - 2] == idParts;
    assert forall i :: 0 <= i < n ==> Separator !in parts[i] by {
      forall i | 0 <= i < n ensures Separator !in parts[i] {
        if 1 <= i < n - 2 {
          assert parts[i] == idParts[i - 1];
        }
      }
    }
    JoinSplit(id, Separator);
    JoinFirstMiddleLastTwo(Separator, parts);
    assert RoomPrefix == RoomPrefixToken + [Separator];
    assert Join(Separator, parts) == roomName;
    SplitJoin(Separator, parts);
    SliceDropsFirstAndLastTwo(parts);
  }

  /*
    The examples below that name a room by a string literal take it as a
    parameter (`requires roomName == "..."`) or reach it through
    `RoomNameFor`: with a literal argument the verifier would unfold `Split`
    over every character of the name.
  */

  /** The two well-formed example names are built by `RoomNameFor`. */
  lemma ExampleRoomNames()
    ensures RoomNameFor("josh-lite3", "sess", "extra") == "liveavatar-josh-lite3-sess-extra"
    ensures RoomNameFor("josh_lite3", "sess123", "abc") == "liveavatar-josh_lite3-sess123-abc"
  {
  }

  /** `liveavatar-josh-lite3-sess-extra` names the avatar `josh-lite3`. */
  lemma ExampleHyphenatedId(env: Env)
    ensures ResolveAvatarId("liveavatar-josh-lite3-sess-extra", env) == "josh-lite3"
  {
    ExampleRoomNames();
    ResolveRoomNameFor("josh-lite3", "sess", "extra", env);
  }

  /** `liveavatar-josh_lite3-sess123-abc` names the avatar `josh_lite3`. */
  lemma ExampleSingleSegmentId(env: Env)
    ensures ResolveAvatarId("liveavatar-josh_lite3-sess123-abc", env) == "josh_lite3"
  {
    ExampleRoomNames();
    ResolveRoomNameFor("josh_lite3", "sess123", "abc", env);
  }

  /** `random-room` lacks the prefix: the fallback, which is the built-in default in an empty environment. */
  lemma ExampleNoPrefix(roomName: string, env: Env)
    requires roomName == "random-room"
    ensures ResolveAvatarId(roomName, env) == FallbackAvatarId(env)
    ensures ResolveAvatarId(roomName, map[]) == DefaultAvatarId
  {
  }

  /** `liveavatar-josh-extra` has only three parts, so the boundary `>= 4` sends it to the fallback. */
  lemma ExampleThreeParts(roomName: string, env: Env)
    requires roomName == "liveavatar-josh-extra"
    ensures |RoomParts(roomName)| == 3
    ensures ResolveAvatarId(roomName, env) == FallbackAvatarId(env)
  {
    var head, middle, last := RoomPrefixToken, "josh", "extra";
    assert roomName == head + [Separator] + (middle + [Separator] + last);
    SplitThree(head, middle, last, Separator);
    ResolveTooFewParts(roomName, env);
  }

  /**
    `liveavatar---x` has four parts, so the length guard lets it through, but
    its middle is empty, so the `not avatar_id` test sends it to the fallback.
  */
  lemma ExampleEmptyMiddle(roomName: string, env: Env)
    requires roomName == "liveavatar---x"
    ensures |RoomParts(roomName)| == MinParts && ParseRoomName(roomName) == Some("")
    ensures ResolveAvatarId(roomName, env) == FallbackAvatarId(env)
  {
    var last := "x";
    assert roomName == RoomPrefixToken + [Separator] + ([Separator] + ([Separator] + last));
    SplitAtFirstSeparator(RoomPrefixToken, Separator, [Separator] + ([Separator] + last));
    SplitAtFirstSeparator("", Separator, [Separator] + last);
    SplitAtFirstSeparator("", Separator, last);
    SplitNoSeparator(last, Separator);
    ResolveEmptyMiddle(roomName, env);
  }

  /**
    The identifier is not always non-empty: a room name that yields no
    truthy identifier (no prefix, fewer than four parts, or an empty middle)
    resolves to `""` when `LIVEAVATAR_AVATAR_ID` is set to the empty string.
  */
  lemma EmptyFallbackIsPassedThrough(roomName: string)
    requires !Truthy(ParseRoomName(roomName))
    ensures ResolveAvatarId(roomName, map[AvatarIdVar := ""]) == ""
  {
  }

}
