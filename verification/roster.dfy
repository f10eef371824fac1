/**
 Locating the bot's own record in a snapshot's roster by name.

 The first player whose name equals the bot's name becomes the bot's record;
 when no player matches (the bot was eliminated and dropped from the
 roster), the record from the previous tick is kept, so the policy goes on
 with a stale position rather than failing.
 */
module Roster {
  import opened Options
  import opened Geometry

  /** A roster entry: the fields the bot reads. */
  datatype Player = Player(name: string, position: Pos)

  /** Some entry of `roster` carries `name`. */
  ghost predicate Listed(roster: seq<Player>, name: string)
  {
    exists i :: 0 <= i < |roster| && roster[i].name == name
  }

  /** The index of the first entry of `roster` named `name`, if any. */
  function FindPlayer(roster: seq<Player>, name: string): (r: Option<nat>)
    ensures r.Some? ==> r.value < |roster| && roster[r.value].name == name
    ensures r.Some? ==> forall j :: 0 <= j < r.value ==> roster[j].name != name
    ensures r.None? ==> forall j :: 0 <= j < |roster| ==> roster[j].name != name
    decreases |roster|
  {
    if |roster| == 0 then None
    else if roster[0].name == name then Some(0)
    else
      var rest := roster[1..];
      assert forall j :: 0 <= j < |rest| ==> rest[j] == roster[j + 1];
      match FindPlayer(rest, name)
      case None => None
      case Some(i) => Some(i + 1)
  }

  /**
   The bot's record after reading `roster`: the first entry named `name`,
   or `previous` unchanged when there is none.
   */
  function LookupSelf(previous: Player, roster: seq<Player>, name: string): (me: Player)
    ensures Listed(roster, name) ==> me.name == name
    ensures Listed(roster, name) ==> exists i :: 0 <= i < |roster| && roster[i] == me
                                      && forall j :: 0 <= j < i ==> roster[j].name != name
    ensures !Listed(roster, name) ==> me == previous
  {
    match FindPlayer(roster, name)
    case Some(i) => roster[i]
    case None => previous
  }

  /** Entries after the first match do not influence the lookup. */
  lemma {:induction false} LookupIgnoresLaterEntries(previous: Player, roster: seq<Player>, extra: seq<Player>, name: string)
    requires Listed(roster, name)
    ensures LookupSelf(previous, roster + extra, name) == LookupSelf(previous, roster, name)
  {
    var i := FindPlayer(roster, name).value;
    var k := FindPlayer(roster + extra, name);
    assert (roster + extra)[i] == roster[i];
    assert k.Some?;
  }

  /**
   The lookup as the loop in `AdaptiveBot::receiveGameState` writes it: a
   scan of the roster that stops at the first match. It agrees with `LookupSelf`.
   */
  method ReceiveSelf(previous: Player, roster: seq<Player>, name: string) returns (me: Player)
    ensures me == LookupSelf(previous, roster, name)
  {
    me := previous;
    var i := 0;
    while i < |roster|
      invariant 0 <= i <= |roster|
      invariant forall j :: 0 <= j < i ==> roster[j].name != name
      invariant me == previous
    {
      if roster[i].name == name {
        me := roster[i];
        break;
      }
      i := i + 1;
    }
  }
}
