/** The player list: `renderPlayers` turns the room's `players` snapshot (one
    presence record per client id) into a count and one name per client. */
module Roster {
  import opened Wrappers

  /** A presence record `{name, t}`; `t` is the writer's clock. */
  datatype Player = Player(name: string, t: int)

  /** What the roster shows: the number of players and their names. */
  datatype View = View(count: nat, names: seq<string>)

  /** `snap.val() || {}`: an absent snapshot is an empty room. */
  function Players(snapshot: Option<map<string, Player>>): (players: map<string, Player>)
    ensures snapshot.None? ==> players == map[]
    ensures snapshot.Some? ==> players == snapshot.value
  {
    if snapshot.Some? then snapshot.value else map[]
  }

  /** `order` is an order `Object.entries` may list the keys of `players`
      in: every key exactly once. */
  ghost predicate Enumerates(order: seq<string>, players: map<string, Player>) {
    && (forall i, j :: 0 <= i < j < |order| ==> order[i] != order[j])
    && (forall id :: id in players <==> id in order)
  }

  /** A list without repeats is as long as the set of its elements. */
  lemma {:induction false} DistinctLength(order: seq<string>, ids: set<string>)
    requires forall i, j :: 0 <= i < j < |order| ==> order[i] != order[j]
    requires forall id :: id in ids <==> id in order
    ensures |ids| == |order|
    decreases |order|
  {
    if order != [] {
      var rest := order[1..];
      assert forall id :: id in ids - {order[0]} <==> id in rest by {
        forall id ensures id in ids - {order[0]} <==> id in rest {
          if id in rest {
            var j :| 0 <= j < |rest| && rest[j] == id;
            assert order[j + 1] == id;
          }
          if id in order && id != order[0] {
            var j :| 0 <= j < |order| && order[j] == id;
            assert rest[j - 1] == id;
          }
        }
      }
      DistinctLength(rest, ids - {order[0]});
    }
  }

  /** The roster for a snapshot: the count is the number of client ids in
      it, and there is one name per id, in the enumeration order. */
  function RenderPlayers(snapshot: Option<map<string, Player>>, order: seq<string>): (v: View)
    requires Enumerates(order, Players(snapshot))
    ensures |v.names| == |order|
    ensures v.count == |v.names| == |Players(snapshot)|
    ensures forall i :: 0 <= i < |order| ==> v.names[i] == Players(snapshot)[order[i]].name
  {
    var players := Players(snapshot);
    DistinctLength(order, players.Keys);
    var names := seq(|order|, i requires 0 <= i < |order| => players[order[i]].name);
    View(|names|, names)
  }

  /** A heartbeat re-writes the client's own record under the same id, so it
      never changes the count others see. */
  lemma HeartbeatKeepsCount(snapshot: map<string, Player>, id: string, p: Player, order: seq<string>)
    requires id in snapshot
    requires Enumerates(order, snapshot)
    ensures Enumerates(order, snapshot[id := p])
    ensures RenderPlayers(Some(snapshot[id := p]), order).count == RenderPlayers(Some(snapshot), order).count
  {
  }
}
