/** The server, its sessions and the world they share, as objects updated packet by packet. */
module GameServers {
  import opened Wrappers
  import opened Numbers
  import opened Inventory
  import opened InventoryStore
  import opened SharedWorld
  import SaveRestore
  import Stored

  class World {
    var drops: seq<Drop>

    constructor ()
      ensures drops == []
    {
      drops := [];
    }

    method DropItem(drop: Drop)
      modifies this
      ensures drops == old(drops) + [drop]
    {
      drops := drops + [drop];
    }

    /** Take a drop off the floor, if it is still there: the first caller wins. */
    method TakeFloorDrop(pickup: Id) returns (taken: Option<Drop>)
      modifies this
      ensures var at := DropAt(old(drops), pickup);
        if at.None? then taken == None && drops == old(drops)
        else taken == Some(old(drops)[at.value]) && drops == Without(old(drops), at.value)
      ensures taken.None? ==> drops == old(drops) && forall i | 0 <= i < |drops| :: drops[i].pickup != pickup
      ensures taken.Some? ==> taken.value.pickup == pickup && exists i ::
        0 <= i < |old(drops)| && old(drops)[i] == taken.value && drops == old(drops)[..i] + old(drops)[i + 1..]
    {
      var at := 0;
      while at < |drops| && drops[at].pickup != pickup
        invariant at <= |drops| && drops == old(drops)
        invariant DropAt(drops, pickup) == (var rest := DropAt(drops[at..], pickup);
          if rest.None? then None else Some(rest.value + at))
      {
        assert drops[at..][1..] == drops[at + 1..];
        at := at + 1;
      }
      if at == |drops| {
        return None;
      }
      var drop := drops[at];
      drops := drops[..at] + drops[at + 1..];
      return Some(drop);
    }
  }

  class Connection {
    const player: Id
    const inventories: Inventories

    constructor (player: Id, limits: map<nat, nat>)
      ensures this.player == player && fresh(inventories)
      ensures inventories.State() == Fresh(player, limits).inv
      ensures inventories.slots == map[player := seq(45, _ => 0)] && inventories.items == map[]
      ensures inventories.limits == limits && inventories.next == player + 1
    {
      this.player := player;
      inventories := new Inventories(limits, player + 1);
      new;
      inventories.Open(player, MAX_INVENTORY_SLOTS);
    }

    function SceneIn(world: World): Scene
      reads inventories, world
    {
      Scene(inventories.State(), world.drops)
    }

    method DropPickup(item: nat, count: nat, position: (nat, nat, nat), stackKnown: bool, pickupKnown: bool, world: World)
      modifies inventories, world
      ensures SceneIn(world) == Looted(old(SceneIn(world)), Loot(item, count, position, stackKnown, pickupKnown))
      ensures inventories.items == old(inventories.items)[old(inventories.next) := Stack(Some(item), count)]
      ensures inventories.slots == old(inventories.slots)
      ensures inventories.next == old(inventories.next) + if stackKnown then 2 else 1
      ensures world.drops == old(world.drops)
        + if stackKnown && pickupKnown
          then [Drop(old(inventories.next) + 1, old(inventories.next), item, count, position)] else []
    {
      var stack := inventories.CreateLoose(item, count);
      inventories.ReserveIdsFrom(inventories.next);
      if !stackKnown {
        return;
      }
      var id := inventories.next;
      inventories.ReserveIdsFrom(id + 1);
      if !pickupKnown {
        return;
      }
      world.DropItem(Drop(id, stack, item, count, position));
    }

    method CollectPickup(pickup: Id, world: World)
      modifies inventories, world
      ensures SceneIn(world) == Gathered(player, old(SceneIn(world)), pickup)
    {
      var taken := world.TakeFloorDrop(pickup);
      if taken.None? {
        return;
      }
      var drop := taken.value;
      inventories.CreateLooseWithId(drop.stack, drop.item, drop.count);
      var effects := inventories.Collect(player, drop.stack);
      if effects == [] {
        world.DropItem(drop);
      }
    }

    method Arranges(op: Op)
      modifies inventories
      ensures inventories.State() == Done(old(inventories.State()), op).inv
    {
      hide Transferred, Swapped, TakenAll, Equipped, Unequipped;
      match op
      case Transfer(from, slot, to, target, count) => var _ := inventories.TransferToSlot(from, slot, to, target, count);
      case Swap(from, slot, to, target) => var _ := inventories.Swap(from, slot, to, target);
      case TakeAll(from, to) => var _ := inventories.TransferAll(from, to);
      case Equip(owner, bag, square) => var _ := inventories.Equip(owner, bag, square);
      case Unequip(owner, square) => var _ := inventories.Unequip(owner, square);
    }

    method Acts(a: Action, world: World)
      modifies inventories, world
      ensures SceneIn(world) == Acted(player, old(SceneIn(world)), a)
    {
      hide Looted, Gathered, Done, Destroyed, Given;
      match a {
        case Mint => inventories.ReserveIdsFrom(inventories.next + 1);
        case Loot(item, count, position, stackKnown, pickupKnown) =>
          DropPickup(item, count, position, stackKnown, pickupKnown, world);
        case Collect(pickup) => CollectPickup(pickup, world);
        case Arrange(op) => Arranges(op);
        case Give(slot, item, count) => var _ := inventories.Give(player, slot, item, count);
        case Destroy(owner, slot, count) => var _ := inventories.Destroy(owner, slot, count);
      }
    }

    /** Give back a stored rucksack, unless something is carried already. */
    method RestoreItems(items: seq<Stored.Item>)
      modifies inventories
      ensures inventories.State() == RestoredInv(Session(player, old(inventories.State())), items)
    {
      hide SaveRestore.CarriedItems, Given;
      if SaveRestore.CarriedItems(Bare(Session(player, inventories.State()))) != [] {
        return;
      }
      for i := 0 to |items|
        invariant inventories.State() == GivenAll(old(inventories.State()), player, items, i)
      {
        var (slot, (item, count)) := items[i];
        var _ := inventories.Give(player, slot, item, count);
      }
    }
  }

  class GameServer {
    const world: World
    var connections: seq<Connection>
    var next: Id

    /** No two connections share their inventories. */
    ghost predicate Apart()
      reads this
    {
      forall i, j | 0 <= i < j < |connections| :: connections[i].inventories != connections[j].inventories
    }

    function Sessions(): (r: seq<Session>)
      reads this, connections, set c | c in connections :: c.inventories
      ensures |r| == |connections|
    {
      seq(|connections|, i requires 0 <= i < |connections| reads this, connections, set c | c in connections :: c.inventories =>
        Session(connections[i].player, connections[i].inventories.State()))
    }

    function State(): Game
      reads this, world, connections, set c | c in connections :: c.inventories
    {
      Game(next, Sessions(), world.drops)
    }

    constructor (world: World, next: Id)
      ensures this.world == world && connections == [] && this.next == next && Apart()
    {
      this.world, this.next, this.connections := world, next, [];
    }

    method Connect(limits: map<nat, nat>)
      requires Apart()
      modifies this
      ensures Apart() && State() == Stepped(old(State()), Connected(limits))
      ensures next == old(next) + 1 && |connections| == |old(connections)| + 1
      ensures connections[..|old(connections)|] == old(connections) && connections[|old(connections)|].player == old(next)
    {
      var entity := next;
      next := next + 1;
      var connection := new Connection(entity, limits);
      connections := connections + [connection];
      assert Sessions() == old(Sessions()) + [Fresh(entity, limits)];
    }

    /** One packet: lend the session the id counter, run its handler, and take the counter back. */
    method Handle(from: nat, actions: seq<Action>)
      requires Apart() && from < |connections|
      modifies this`next, world, connections[from].inventories
      ensures Apart() && State() == Stepped(old(State()), Packet(from, actions))
    {
      hide Acted;
      ghost var before := State();
      var connection := connections[from];
      var inventories := connection.inventories;
      inventories.ReserveIdsFrom(next);
      ghost var lent := connection.SceneIn(world);
      assert lent == Lent(before, from);
      for i := 0 to |actions|
        invariant next == before.next && connection.SceneIn(world) == ActedAll(connection.player, lent, actions[..i])
        invariant forall j | 0 <= j < |connections| && j != from ::
          connections[j].inventories.State() == before.sessions[j].inv
      {
        assert actions[..i + 1][..i] == actions[..i];
        connection.Acts(actions[i], world);
      }
      assert actions[..|actions|] == actions;
      next := Max(next, inventories.next);
      ghost var scene := connection.SceneIn(world);
      assert before.sessions[from].player == connection.player;
      assert scene == ActedAll(before.sessions[from].player, Lent(before, from), actions);
      assert Sessions() == before.sessions[from := before.sessions[from].(inv := scene.inv)];
      assert State() == Returned(before, from, scene);
    }

    /** A player in the world gets a stored rucksack back: the session mints with its own counter. */
    method RestoreInventory(from: nat, items: seq<Stored.Item>)
      requires Apart() && from < |connections|
      modifies connections[from].inventories
      ensures Apart() && State() == Stepped(old(State()), Restored(from, items))
    {
      hide RestoredInv;
      ghost var before := State();
      var connection := connections[from];
      connection.RestoreItems(items);
      ghost var now := before.sessions[from].(inv := connection.inventories.State());
      assert Sessions() == before.sessions[from := now];
    }
  }
}
