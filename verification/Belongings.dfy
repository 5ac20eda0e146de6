/** A session's belongings, written down and restored in place. */
module Belongings {
  import opened Wrappers
  import opened Inventory
  import opened InventoryStore
  import opened Stored
  import opened SaveRestore

  class Belonging {
    const player: Id
    const inventories: Inventories
    var parked: seq<Id>
    var wear: map<Id, nat>
    var taught: map<Id, nat>
    var madeOf: map<Id, Materials>
    var minted: map<Id, nat>
    var recipes: seq<nat>
    var pending: Pending

    function State(): Carrier
      reads this, inventories
    {
      Carrier(player, inventories.State(), parked, wear, taught, madeOf, minted, recipes)
    }

    constructor (player: Id, limits: map<nat, nat>, squares: nat, next: Id)
      ensures fresh(inventories) && State() == Joined(player, squares, limits, next)
    {
      this.player := player;
      inventories := new Inventories(limits, next);
      parked, wear, taught, madeOf, minted, recipes := [0, 0], map[], map[], map[], map[], [];
      pending := Pending(map[], map[], map[]);
      new;
      inventories.Open(player, squares);
    }

    method LayoutNow() returns (layout: Layout)
      ensures layout == StoredLayout(State())
    {
      var squares := Squares(State());
      layout := [];
      for slot := 0 to |squares|
        invariant layout == Occupied(squares, slot)
      {
        if squares[slot] != 0 {
          layout := layout + [(slot, squares[slot])];
        }
      }
      ghost var mine := layout;
      var free: nat := FIRST_RUCKSACK_SLOT;
      for k := 0 to |parked|
        invariant layout + Parked(squares, parked[k..], free) == mine + Parked(squares, parked, FIRST_RUCKSACK_SLOT)
      {
        ghost var rest := parked[k..];
        assert rest[0] == parked[k] && rest[1..] == parked[k + 1..];
        if parked[k] != 0 {
          while free < |squares| && squares[free] != 0
            invariant layout + Parked(squares, rest, free) == mine + Parked(squares, parked, FIRST_RUCKSACK_SLOT)
          {
            free := free + 1;
          }
          if free < |squares| {
            assert layout + ([(free, parked[k])] + Parked(squares, rest[1..], free + 1))
                == (layout + [(free, parked[k])]) + Parked(squares, rest[1..], free + 1);
            layout := layout + [(free, parked[k])];
            free := free + 1;
          }
        }
      }
      assert parked[|parked|..] == [];
      assert layout == mine + Parked(squares, parked, FIRST_RUCKSACK_SLOT);
      layout := Sorted(layout);
    }

    method CarriedNow() returns (items: seq<Item>)
      ensures items == CarriedItems(State())
    {
      var layout := LayoutNow();
      items := [];
      for i := 0 to |layout|
        invariant items == Listed(layout, ItemOf(State()), i)
      {
        var (slot, entity) := layout[i];
        if entity in inventories.items && inventories.items[entity].name.Some? {
          var stack := inventories.items[entity];
          items := items + [(slot, (stack.name.value, stack.count))];
        }
      }
    }

    method RestoreProgress(progress: Progress)
      modifies this`pending, this`recipes
      ensures State() == Recalled(old(State()), progress) && pending == Held(progress)
      ensures recipes == if old(recipes) == [] then progress.recipes else old(recipes)
    {
      pending := Pending(ByKey(progress.details), ByKey(progress.materials), ByKey(progress.minted));
      if progress.recipes == [] || recipes != [] {
        return;
      }
      recipes := progress.recipes;
    }

    method RestoreItems(items: seq<Item>)
      modifies this, inventories
      ensures State() == if items == [] || CarriedItems(old(State())) != [] then old(State())
                         else ReturnedAll(old(State()), old(pending), items, |items|).0
    {
      var carried := CarriedNow();
      if items == [] || carried != [] {
        return;
      }
      for i := 0 to |items|
        invariant (State(), pending) == ReturnedAll(old(State()), old(pending), items, i)
      {
        RestoreOne(items[i]);
      }
      pending := Pending(map[], map[], map[]);
    }

    method RestoreOne(item: Item)
      modifies this, inventories
      ensures (State(), pending) == Returned(old(State()), old(pending), item)
      ensures var (slot, (name, count)) := item;
        var (squares, e, held) := (old(inventories.slots), old(inventories.next), old(pending));
        if !(player in squares && slot < |squares[player]| && squares[player][slot] == 0)
        then State() == old(State()) && pending == held
        else
          && inventories.items == old(inventories.items)[e := Stack(Some(name), count)] && inventories.next == e + 1
          && (var row: seq<Id> := squares[player][slot := e]; inventories.slots == squares[player := row])
          && wear == (if slot in held.details && held.details[slot].durability.Some?
                      then old(wear)[e := held.details[slot].durability.value] else old(wear))
          && taught == (if slot in held.details && held.details[slot].teaches.Some?
                        then old(taught)[e := held.details[slot].teaches.value] else old(taught))
          && madeOf == (if slot in held.materials then old(madeOf)[e := held.materials[slot]] else old(madeOf))
          && minted == (if slot in held.minted then old(minted)[e := held.minted[slot]] else old(minted))
    {
      var (slot, stack) := item;
      var entity := inventories.Give(player, slot, stack.0, stack.1);
      if entity.None? {
        return;
      }
      var e := entity.value;
      if slot in pending.details {
        var detail := pending.details[slot];
        if detail.durability.Some? {
          wear := wear[e := detail.durability.value];
        }
        if detail.teaches.Some? {
          taught := taught[e := detail.teaches.value];
        }
      }
      if slot in pending.materials {
        madeOf := madeOf[e := pending.materials[slot]];
      }
      if slot in pending.minted {
        minted := minted[e := pending.minted[slot]];
      }
      pending := Pending(pending.details - {slot}, pending.materials - {slot}, pending.minted - {slot});
    }

    /** What the server does when a player who saved comes back. */
    method Restore(progress: Progress, items: seq<Item>)
      modifies this, inventories
      ensures State() == Restored(old(State()), progress, items)
    {
      RestoreProgress(progress);
      RestoreItems(items);
    }
  }
}
