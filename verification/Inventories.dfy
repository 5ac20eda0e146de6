/** The inventories a session keeps, updated in place. */
module InventoryStore {
  import opened Wrappers
  import opened Numbers
  import opened Inventory

  class Inventories {
    var slots: map<Id, seq<Id>>
    var items: map<Id, Stack>
    var limits: map<nat, nat>
    var next: Id

    function State(): Inv
      reads this
    {
      Inv(slots, items, limits, next)
    }

    constructor (limits: map<nat, nat>, next: Id)
      ensures State() == Inv(map[], map[], limits, next)
    {
      this.slots, this.items, this.limits, this.next := map[], map[], limits, next;
    }

    /** Give `owner` an inventory of empty squares, replacing any it had. */
    method Open(owner: Id, size: nat)
      modifies this`slots
      ensures State() == old(State()).(slots := old(slots)[owner := seq(size, _ => 0)])
    {
      slots := slots[owner := seq(size, _ => 0)];
    }

    method SetSlot(owner: Id, slot: nat, item: Id)
      requires State().Slot(owner, slot).Some?
      modifies this`slots
      ensures State() == old(State()).Put(owner, slot, item)
    {
      var row: seq<Id> := slots[owner][slot := item];
      slots := slots[owner := row];
    }

    method SetCount(item: Id, count: nat)
      requires item in items
      modifies this`items
      ensures State() == old(State()).SetCount(item, count)
    {
      items := items[item := items[item].(count := count)];
    }

    method Forget(item: Id)
      modifies this`items
      ensures State() == old(State()).Forget(item)
    {
      items := items - {item};
    }

    method CreateStack(stack: Stack) returns (entity: Id)
      modifies this
      ensures entity == old(next)
      ensures State() == old(State()).(items := old(items)[entity := stack], next := old(next) + 1)
    {
      entity := next;
      next := next + 1;
      items := items[entity := stack];
    }

    method Give(owner: Id, slot: nat, name: nat, count: nat) returns (entity: Option<Id>)
      modifies this
      ensures var given := Given(old(State()), owner, slot, name, count);
        if given.Some? then entity == Some(old(next)) && State() == given.value
        else entity == None && State() == old(State())
      ensures entity.Some? <==> owner in old(slots) && slot < |old(slots)[owner]| && old(slots)[owner][slot] == 0
      ensures entity.Some? ==>
        items == old(items)[old(next) := Stack(Some(name), count)] && next == old(next) + 1
        && var row: seq<Id> := old(slots)[owner][slot := old(next)]; slots == old(slots)[owner := row]
    {
      if State().Slot(owner, slot) != Some(0) {
        return None;
      }
      var made := CreateStack(Stack(Some(name), count));
      SetSlot(owner, slot, made);
      entity := Some(made);
    }

    method CreateLoose(name: nat, count: nat) returns (entity: Id)
      modifies this
      ensures entity == old(next) && State() == Loosened(old(State()), name, count)
      ensures items == old(items)[old(next) := Stack(Some(name), count)] && next == old(next) + 1 && slots == old(slots)
    {
      entity := CreateStack(Stack(Some(name), count));
    }

    method ReserveIdsFrom(from: Id)
      modifies this`next
      ensures State() == Reserved(old(State()), from)
      ensures next >= from && next >= old(next) && (next == from || next == old(next))
    {
      if from > next {
        next := from;
      }
    }

    method CreateLooseWithId(entity: Id, name: nat, count: nat)
      modifies this
      ensures State() == Ensured(old(State()), entity, name, count)
      ensures items == if entity in old(items) then old(items) else old(items)[entity := Stack(Some(name), count)]
      ensures next > entity && next >= old(next) && (next == entity + 1 || next == old(next)) && slots == old(slots)
    {
      ReserveIdsFrom(entity + 1);
      if entity in items {
        return;
      }
      items := items[entity := Stack(Some(name), count)];
    }

    method FirstFreeRucksackSlot(owner: Id) returns (slot: Option<nat>)
      ensures slot == FirstFree(State(), owner)
      ensures slot.Some? ==>
        owner in slots && 9 <= slot.value < |slots[owner]| && slots[owner][slot.value] == 0
        && forall j | 9 <= j < slot.value :: slots[owner][j] != 0
      ensures slot.None? && owner in slots ==> forall j | 9 <= j < |slots[owner]| :: slots[owner][j] != 0
    {
      if owner !in slots {
        return None;
      }
      var k := 0;
      while k < |slots[owner]|
        invariant k <= |slots[owner]| && FirstFree(State(), owner) == FreeFrom(State(), owner, k)
        invariant forall j | 9 <= j < k :: slots[owner][j] != 0
      {
        if k >= FIRST_RUCKSACK_SLOT && slots[owner][k] == 0 {
          return Some(k);
        }
        k := k + 1;
      }
      return None;
    }

    method Collect(owner: Id, entity: Id) returns (effects: seq<Effect>)
      modifies this
      ensures Change(State(), effects) == Collected(old(State()), owner, entity)
    {
      if entity !in items || items[entity].name.None? {
        return [];
      }
      var name, count := items[entity].name.value, items[entity].count;
      var limit := State().Limit(name);
      var k, room := 0, false;
      while owner in slots && k < |slots[owner]| && !room
        invariant RoomFrom(State(), owner, name, 0) == RoomFrom(State(), owner, name, k)
        invariant room ==> HasRoom(State(), owner, name, k)
        decreases (if owner in slots then |slots[owner]| else 0) - k, if room then 0 else 1
      {
        if HasRoom(State(), owner, name, k) {
          room := true;
        } else {
          k := k + 1;
        }
      }
      if room {
        assert RoomFrom(State(), owner, name, k) == Some(k);
        var into := slots[owner][k];
        var moved := Min(count, limit - items[into].count);
        SetCount(into, items[into].count + moved);
        if moved == count {
          Forget(entity);
          return [ItemChanged(into), ItemRemoved(entity)];
        }
        SetCount(entity, count - moved);
        return [ItemChanged(into), ItemChanged(entity)];
      }
      var free := FirstFreeRucksackSlot(owner);
      if free.None? {
        return [];
      }
      SetSlot(owner, free.value, entity);
      return [SlotsChanged(owner)];
    }

    method Detach(owner: Id, slot: nat) returns (taken: Option<(Id, seq<Effect>)>)
      modifies this`slots
      ensures var detached := Detached(old(State()), owner, slot);
        if detached.None? then taken == None && State() == old(State())
        else taken == Some((detached.value.0, detached.value.1.effects)) && State() == detached.value.1.inv
      ensures items == old(items)
      ensures if owner in old(slots) && slot < |old(slots)[owner]| && old(slots)[owner][slot] != 0
        then taken == Some((old(slots)[owner][slot], [SlotsChanged(owner)]))
             && var row: seq<Id> := old(slots)[owner][slot := 0]; slots == old(slots)[owner := row]
        else taken == None && slots == old(slots)
    {
      var item := State().At(owner, slot);
      if item == 0 {
        return None;
      }
      SetSlot(owner, slot, 0);
      return Some((item, [SlotsChanged(owner)]));
    }

    method ConsumeLoose(entity: Id, count: nat) returns (effects: seq<Effect>)
      modifies this`items
      ensures Change(State(), effects) == Consumed(old(State()), entity, count)
      ensures if entity !in old(items) || old(items)[entity].count < count then items == old(items) && effects == []
        else if old(items)[entity].count == count then
          items == old(items) - {entity} && effects == [ItemRemoved(entity)]
        else
          items == old(items)[entity := Stack(old(items)[entity].name, old(items)[entity].count - count)]
          && effects == [ItemChanged(entity)]
    {
      if entity !in items || items[entity].count < count {
        return [];
      }
      var left := items[entity].count - count;
      SetCount(entity, left);
      if left == 0 {
        Forget(entity);
        assert items == old(items) - {entity};
        return [ItemRemoved(entity)];
      }
      return [ItemChanged(entity)];
    }

    method Exchange(from: Id, slot: nat, to: Id, target: nat) returns (effects: seq<Effect>)
      requires Addressable(State(), from, slot, to, target)
      modifies this`slots
      ensures Change(State(), effects) == Exchanged(old(State()), from, slot, to, target)
      ensures effects == if from == to then [SlotsChanged(from)] else [SlotsChanged(from), SlotsChanged(to)]
    {
      var item, other := State().At(from, slot), State().At(to, target);
      SetSlot(from, slot, other);
      SetSlot(to, target, item);
      effects := if from == to then [SlotsChanged(from)] else [SlotsChanged(from), SlotsChanged(to)];
    }

    method TrySplit(from: Id, slot: nat, to: Id, target: nat, count: nat) returns (effects: Option<seq<Effect>>)
      modifies this
      ensures var split := Split(old(State()), from, slot, to, target, count);
        if split.None? then effects == None && State() == old(State())
        else effects == Some(split.value.effects) && State() == split.value.inv
    {
      var stack := State().StackAt(from, slot);
      if State().Slot(to, target) != Some(0) || stack.None? || count == 0 || count >= stack.value.count {
        return None;
      }
      var item := State().At(from, slot);
      SetCount(item, stack.value.count - count);
      var made := CreateStack(Stack(stack.value.name, count));
      SetSlot(to, target, made);
      return Some([ItemChanged(item), ItemCreated(made), SlotsChanged(to)]);
    }

    method TryMerge(from: Id, slot: nat, to: Id, target: nat, count: nat) returns (effects: Option<seq<Effect>>)
      modifies this
      ensures var merged := Merged(old(State()), from, slot, to, target, count);
        if merged.None? then effects == None && State() == old(State())
        else effects == Some(merged.value.effects) && State() == merged.value.inv
    {
      var moved := Mergeable(State(), from, slot, to, target, count);
      if moved == 0 {
        return None;
      }
      var item, into := State().At(from, slot), State().At(to, target);
      var left := items[item].count - moved;
      SetCount(into, items[into].count + moved);
      if left > 0 {
        SetCount(item, left);
        return Some([ItemChanged(into), ItemChanged(item)]);
      }
      SetSlot(from, slot, 0);
      Forget(item);
      return Some([ItemChanged(into), SlotsChanged(from), ItemRemoved(item)]);
    }

    method TransferToSlot(from: Id, slot: nat, to: Id, target: nat, count: nat) returns (effects: seq<Effect>)
      modifies this
      ensures Change(State(), effects) == Transferred(old(State()), from, slot, to, target, count)
    {
      if !Addressable(State(), from, slot, to, target) || State().At(from, slot) == 0 {
        return [];
      }
      var split := TrySplit(from, slot, to, target, count);
      if split.Some? {
        return split.value;
      }
      var merged := TryMerge(from, slot, to, target, count);
      if merged.Some? {
        return merged.value;
      }
      effects := Exchange(from, slot, to, target);
    }

    method Swap(from: Id, slot: nat, to: Id, target: nat) returns (effects: seq<Effect>)
      modifies this
      ensures Change(State(), effects) == Swapped(old(State()), from, slot, to, target)
    {
      if !Addressable(State(), from, slot, to, target) || (from, slot) == (to, target) || State().At(from, slot) == 0 {
        return [];
      }
      var merged := TryMerge(from, slot, to, target, 0);
      if merged.Some? {
        return merged.value;
      }
      effects := Exchange(from, slot, to, target);
    }

    /** Top up the first stack of `to` that takes some of the one in `from`'s square. */
    method TopUp(from: Id, slot: nat, to: Id) returns (effects: seq<Effect>)
      modifies this
      ensures Change(State(), effects) == ToppedUp(old(State()), from, slot, to)
    {
      hide Merged;
      var k := 0;
      while to in slots && k < |slots[to]|
        invariant State() == old(State())
        invariant TopUpFrom(State(), from, slot, to, 0) == TopUpFrom(State(), from, slot, to, k)
        decreases (if to in old(slots) then |old(slots)[to]| else 0) - k
      {
        var merged := TryMerge(from, slot, to, k, 0);
        if merged.Some? {
          assert TopUpFrom(old(State()), from, slot, to, k) == Some(k);
          return merged.value;
        }
        k := k + 1;
      }
      return [];
    }

    /** Move one square of `from`, and say whether the rucksack it goes to turned out to be full. */
    method TakeSquare(from: Id, k: nat, to: Id) returns (effects: seq<Effect>, full: bool)
      requires State().Slot(from, k).Some? && to in slots
      modifies this
      ensures (Change(State(), effects), full) == TakenSquare(old(State()), from, k, to)
    {
      hide ToppedUp, Exchanged, FirstFree;
      if State().At(from, k) == 0 {
        return [], false;
      }
      ToppedUpFrame(State(), from, k, to);
      effects := TopUp(from, k, to);
      if State().At(from, k) == 0 {
        return effects, false;
      }
      var free := FirstFreeRucksackSlot(to);
      if free.None? {
        return effects, true;
      }
      FreeSquare(State(), to);
      var moved := Exchange(from, k, to, free.value);
      effects := effects + moved;
      full := false;
    }

    method TransferAll(from: Id, to: Id) returns (effects: seq<Effect>)
      modifies this
      ensures Change(State(), effects) == TakenAll(old(State()), from, to)
    {
      hide TakenSquare;
      effects := [];
      if from !in slots || to !in slots {
        return;
      }
      var k, n := 0, |slots[from]|;
      while k < n
        invariant k <= n && from in slots && to in slots && |slots[from]| == n
        invariant Then(Change(State(), effects), TakenFrom(State(), from, to, k, n)) == TakenAll(old(State()), from, to)
      {
        TakenSquareFrame(State(), from, k, to);
        var taken, full := TakeSquare(from, k, to);
        effects := effects + taken;
        if full {
          return;
        }
        k := k + 1;
      }
    }

    method Destroy(owner: Id, slot: nat, count: nat) returns (effects: seq<Effect>)
      modifies this
      ensures Change(State(), effects) == Destroyed(old(State()), owner, slot, count)
      ensures if !(owner in old(slots) && slot < |old(slots)[owner]| && old(slots)[owner][slot] != 0)
        then State() == old(State()) && effects == []
        else
          var item := old(slots)[owner][slot];
          if item in old(items) && 0 < count < old(items)[item].count then
            slots == old(slots) && effects == [ItemChanged(item)]
            && items == old(items)[item := Stack(old(items)[item].name, old(items)[item].count - count)]
          else
            items == old(items) - {item} && effects == [SlotsChanged(owner), ItemRemoved(item)]
            && var row: seq<Id> := old(slots)[owner][slot := 0]; slots == old(slots)[owner := row]
    {
      var item := State().At(owner, slot);
      if item == 0 {
        return [];
      }
      var held := if item in items then items[item].count else 0;
      if count > 0 && count < held {
        SetCount(item, held - count);
        return [ItemChanged(item)];
      }
      SetSlot(owner, slot, 0);
      Forget(item);
      return [SlotsChanged(owner), ItemRemoved(item)];
    }

    method Equip(owner: Id, bag: nat, square: nat) returns (effects: seq<Effect>)
      modifies this`slots
      ensures Change(State(), effects) == Equipped(old(State()), owner, bag, square)
    {
      if !Addressable(State(), owner, bag, owner, square) || square < HAND_SLOTS || State().At(owner, bag) == 0 {
        return [];
      }
      effects := Exchange(owner, bag, owner, square);
    }

    method Unequip(owner: Id, square: nat) returns (effects: seq<Effect>)
      modifies this`slots
      ensures Change(State(), effects) == Unequipped(old(State()), owner, square)
    {
      var free := FirstFreeRucksackSlot(owner);
      if square < HAND_SLOTS || State().At(owner, square) == 0 || free.None? {
        return [];
      }
      effects := Exchange(owner, square, owner, free.value);
    }
  }
}
