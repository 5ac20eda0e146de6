/** A session's crafting, carried out on its inventories and queues in place. */
module Workbenches {
  import opened Wrappers
  import opened Numbers
  import opened Inventory
  import opened InventoryStore
  import opened Crafting

  class Workbench {
    const player: Id
    const hands: nat
    const inventories: Inventories
    var queues: map<Id, seq<Slot>>
    var made: seq<Craft>

    function State(): Shop
      reads this, inventories
    {
      Shop(inventories.State(), queues, made)
    }

    constructor (player: Id, hands: nat, inventories: Inventories)
      ensures this.player == player && this.hands == hands && this.inventories == inventories
      ensures State() == Shop(inventories.State(), map[], [])
    {
      this.player, this.hands, this.inventories := player, hands, inventories;
      queues, made := map[], [];
    }

    /** How many of `name` the player is carrying, across every stack. */
    method Held(name: nat) returns (count: nat)
      ensures count == HeldOf(inventories.State(), player, name)
    {
      count := 0;
      var width := Width(inventories.State(), player);
      for slot := 0 to width
        invariant count == HeldBelow(inventories.State(), player, name, slot)
      {
        var stack := inventories.State().StackAt(player, slot);
        if stack.Some? && stack.value.name == Some(name) {
          count := count + stack.value.count;
        }
      }
    }

    /** Take one item of `name`; no effects means there was none. */
    method TakeOne(name: nat) returns (effects: seq<Effect>)
      modifies inventories
      ensures inventories.State() == TookOne(old(inventories.State()), player, name)
      ensures effects == [] <==> FirstFrom(old(inventories.State()), player, name, 0).None?
    {
      var slot := 0;
      while slot < Width(inventories.State(), player)
        invariant inventories.State() == old(inventories.State())
        invariant FirstFrom(inventories.State(), player, name, 0) == FirstFrom(inventories.State(), player, name, slot)
        decreases Width(inventories.State(), player) - slot
      {
        var stack := inventories.State().StackAt(player, slot);
        if stack.Some? && stack.value.name == Some(name) {
          effects := inventories.Destroy(player, slot, 1);
          return;
        }
        slot := slot + 1;
      }
      return [];
    }

    method Take(name: nat, quantity: nat)
      modifies inventories
      ensures inventories.State() == Took(old(inventories.State()), player, name, quantity)
    {
      hide TookOne, FirstFrom;
      for k := 0 to quantity
        invariant inventories.State() == Took(old(inventories.State()), player, name, k)
      {
        var effects := TakeOne(name);
        if effects == [] {
          TookNoMore(old(inventories.State()), player, name, k, k + 1);
          TookNoMore(old(inventories.State()), player, name, k, quantity);
          assert inventories.State() == Took(old(inventories.State()), player, name, k + 1);
          return;
        }
      }
    }

    method QueueRecipe(entity: Id, recipe: Option<Recipe>, station: Option<Station>, now: nat) returns (refusal: Option<Refusal>)
      modifies this, inventories
      ensures refusal == Refused(old(State()), player, hands, entity, recipe, station)
      ensures State() == Queued(old(State()), player, hands, entity, recipe, station, now)
      ensures var waiting := if entity in old(queues) then |old(queues)[entity]| else 0;
        var here := recipe.Some? && station.Some?
          && (recipe.value.station == Some(station.value.kind) || recipe.value.station == Some(hands));
        var enough := recipe.Some? && forall i | 0 <= i < |recipe.value.materials| ::
          HeldOf(old(inventories.State()), player, recipe.value.materials[i].0) >= recipe.value.materials[i].1;
        && (refusal == None <==> here && waiting < station.value.slots && enough)
        && (recipe.None? ==> refusal == Some(NoItem))
        && (recipe.Some? && station.None? ==> refusal == Some(NoStation))
        && (recipe.Some? && station.Some? && !here ==> refusal == Some(NotMadeHere))
        && (here && waiting >= station.value.slots ==> refusal == Some(NoFreeSlot))
        && (here && waiting < station.value.slots && !enough ==> refusal == Some(NotEnough))
      ensures refusal.Some? ==> State() == old(State())
      ensures refusal.None? ==>
        queues == old(queues)[entity := (if entity in old(queues) then old(queues)[entity] else []) + [Slot(|old(made)|, false)]]
        && made == old(made) + [Craft(entity, recipe.value, now)]
    {
      hide HeldOf, Took;
      if recipe.None? {
        return Some(NoItem);
      }
      if station.None? {
        return Some(NoStation);
      }
      var craft := recipe.value;
      if craft.station != Some(station.value.kind) && craft.station != Some(hands) {
        return Some(NotMadeHere);
      }
      if |State().QueueOf(entity)| >= station.value.slots {
        return Some(NoFreeSlot);
      }
      for i := 0 to |craft.materials|
        invariant State() == old(State())
        invariant forall j | 0 <= j < i :: craft.materials[j].1 <= HeldOf(inventories.State(), player, craft.materials[j].0)
      {
        var held := Held(craft.materials[i].0);
        if held < craft.materials[i].1 {
          return Some(NotEnough);
        }
      }
      for i := 0 to |craft.materials|
        invariant queues == old(queues) && made == old(made)
        invariant inventories.State() == TookAll(old(inventories.State()), player, craft.materials[..i])
      {
        assert craft.materials[..i + 1][..i] == craft.materials[..i];
        Take(craft.materials[i].0, craft.materials[i].1);
      }
      assert craft.materials[..|craft.materials|] == craft.materials;
      queues := queues[entity := State().QueueOf(entity) + [Slot(|made|, false)]];
      made := made + [Craft(entity, craft, now)];
      return None;
    }

    /** "Your item is ready", for every craft of one queue whose timer has just run out. */
    method Announcements(entity: Id, now: nat) returns (out: seq<Output>)
      requires Known(State(), entity)
      modifies this`queues
      ensures (State(), out) == ToldReady(old(State()), entity, now, |old(State()).QueueOf(entity)|)
    {
      out := [];
      if entity !in queues {
        return;
      }
      ghost var before := State();
      for i := 0 to |queues[entity]|
        invariant entity in queues && |queues[entity]| == |before.QueueOf(entity)| && Known(State(), entity)
        invariant (State(), out) == ToldReady(before, entity, now, i)
      {
        var slot := queues[entity][i];
        ghost var (now0, told) := (State(), out);
        assert slot in now0.QueueOf(entity);
        if !slot.announced && made[slot.serial].Ready() <= now {
          queues := queues[entity := queues[entity][i := slot.(announced := true)]];
          out := out + [Toast(slot.serial, now)];
        }
        assert State() == ToldOne(now0, entity, i, now).0;
        assert out == told + ToldOne(now0, entity, i, now).1;
      }
    }

    /** One tick: every queue is gone through, in whatever order they come, all at one time. */
    method AnnounceAll(now: nat, ghost setting: Setting) returns (out: seq<Output>, ghost order: seq<Id>)
      requires AllKnown(State())
      modifies this`queues
      ensures GoesThrough(order, old(queues).Keys)
      ensures (State(), out) == Ran(old(State()), setting, [], Announcing(order, now))
    {
      hide ToldReady, Ran;
      out, order := [], [];
      var rest := queues.Keys;
      assert Announcing([], now) == [];
      NothingRan(State(), setting);
      while rest != {}
        invariant queues.Keys == old(queues).Keys && rest <= queues.Keys && AllKnown(State())
        invariant GoesThrough(order, old(queues).Keys - rest)
        invariant (State(), out) == Ran(old(State()), setting, [], Announcing(order, now))
        decreases |rest|
      {
        var entity :| entity in rest;
        assert Known(State(), entity);
        AnnouncedNext(old(State()), setting, order, entity, now);
        ToldAllKnown(State(), entity, now);
        ToldElsewhere(State(), entity, now, |State().QueueOf(entity)|);
        var more := Announcements(entity, now);
        out := out + more;
        order := order + [entity];
        rest := rest - {entity};
      }
    }

    method CollectCraft(entity: Id, slot: nat, now: nat) returns (out: seq<Output>)
      requires Known(State(), entity)
      modifies this`queues, inventories
      ensures (State(), out) == CraftTaken(old(State()), player, entity, slot, now)
    {
      var queue := State().QueueOf(entity);
      if slot >= |queue| {
        return [];
      }
      var craft := made[queue[slot].serial];
      var elapsed := Less(now, craft.started);
      if elapsed < Less(craft.recipe.duration, COLLECT_GRACE_MS) {
        return [];
      }
      queues := queues[entity := queue[..slot] + queue[slot + 1..]];
      var free := inventories.FirstFreeRucksackSlot(player);
      if free.None? {
        return [Release(queue[slot].serial, now, false)];
      }
      FreeSquare(inventories.State(), player);
      var stack := inventories.Give(player, free.value, craft.recipe.output, craft.recipe.quantity);
      return [Release(queue[slot].serial, now, stack.Some?)];
    }
  }

  /** Once there is none left, taking more changes nothing. */
  lemma {:induction false} TookNoMore(inv: Inv, owner: Id, name: nat, k: nat, n: nat)
    requires k <= n && FirstFrom(Took(inv, owner, name, k), owner, name, 0).None?
    ensures Took(inv, owner, name, n) == Took(inv, owner, name, k)
  {
    if k < n {
      TookNoMore(inv, owner, name, k, n - 1);
    }
  }
}
