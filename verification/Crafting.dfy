/** The crafting queue: what a craft costs, when it is ready, and when it may be collected. */
module Crafting {
  import opened Wrappers
  import opened Numbers
  import opened Inventory

  const COLLECT_GRACE_MS: nat := 250

  datatype Recipe = Recipe(
    id: nat, output: nat, quantity: nat, materials: seq<(nat, nat)>, station: Option<nat>, duration: nat)

  /** What an entity is as a crafting station, and how many crafts it holds. */
  datatype Station = Station(kind: nat, slots: nat)

  /** A craft once accepted; its serial number is its place in the list of all of them. */
  datatype Craft = Craft(entity: Id, recipe: Recipe, started: nat) {
    function Ready(): nat { started + recipe.duration }
  }

  datatype Slot = Slot(serial: nat, announced: bool)

  datatype Shop = Shop(inv: Inv, queues: map<Id, seq<Slot>>, made: seq<Craft>) {
    function QueueOf(entity: Id): seq<Slot> { if entity in queues then queues[entity] else [] }
  }

  datatype Refusal = NoItem | NoStation | NotMadeHere | NoFreeSlot | NotEnough

  /** What the player is told: a toast when a craft is ready, and the craft itself when collected. */
  datatype Output = Toast(serial: nat, at: nat) | Release(serial: nat, at: nat, granted: bool)

  // --- what the player holds, item by item ---

  function CountAt(inv: Inv, owner: Id, name: nat, slot: nat): nat {
    var stack := inv.StackAt(owner, slot);
    if stack.Some? && stack.value.name == Some(name) then stack.value.count else 0
  }

  function HeldBelow(inv: Inv, owner: Id, name: nat, n: nat): nat {
    if n == 0 then 0 else HeldBelow(inv, owner, name, n - 1) + CountAt(inv, owner, name, n - 1)
  }

  function Width(inv: Inv, owner: Id): nat { if owner in inv.slots then |inv.slots[owner]| else 0 }

  function HeldOf(inv: Inv, owner: Id, name: nat): nat { HeldBelow(inv, owner, name, Width(inv, owner)) }

  /** The first square holding a stack of `name`, at or after `k`. */
  function FirstFrom(inv: Inv, owner: Id, name: nat, k: nat): (r: Option<nat>)
    ensures r.Some? ==> k <= r.value < Width(inv, owner)
    ensures r.Some? ==> inv.StackAt(owner, r.value).Some? && inv.StackAt(owner, r.value).value.name == Some(name)
    ensures forall j | k <= j < (if r.Some? then r.value else Width(inv, owner)) ::
      inv.StackAt(owner, j).Some? ==> inv.StackAt(owner, j).value.name != Some(name)
    decreases Width(inv, owner) - k
  {
    if k >= Width(inv, owner) then None
    else if inv.StackAt(owner, k).Some? && inv.StackAt(owner, k).value.name == Some(name) then Some(k)
    else FirstFrom(inv, owner, name, k + 1)
  }

  function TookOne(inv: Inv, owner: Id, name: nat): Inv {
    var slot := FirstFrom(inv, owner, name, 0);
    if slot.None? then inv else Destroyed(inv, owner, slot.value, 1).inv
  }

  function Took(inv: Inv, owner: Id, name: nat, quantity: nat): Inv {
    if quantity == 0 then inv else TookOne(Took(inv, owner, name, quantity - 1), owner, name)
  }

  function TookAll(inv: Inv, owner: Id, materials: seq<(nat, nat)>): Inv {
    if materials == [] then inv
    else
      var last := materials[|materials| - 1];
      Took(TookAll(inv, owner, materials[..|materials| - 1]), owner, last.0, last.1)
  }

  /** How much of `name` a list of materials asks for in all. */
  function Asked(materials: seq<(nat, nat)>, name: nat): nat {
    if materials == [] then 0
    else
      Asked(materials[..|materials| - 1], name)
      + if materials[|materials| - 1].0 == name then materials[|materials| - 1].1 else 0
  }

  /** No stack in a square is empty. */
  ghost predicate Solid(inv: Inv, owner: Id) {
    forall i: nat :: inv.StackAt(owner, i).Some? ==> inv.StackAt(owner, i).value.count > 0
  }

  lemma {:induction false} HeldChanges(a: Inv, b: Inv, owner: Id, name: nat, slot: nat, n: nat)
    requires forall i: nat | i != slot :: CountAt(b, owner, name, i) == CountAt(a, owner, name, i)
    ensures HeldBelow(b, owner, name, n) - HeldBelow(a, owner, name, n)
      == if slot < n then CountAt(b, owner, name, slot) - CountAt(a, owner, name, slot) else 0
  {
    hide CountAt;
    if n > 0 {
      HeldChanges(a, b, owner, name, slot, n - 1);
    }
  }

  /** What is held is the sum over the squares: each square gives its own count, and empty squares nothing. */
  lemma HeldIs(inv: Inv, owner: Id, name: nat, slot: nat)
    requires owner in inv.slots && slot < |inv.slots[owner]|
    ensures HeldOf(inv, owner, name)
         == HeldOf(inv.Put(owner, slot, 0), owner, name)
            + (var stack := inv.StackAt(owner, slot);
               if stack.Some? && stack.value.name == Some(name) then stack.value.count else 0)
    ensures (forall i | 0 <= i < |inv.slots[owner]| :: inv.slots[owner][i] == 0) ==> HeldOf(inv, owner, name) == 0
  {
    var after := inv.Put(owner, slot, 0);
    assert Width(after, owner) == Width(inv, owner) == |inv.slots[owner]|;
    HeldChanges(inv, after, owner, name, slot, Width(inv, owner));
    if forall i | 0 <= i < |inv.slots[owner]| :: inv.slots[owner][i] == 0 {
      HeldOfEmpty(inv, owner, name, Width(inv, owner));
    }
  }

  lemma {:induction false} HeldOfEmpty(inv: Inv, owner: Id, name: nat, n: nat)
    requires forall i: nat | i < n :: inv.At(owner, i) == 0
    ensures HeldBelow(inv, owner, name, n) == 0
  {
    if n > 0 {
      HeldOfEmpty(inv, owner, name, n - 1);
    }
  }

  lemma {:induction false} NoneHeld(inv: Inv, owner: Id, name: nat, k: nat, n: nat)
    requires FirstFrom(inv, owner, name, k).None? && k <= n <= Width(inv, owner)
    ensures HeldBelow(inv, owner, name, n) == HeldBelow(inv, owner, name, k)
    decreases n - k
  {
    if k < n {
      NoneHeld(inv, owner, name, k + 1, n);
      assert HeldBelow(inv, owner, name, k + 1) == HeldBelow(inv, owner, name, k);
    }
  }

  /** Destroying one item of a square's stack touches no other square. */
  lemma DestroyedOne(inv: Inv, owner: Id, slot: nat)
    requires Valid(inv) && Solid(inv, owner) && inv.StackAt(owner, slot).Some?
    ensures var after := Destroyed(inv, owner, slot, 1).inv;
      var stack := inv.StackAt(owner, slot).value;
      Width(after, owner) == Width(inv, owner)
      && (forall i: nat | i != slot :: after.StackAt(owner, i) == inv.StackAt(owner, i))
      && after.StackAt(owner, slot) == if stack.count > 1 then Some(stack.(count := stack.count - 1)) else None
  {
    var after := Destroyed(inv, owner, slot, 1).inv;
    var item := inv.At(owner, slot);
    AtPut(inv, owner, slot, 0);
    if inv.items[item].count > 1 {
      assert forall i: nat :: after.At(owner, i) == inv.At(owner, i);
    } else {
      assert forall i: nat :: after.At(owner, i) == inv.Put(owner, slot, 0).At(owner, i);
    }
    forall i: nat | i != slot ensures after.StackAt(owner, i) == inv.StackAt(owner, i) {
      assert inv.At(owner, i) != 0 ==> inv.At(owner, i) != item;
    }
  }

  /** Taking one takes exactly one of that item, while there is any, and nothing else. */
  lemma TookOneTakes(inv: Inv, owner: Id, name: nat, other: nat)
    requires Valid(inv) && Solid(inv, owner)
    ensures var after := TookOne(inv, owner, name);
      Valid(after) && Solid(after, owner) && Width(after, owner) == Width(inv, owner)
      && HeldOf(after, owner, other) == Less(HeldOf(inv, owner, other), if other == name then 1 else 0)
  {
    var after := TookOne(inv, owner, name);
    var slot := FirstFrom(inv, owner, name, 0);
    if slot.None? {
      NoneHeld(inv, owner, name, 0, Width(inv, owner));
    } else {
      DestroyedTakes(inv, owner, slot.value, 1, Some(name));
      DestroyedOne(inv, owner, slot.value);
      hide Valid, Destroyed, Carried;
      HeldChanges(inv, after, owner, other, slot.value, Width(inv, owner));
      HeldAtLeast(inv, owner, name, slot.value, Width(inv, owner));
    }
  }

  lemma {:induction false} HeldAtLeast(inv: Inv, owner: Id, name: nat, slot: nat, n: nat)
    requires slot < n
    ensures CountAt(inv, owner, name, slot) <= HeldBelow(inv, owner, name, n)
  {
    hide CountAt;
    if slot < n - 1 {
      HeldAtLeast(inv, owner, name, slot, n - 1);
    }
  }

  lemma {:induction false} TookTakes(inv: Inv, owner: Id, name: nat, quantity: nat, other: nat)
    requires Valid(inv) && Solid(inv, owner)
    ensures var after := Took(inv, owner, name, quantity);
      Valid(after) && Solid(after, owner) && Width(after, owner) == Width(inv, owner)
      && HeldOf(after, owner, other) == Less(HeldOf(inv, owner, other), if other == name then quantity else 0)
  {
    hide Valid, Solid, TookOne, HeldOf;
    if quantity > 0 {
      TookTakes(inv, owner, name, quantity - 1, other);
      TookOneTakes(Took(inv, owner, name, quantity - 1), owner, name, other);
    }
  }

  /** A craft's materials come off what is held, each by all the list asks of it, down to nothing. */
  lemma {:induction false} MaterialsTaken(inv: Inv, owner: Id, materials: seq<(nat, nat)>, other: nat)
    requires Valid(inv) && Solid(inv, owner)
    ensures var after := TookAll(inv, owner, materials);
      Valid(after) && Solid(after, owner) && Width(after, owner) == Width(inv, owner)
      && HeldOf(after, owner, other) == Less(HeldOf(inv, owner, other), Asked(materials, other))
  {
    hide Valid, Solid, Took, HeldOf;
    if materials != [] {
      var before, last := materials[..|materials| - 1], materials[|materials| - 1];
      MaterialsTaken(inv, owner, before, other);
      TookTakes(TookAll(inv, owner, before), owner, last.0, last.1, other);
    }
  }

  // --- accepting a craft ---

  predicate Affordable(inv: Inv, owner: Id, materials: seq<(nat, nat)>) {
    forall i | 0 <= i < |materials| :: materials[i].1 <= HeldOf(inv, owner, materials[i].0)
  }

  /** Why a craft is refused, checked in this order; nothing when it is not. */
  function Refused(shop: Shop, player: Id, hands: nat, entity: Id, recipe: Option<Recipe>, station: Option<Station>): Option<Refusal> {
    if recipe.None? then Some(NoItem)
    else if station.None? then Some(NoStation)
    else if recipe.value.station != Some(station.value.kind) && recipe.value.station != Some(hands) then Some(NotMadeHere)
    else if |shop.QueueOf(entity)| >= station.value.slots then Some(NoFreeSlot)
    else if !Affordable(shop.inv, player, recipe.value.materials) then Some(NotEnough)
    else None
  }

  function Queued(shop: Shop, player: Id, hands: nat, entity: Id, recipe: Option<Recipe>, station: Option<Station>, now: nat): Shop {
    if Refused(shop, player, hands, entity, recipe, station).Some? then shop
    else
      Shop(TookAll(shop.inv, player, recipe.value.materials),
           shop.queues[entity := shop.QueueOf(entity) + [Slot(|shop.made|, false)]],
           shop.made + [Craft(entity, recipe.value, now)])
  }

  predicate DistinctMaterials(materials: seq<(nat, nat)>) {
    forall i, j | 0 <= i < j < |materials| :: materials[i].0 != materials[j].0
  }

  lemma {:induction false} AskedOnce(materials: seq<(nat, nat)>, i: nat)
    requires DistinctMaterials(materials) && i < |materials|
    ensures Asked(materials, materials[i].0) == materials[i].1
  {
    var n := |materials| - 1;
    if i < n {
      AskedOnce(materials[..n], i);
    } else {
      NotAsked(materials[..n], materials[i].0);
    }
  }

  lemma {:induction false} NotAsked(materials: seq<(nat, nat)>, name: nat)
    requires forall i | 0 <= i < |materials| :: materials[i].0 != name
    ensures Asked(materials, name) == 0
  {
    if materials != [] {
      NotAsked(materials[..|materials| - 1], name);
    }
  }

  /**
    An accepted craft takes of each item what its list asks for in all, down to nothing, so it
    takes exactly the list if and only if that much was held.
   */
  lemma AcceptedCosts(
    shop: Shop, player: Id, hands: nat, entity: Id, recipe: Option<Recipe>, station: Option<Station>, now: nat, name: nat)
    requires Valid(shop.inv) && Solid(shop.inv, player)
    requires Refused(shop, player, hands, entity, recipe, station).None?
    ensures var held, asked := HeldOf(shop.inv, player, name), Asked(recipe.value.materials, name);
      var after := HeldOf(Queued(shop, player, hands, entity, recipe, station, now).inv, player, name);
      after == Less(held, asked) && (after + asked == held <==> asked <= held)
  {
    MaterialsTaken(shop.inv, player, recipe.value.materials, name);
  }

  /** A list that names no item twice is always taken exactly. */
  lemma DistinctCostsExactly(
    shop: Shop, player: Id, hands: nat, entity: Id, recipe: Option<Recipe>, station: Option<Station>, now: nat, name: nat)
    requires Valid(shop.inv) && Solid(shop.inv, player)
    requires Refused(shop, player, hands, entity, recipe, station).None? && DistinctMaterials(recipe.value.materials)
    ensures HeldOf(Queued(shop, player, hands, entity, recipe, station, now).inv, player, name) + Asked(recipe.value.materials, name)
         == HeldOf(shop.inv, player, name)
  {
    var materials := recipe.value.materials;
    AcceptedCosts(shop, player, hands, entity, recipe, station, now, name);
    hide Valid, Solid, HeldOf, Queued;
    if i :| 0 <= i < |materials| && materials[i].0 == name {
      AskedOnce(materials, i);
    } else {
      NotAsked(materials, name);
    }
  }

  /** Asked for three and three of one item, four are enough to start and four are taken. */
  lemma TwiceAskedOnceChecked(inv: Inv, player: Id, name: nat)
    requires Valid(inv) && Solid(inv, player) && HeldOf(inv, player, name) == 4
    ensures Affordable(inv, player, [(name, 3), (name, 3)])
    ensures HeldOf(TookAll(inv, player, [(name, 3), (name, 3)]), player, name) == 0
  {
    var materials := [(name, 3), (name, 3)];
    MaterialsTaken(inv, player, materials, name);
    assert materials[..1] == [(name, 3)];
    assert Asked([(name, 3)], name) == 3 by {
      assert [(name, 3)][..0] == [];
    }
    assert Asked(materials, name) == 6;
  }

  // --- ready, and collected ---

  predicate Known(shop: Shop, entity: Id) {
    forall s | s in shop.QueueOf(entity) :: s.serial < |shop.made|
  }

  /** A toast for one craft, if it is ready and has had none. */
  function ToldOne(shop: Shop, entity: Id, i: nat, now: nat): (Shop, seq<Output>)
    requires Known(shop, entity) && i < |shop.QueueOf(entity)|
  {
    var queue := shop.QueueOf(entity);
    var s := queue[i];
    assert s in queue;
    if s.announced || shop.made[s.serial].Ready() > now then (shop, [])
    else (shop.(queues := shop.queues[entity := queue[i := s.(announced := true)]]), [Toast(s.serial, now)])
  }

  /** The same for the first `n` crafts of a queue. */
  function ToldReady(shop: Shop, entity: Id, now: nat, n: nat): (r: (Shop, seq<Output>))
    requires Known(shop, entity) && n <= |shop.QueueOf(entity)|
    ensures Known(r.0, entity) && r.0.made == shop.made && |r.0.QueueOf(entity)| == |shop.QueueOf(entity)|
  {
    if n == 0 then (shop, [])
    else
      var (before, told) := ToldReady(shop, entity, now, n - 1);
      var (after, more) := ToldOne(before, entity, n - 1, now);
      (after, told + more)
  }

  /** Long enough since it was started, less the grace the client's clock is given. */
  predicate Collectable(craft: Craft, now: nat) {
    Less(now, craft.started) >= Less(craft.recipe.duration, COLLECT_GRACE_MS)
  }

  function Finished(inv: Inv, player: Id, recipe: Recipe): Option<Inv> {
    var free := FirstFree(inv, player);
    if free.None? then None else Given(inv, player, free.value, recipe.output, recipe.quantity)
  }

  function CraftTaken(shop: Shop, player: Id, entity: Id, slot: nat, now: nat): (Shop, seq<Output>)
    requires Known(shop, entity)
  {
    var queue := shop.QueueOf(entity);
    if slot >= |queue| || !Collectable(shop.made[queue[slot].serial], now) then (shop, [])
    else
      var finished := Finished(shop.inv, player, shop.made[queue[slot].serial].recipe);
      (Shop(if finished.Some? then finished.value else shop.inv,
            shop.queues[entity := queue[..slot] + queue[slot + 1..]], shop.made),
       [Release(queue[slot].serial, now, finished.Some?)])
  }

  // --- whole runs ---

  datatype Event =
    | Queue(entity: Id, recipe: Option<Recipe>, now: nat)
    | Announce(entity: Id, now: nat)
    | Collect(entity: Id, slot: nat, now: nat)

  /** Who crafts where: the player, what bare hands are called, and the stations there are. */
  datatype Setting = Setting(player: Id, hands: nat, stations: map<Id, Station>) {
    function StationOf(entity: Id): Option<Station> { if entity in stations then Some(stations[entity]) else None }

    function SlotsOf(entity: Id): nat { if entity in stations then stations[entity].slots else 0 }
  }

  ghost predicate AllKnown(shop: Shop) {
    forall entity: Id :: Known(shop, entity)
  }

  function Stepped(shop: Shop, setting: Setting, e: Event): (Shop, seq<Output>)
    requires AllKnown(shop)
  {
    match e
    case Queue(entity, recipe, now) =>
      (Queued(shop, setting.player, setting.hands, entity, recipe, setting.StationOf(entity), now), [])
    case Announce(entity, now) => ToldReady(shop, entity, now, |shop.QueueOf(entity)|)
    case Collect(entity, slot, now) => CraftTaken(shop, setting.player, entity, slot, now)
  }

  function ToastsOf(log: seq<Output>, serial: nat): nat {
    if log == [] then 0
    else
      var last := log[|log| - 1];
      ToastsOf(log[..|log| - 1], serial) + if last.Toast? && last.serial == serial then 1 else 0
  }

  function ReleasesOf(log: seq<Output>, serial: nat): nat {
    if log == [] then 0
    else
      var last := log[|log| - 1];
      ReleasesOf(log[..|log| - 1], serial) + if last.Release? && last.serial == serial then 1 else 0
  }

  /** Each waiting craft is in its own station's queue, unreleased, and marked if it had its toast. */
  ghost predicate Waiting(shop: Shop, log: seq<Output>, entity: Id, i: nat)
    requires i < |shop.QueueOf(entity)|
  {
    var s := shop.QueueOf(entity)[i];
    s.serial < |shop.made| && shop.made[s.serial].entity == entity && ReleasesOf(log, s.serial) == 0
    && ToastsOf(log, s.serial) == if s.announced then 1 else 0
  }

  ghost predicate InQueue(shop: Shop, serial: nat)
    requires serial < |shop.made|
  {
    exists i :: 0 <= i < |shop.QueueOf(shop.made[serial].entity)| && shop.QueueOf(shop.made[serial].entity)[i].serial == serial
  }

  ghost predicate Accounted(shop: Shop, log: seq<Output>, serial: nat)
    requires serial < |shop.made|
  {
    ToastsOf(log, serial) <= 1 && ReleasesOf(log, serial) == if InQueue(shop, serial) then 0 else 1
  }

  ghost predicate Ordered(queue: seq<Slot>) {
    forall i, j | 0 <= i < j < |queue| :: queue[i].serial < queue[j].serial
  }

  /** No toast before its craft is ready, and no release before its time less the grace. */
  ghost predicate Timely(shop: Shop, out: Output) {
    out.serial < |shop.made| && match out
      case Toast(serial, at) => shop.made[serial].Ready() <= at
      case Release(serial, at, _) => Collectable(shop.made[serial], at)
  }

  /** Crafts wait in the order they were queued, and no station holds more than it has slots for. */
  ghost predicate Bounded(shop: Shop, setting: Setting) {
    forall entity: Id :: Ordered(shop.QueueOf(entity)) && |shop.QueueOf(entity)| <= setting.SlotsOf(entity)
  }

  ghost predicate Sound(shop: Shop, setting: Setting, log: seq<Output>) {
    Bounded(shop, setting) &&
    (forall entity: Id, i: nat | i < |shop.QueueOf(entity)| :: Waiting(shop, log, entity, i)) &&
    (forall serial: nat | serial < |shop.made| :: Accounted(shop, log, serial)) &&
    (forall out | out in log :: Timely(shop, out))
  }

  lemma SoundKnown(shop: Shop, setting: Setting, log: seq<Output>)
    requires Sound(shop, setting, log)
    ensures AllKnown(shop)
  {
    forall entity: Id ensures Known(shop, entity) {
      forall s | s in shop.QueueOf(entity) ensures s.serial < |shop.made| {
        var i :| 0 <= i < |shop.QueueOf(entity)| && shop.QueueOf(entity)[i] == s;
        assert Waiting(shop, log, entity, i);
      }
    }
  }

  lemma QueueChanged(shop: Shop, after: Shop, entity: Id, queue: seq<Slot>)
    requires after.queues == shop.queues[entity := queue]
    ensures forall e: Id :: after.QueueOf(e) == if e == entity then queue else shop.QueueOf(e)
  {
  }

  lemma QueuedBounded(shop: Shop, setting: Setting, log: seq<Output>, after: Shop, entity: Id, announced: bool)
    requires Sound(shop, setting, log)
    requires after.queues == shop.queues[entity := shop.QueueOf(entity) + [Slot(|shop.made|, announced)]]
    requires |shop.QueueOf(entity)| < setting.SlotsOf(entity)
    ensures Bounded(after, setting)
  {
    var queue := shop.QueueOf(entity);
    QueueChanged(shop, after, entity, queue + [Slot(|shop.made|, announced)]);
    forall i | 0 <= i < |queue| ensures queue[i].serial < |shop.made| {
      assert Waiting(shop, log, entity, i);
    }
    assert Ordered(queue);
    hide Waiting, Accounted, Timely;
  }

  /** No craft of a serial number not given out yet has been announced or released. */
  ghost predicate Unheard(log: seq<Output>, from: nat) {
    forall serial: nat | serial >= from :: ToastsOf(log, serial) == 0 && ReleasesOf(log, serial) == 0
  }

  /** An accepted craft joins the end of its own queue; the others stay. */
  lemma AcceptedQueues(shop: Shop, setting: Setting, entity: Id, recipe: Option<Recipe>, now: nat)
    requires Refused(shop, setting.player, setting.hands, entity, recipe, setting.StationOf(entity)).None?
    ensures var after := Queued(shop, setting.player, setting.hands, entity, recipe, setting.StationOf(entity), now);
      after.made == shop.made + [Craft(entity, recipe.value, now)] && InQueue(after, |shop.made|)
      && after.QueueOf(entity) == shop.QueueOf(entity) + [Slot(|shop.made|, false)]
      && forall e: Id | e != entity :: after.QueueOf(e) == shop.QueueOf(e)
  {
    hide TookAll, Affordable;
    var after := Queued(shop, setting.player, setting.hands, entity, recipe, setting.StationOf(entity), now);
    assert after.made[|shop.made|].entity == entity;
    assert after.QueueOf(entity)[|shop.QueueOf(entity)|].serial == |shop.made|;
  }

  /** There was room for it, and nothing else was waiting under its serial number. */
  lemma QueuedSound(shop: Shop, setting: Setting, log: seq<Output>, entity: Id, recipe: Option<Recipe>, now: nat)
    requires Sound(shop, setting, log) && Unheard(log, |shop.made|)
    ensures Sound(Queued(shop, setting.player, setting.hands, entity, recipe, setting.StationOf(entity), now), setting, log)
  {
    hide TookAll, Affordable, ToastsOf, ReleasesOf, Bounded, Ordered;
    var after := Queued(shop, setting.player, setting.hands, entity, recipe, setting.StationOf(entity), now);
    if after.made != shop.made {
      var queue, serial := shop.QueueOf(entity), |shop.made|;
      AcceptedQueues(shop, setting, entity, recipe, now);
      QueuedBounded(shop, setting, log, after, entity, false);
      forall e: Id, i: nat | i < |after.QueueOf(e)| ensures Waiting(after, log, e, i) {
        if e != entity || i < |queue| {
          assert after.QueueOf(e)[i] == shop.QueueOf(e)[i];
          assert Waiting(shop, log, e, i);
        }
      }
      forall k: nat | k < |after.made| ensures Accounted(after, log, k) {
        if k < serial {
          assert Accounted(shop, log, k) && after.made[k] == shop.made[k];
          QueueGrew(shop, after, entity, Slot(serial, false), k);
        }
      }
      forall out | out in log ensures Timely(after, out) {
        assert Timely(shop, out);
      }
    } else {
      RefusedChanges(shop, setting, entity, recipe, now);
    }
  }

  /** A refusal changes nothing. */
  lemma RefusedChanges(shop: Shop, setting: Setting, entity: Id, recipe: Option<Recipe>, now: nat)
    ensures var after := Queued(shop, setting.player, setting.hands, entity, recipe, setting.StationOf(entity), now);
      after == shop <==> Refused(shop, setting.player, setting.hands, entity, recipe, setting.StationOf(entity)).Some?
    ensures var after := Queued(shop, setting.player, setting.hands, entity, recipe, setting.StationOf(entity), now);
      after == shop <==> after.made == shop.made
  {
    hide TookAll, Affordable;
    if Refused(shop, setting.player, setting.hands, entity, recipe, setting.StationOf(entity)).None? {
      var after := Queued(shop, setting.player, setting.hands, entity, recipe, setting.StationOf(entity), now);
      assert |after.made| == |shop.made| + 1;
    }
  }

  lemma QueueGrew(shop: Shop, after: Shop, entity: Id, slot: Slot, k: nat)
    requires k < |shop.made| <= |after.made| && after.made[k] == shop.made[k] && slot.serial != k
    requires after.QueueOf(entity) == shop.QueueOf(entity) + [slot]
    requires forall e: Id | e != entity :: after.QueueOf(e) == shop.QueueOf(e)
    ensures InQueue(after, k) <==> InQueue(shop, k)
  {
    var e := shop.made[k].entity;
    if InQueue(shop, k) {
      var i :| 0 <= i < |shop.QueueOf(e)| && shop.QueueOf(e)[i].serial == k;
      assert after.QueueOf(e)[i].serial == k;
    }
    if InQueue(after, k) {
      var i :| 0 <= i < |after.QueueOf(e)| && after.QueueOf(e)[i].serial == k;
      assert shop.QueueOf(e)[i].serial == k;
    }
  }

  lemma CountsAppend(log: seq<Output>, out: Output, serial: nat)
    ensures ToastsOf(log + [out], serial) == ToastsOf(log, serial) + if out.Toast? && out.serial == serial then 1 else 0
    ensures ReleasesOf(log + [out], serial) == ReleasesOf(log, serial) + if out.Release? && out.serial == serial then 1 else 0
  {
    assert (log + [out])[..|log|] == log;
  }

  lemma OrderedDistinct(queue: seq<Slot>, i: nat, j: nat)
    requires Ordered(queue) && i < |queue| && j < |queue| && queue[i].serial == queue[j].serial
    ensures i == j
  {
  }

  /** A craft waits in one place only. */
  lemma WaitsOnce(shop: Shop, setting: Setting, log: seq<Output>, e: Id, i: nat, f: Id, j: nat)
    requires Sound(shop, setting, log) && i < |shop.QueueOf(e)| && j < |shop.QueueOf(f)|
    ensures shop.QueueOf(e)[i].serial == shop.QueueOf(f)[j].serial <==> (e, i) == (f, j)
  {
    hide ReleasesOf, ToastsOf, Accounted, Timely, Ordered;
    assert Waiting(shop, log, e, i) && Waiting(shop, log, f, j);
    assert Ordered(shop.QueueOf(e));
    if e == f && shop.QueueOf(e)[i].serial == shop.QueueOf(f)[j].serial {
      OrderedDistinct(shop.QueueOf(e), i, j);
    }
  }

  lemma SameSerials(shop: Shop, after: Shop, k: nat)
    requires k < |shop.made| && after.made == shop.made
    requires forall e: Id :: |after.QueueOf(e)| == |shop.QueueOf(e)|
    requires forall e: Id, i: nat | i < |shop.QueueOf(e)| :: after.QueueOf(e)[i].serial == shop.QueueOf(e)[i].serial
    ensures InQueue(after, k) <==> InQueue(shop, k)
  {
    var e := shop.made[k].entity;
    if InQueue(shop, k) {
      var i :| 0 <= i < |shop.QueueOf(e)| && shop.QueueOf(e)[i].serial == k;
      assert after.QueueOf(e)[i].serial == k;
    }
    if InQueue(after, k) {
      var i :| 0 <= i < |after.QueueOf(e)| && after.QueueOf(e)[i].serial == k;
      assert shop.QueueOf(e)[i].serial == k;
    }
  }

  /** `after` is `shop` with one craft of a queue marked as told. */
  ghost predicate Marked(shop: Shop, after: Shop, entity: Id, at: nat)
    requires at < |shop.QueueOf(entity)|
  {
    after.made == shop.made
    && after.QueueOf(entity) == shop.QueueOf(entity)[at := shop.QueueOf(entity)[at].(announced := true)]
    && forall e: Id | e != entity :: after.QueueOf(e) == shop.QueueOf(e)
  }

  lemma MarkedWaits(shop: Shop, after: Shop, setting: Setting, log: seq<Output>, out: Output, entity: Id, at: nat, e: Id, i: nat)
    requires Sound(shop, setting, log) && at < |shop.QueueOf(entity)| && Marked(shop, after, entity, at)
    requires out.Toast? && out.serial == shop.QueueOf(entity)[at].serial && !shop.QueueOf(entity)[at].announced
    requires i < |after.QueueOf(e)|
    ensures Waiting(after, log + [out], e, i)
  {
    hide ReleasesOf, ToastsOf, Bounded, Ordered, Accounted, Timely;
    assert Waiting(shop, log, e, i);
    CountsAppend(log, out, shop.QueueOf(e)[i].serial);
    WaitsOnce(shop, setting, log, e, i, entity, at);
  }

  lemma MarkedAccounts(shop: Shop, after: Shop, setting: Setting, log: seq<Output>, out: Output, entity: Id, at: nat, k: nat)
    requires Sound(shop, setting, log) && at < |shop.QueueOf(entity)| && Marked(shop, after, entity, at)
    requires out.Toast? && out.serial == shop.QueueOf(entity)[at].serial && !shop.QueueOf(entity)[at].announced
    requires k < |shop.made|
    ensures Accounted(after, log + [out], k)
  {
    hide ReleasesOf, ToastsOf, Bounded, Ordered, Timely;
    assert Accounted(shop, log, k) && Waiting(shop, log, entity, at);
    CountsAppend(log, out, k);
    SameSerials(shop, after, k);
  }

  lemma ToldOneSound(shop: Shop, setting: Setting, log: seq<Output>, entity: Id, at: nat, now: nat)
    requires Sound(shop, setting, log) && Known(shop, entity) && at < |shop.QueueOf(entity)|
    ensures Sound(ToldOne(shop, entity, at, now).0, setting, log + ToldOne(shop, entity, at, now).1)
  {
    var (after, out) := ToldOne(shop, entity, at, now);
    if out == [] {
      assert log + out == log;
    } else {
      var queue := shop.QueueOf(entity);
      QueueChanged(shop, after, entity, queue[at := queue[at].(announced := true)]);
      assert Bounded(after, setting);
      assert Marked(shop, after, entity, at) && out == [out[0]];
      hide ReleasesOf, ToastsOf, Bounded, Ordered, Waiting, Accounted, Marked;
      forall e: Id, i: nat | i < |after.QueueOf(e)| ensures Waiting(after, log + out, e, i) {
        MarkedWaits(shop, after, setting, log, out[0], entity, at, e, i);
      }
      forall k: nat | k < |after.made| ensures Accounted(after, log + out, k) {
        MarkedAccounts(shop, after, setting, log, out[0], entity, at, k);
      }
      forall o | o in log + out ensures Timely(after, o) {
        assert o in log ==> Timely(shop, o);
      }
    }
  }

  lemma {:induction false} ToldSound(shop: Shop, setting: Setting, log: seq<Output>, entity: Id, now: nat, n: nat)
    requires Sound(shop, setting, log) && Known(shop, entity) && n <= |shop.QueueOf(entity)|
    ensures Sound(ToldReady(shop, entity, now, n).0, setting, log + ToldReady(shop, entity, now, n).1)
  {
    hide Sound, Known, ToldOne;
    if n == 0 {
      assert log + [] == log;
    } else {
      ToldSound(shop, setting, log, entity, now, n - 1);
      var (before, told) := ToldReady(shop, entity, now, n - 1);
      ToldOneSound(before, setting, log + told, entity, n - 1, now);
      assert (log + told) + ToldOne(before, entity, n - 1, now).1 == log + ToldReady(shop, entity, now, n).1;
    }
  }

  lemma QueueShrank(shop: Shop, after: Shop, setting: Setting, log: seq<Output>, entity: Id, at: nat, k: nat)
    requires Sound(shop, setting, log) && k < |shop.made| && after.made == shop.made && at < |shop.QueueOf(entity)|
    requires after.QueueOf(entity) == shop.QueueOf(entity)[..at] + shop.QueueOf(entity)[at + 1..]
    requires forall e: Id | e != entity :: after.QueueOf(e) == shop.QueueOf(e)
    ensures InQueue(after, k) <==> InQueue(shop, k) && k != shop.QueueOf(entity)[at].serial
  {
    hide ReleasesOf, ToastsOf, Bounded, Ordered, Accounted, Timely;
    var e := shop.made[k].entity;
    assert Waiting(shop, log, entity, at);
    if InQueue(shop, k) && k != shop.QueueOf(entity)[at].serial {
      var i :| 0 <= i < |shop.QueueOf(e)| && shop.QueueOf(e)[i].serial == k;
      var j := if e == entity && i > at then i - 1 else i;
      assert after.QueueOf(e)[j].serial == k;
    }
    if InQueue(after, k) {
      var j :| 0 <= j < |after.QueueOf(e)| && after.QueueOf(e)[j].serial == k;
      var i := if e == entity && j >= at then j + 1 else j;
      assert shop.QueueOf(e)[i].serial == k;
      WaitsOnce(shop, setting, log, e, i, entity, at);
    }
  }

  lemma ShorterBounded(shop: Shop, after: Shop, setting: Setting, entity: Id, at: nat)
    requires Bounded(shop, setting) && at < |shop.QueueOf(entity)|
    requires after.queues == shop.queues[entity := shop.QueueOf(entity)[..at] + shop.QueueOf(entity)[at + 1..]]
    ensures Bounded(after, setting)
  {
    var queue := shop.QueueOf(entity);
    QueueChanged(shop, after, entity, queue[..at] + queue[at + 1..]);
    assert Ordered(queue);
  }

  /** `after` is `shop` with one craft taken out of a queue. */
  ghost predicate Removed(shop: Shop, after: Shop, entity: Id, at: nat)
    requires at < |shop.QueueOf(entity)|
  {
    after.made == shop.made && after.QueueOf(entity) == shop.QueueOf(entity)[..at] + shop.QueueOf(entity)[at + 1..]
    && forall e: Id | e != entity :: after.QueueOf(e) == shop.QueueOf(e)
  }

  lemma RemovedWaits(
    shop: Shop, after: Shop, setting: Setting, log: seq<Output>, out: Output, entity: Id, at: nat, e: Id, j: nat)
    requires Sound(shop, setting, log) && at < |shop.QueueOf(entity)| && Removed(shop, after, entity, at)
    requires out.Release? && out.serial == shop.QueueOf(entity)[at].serial && j < |after.QueueOf(e)|
    ensures Waiting(after, log + [out], e, j)
  {
    hide ReleasesOf, ToastsOf, Bounded, Ordered, Accounted, Timely;
    var i := if e == entity && j >= at then j + 1 else j;
    assert after.QueueOf(e)[j] == shop.QueueOf(e)[i];
    assert Waiting(shop, log, e, i);
    CountsAppend(log, out, shop.QueueOf(e)[i].serial);
    WaitsOnce(shop, setting, log, e, i, entity, at);
  }

  lemma RemovedAccounts(shop: Shop, after: Shop, setting: Setting, log: seq<Output>, out: Output, entity: Id, at: nat, k: nat)
    requires Sound(shop, setting, log) && at < |shop.QueueOf(entity)| && Removed(shop, after, entity, at)
    requires out.Release? && out.serial == shop.QueueOf(entity)[at].serial && k < |shop.made|
    ensures Accounted(after, log + [out], k)
  {
    hide ReleasesOf, ToastsOf, Bounded, Ordered, Timely;
    assert Accounted(shop, log, k) && Waiting(shop, log, entity, at);
    CountsAppend(log, out, k);
    QueueShrank(shop, after, setting, log, entity, at, k);
  }

  /** A craft that is collected leaves its queue, and was released but this once. */
  lemma CraftTakenSound(shop: Shop, setting: Setting, log: seq<Output>, entity: Id, at: nat, now: nat)
    requires Sound(shop, setting, log) && Known(shop, entity)
    ensures Sound(CraftTaken(shop, setting.player, entity, at, now).0, setting,
                  log + CraftTaken(shop, setting.player, entity, at, now).1)
  {
    hide Finished, ReleasesOf, ToastsOf, Ordered;
    var (after, out) := CraftTaken(shop, setting.player, entity, at, now);
    if out == [] {
      assert log + out == log;
    } else {
      var queue := shop.QueueOf(entity);
      QueueChanged(shop, after, entity, queue[..at] + queue[at + 1..]);
      ShorterBounded(shop, after, setting, entity, at);
      assert out == [out[0]] && Timely(after, out[0]);
      hide Bounded, Waiting, Accounted, CraftTaken;
      forall e: Id, j: nat | j < |after.QueueOf(e)| ensures Waiting(after, log + out, e, j) {
        RemovedWaits(shop, after, setting, log, out[0], entity, at, e, j);
      }
      forall k: nat | k < |after.made| ensures Accounted(after, log + out, k) {
        RemovedAccounts(shop, after, setting, log, out[0], entity, at, k);
      }
      forall o | o in log + out ensures Timely(after, o) {
        assert o in log ==> Timely(shop, o);
      }
    }
  }

  // --- every run ---

  /** A log that speaks of no craft before it was accepted. */
  lemma {:induction false} Silent(log: seq<Output>, from: nat)
    requires forall out | out in log :: out.serial < from
    ensures Unheard(log, from)
  {
    if log != [] {
      Silent(log[..|log| - 1], from);
    }
  }

  lemma SoundUnheard(shop: Shop, setting: Setting, log: seq<Output>)
    requires Sound(shop, setting, log)
    ensures Unheard(log, |shop.made|)
  {
    forall out | out in log ensures out.serial < |shop.made| {
      assert Timely(shop, out);
    }
    Silent(log, |shop.made|);
  }

  /** The shop after a run, and everything the player was told and given. */
  ghost function Ran(shop: Shop, setting: Setting, log: seq<Output>, events: seq<Event>): (Shop, seq<Output>) {
    if events == [] then (shop, log)
    else
      var (before, told) := Ran(shop, setting, log, events[..|events| - 1]);
      if !AllKnown(before) then (before, told)
      else
        var (after, more) := Stepped(before, setting, events[|events| - 1]);
        (after, told + more)
  }

  lemma SteppedSound(shop: Shop, setting: Setting, log: seq<Output>, e: Event)
    requires Sound(shop, setting, log) && AllKnown(shop)
    ensures Sound(Stepped(shop, setting, e).0, setting, log + Stepped(shop, setting, e).1)
  {
    hide Sound, Known, Queued, ToldReady, CraftTaken;
    match e {
      case Queue(entity, recipe, now) =>
        SoundUnheard(shop, setting, log);
        QueuedSound(shop, setting, log, entity, recipe, now);
        assert log + [] == log;
      case Announce(entity, now) =>
        assert Known(shop, entity);
        ToldSound(shop, setting, log, entity, now, |shop.QueueOf(entity)|);
      case Collect(entity, slot, now) =>
        assert Known(shop, entity);
        CraftTakenSound(shop, setting, log, entity, slot, now);
    }
  }

  /**
    In every run: no queue is ever longer than its station's slots; a craft that was accepted is
    either still in its queue or was released exactly once; its toast is sent at most once and
    never early; and it is never released before its time less the grace.
   */
  lemma {:induction false} RanSound(shop: Shop, setting: Setting, log: seq<Output>, events: seq<Event>)
    requires Sound(shop, setting, log)
    ensures Sound(Ran(shop, setting, log, events).0, setting, Ran(shop, setting, log, events).1)
  {
    hide Sound, AllKnown, Stepped;
    if events != [] {
      var (before, told) := Ran(shop, setting, log, events[..|events| - 1]);
      RanSound(shop, setting, log, events[..|events| - 1]);
      SoundKnown(before, setting, told);
      SteppedSound(before, setting, told, events[|events| - 1]);
    }
  }

  lemma OpensSound(inv: Inv, setting: Setting)
    ensures Sound(Shop(inv, map[], []), setting, [])
  {
  }

  /** From an empty shop, each accepted craft of any run, told in full. */
  lemma EveryCraft(inv: Inv, setting: Setting, events: seq<Event>, serial: nat)
    requires serial < |Ran(Shop(inv, map[], []), setting, [], events).0.made|
    ensures var (shop, log) := Ran(Shop(inv, map[], []), setting, [], events);
      ToastsOf(log, serial) <= 1 && ReleasesOf(log, serial) == (if InQueue(shop, serial) then 0 else 1)
      && (forall entity: Id :: |shop.QueueOf(entity)| <= setting.SlotsOf(entity))
      && forall out | out in log && out.serial == serial :: Timely(shop, out)
  {
    var start := Shop(inv, map[], []);
    OpensSound(inv, setting);
    RanSound(start, setting, [], events);
    var (shop, log) := Ran(start, setting, [], events);
    hide Ran, Ordered, ToastsOf, ReleasesOf, InQueue;
    assert Accounted(shop, log, serial);
  }

  /** What is collected is granted exactly when the rucksack has a free square; else it is lost. */
  lemma GrantedWhenFree(shop: Shop, player: Id, entity: Id, slot: nat, now: nat)
    requires Known(shop, entity) && slot < |shop.QueueOf(entity)| && Valid(shop.inv) && shop.inv.next > 0
    requires Collectable(shop.made[shop.QueueOf(entity)[slot].serial], now)
    ensures var recipe := shop.made[shop.QueueOf(entity)[slot].serial].recipe;
      var (after, out) := CraftTaken(shop, player, entity, slot, now);
      |after.QueueOf(entity)| == |shop.QueueOf(entity)| - 1
      && out == [Release(shop.QueueOf(entity)[slot].serial, now, FirstFree(shop.inv, player).Some?)]
      && (FirstFree(shop.inv, player).Some? ==>
            after.inv.StackAt(player, FirstFree(shop.inv, player).value) == Some(Stack(Some(recipe.output), recipe.quantity)))
      && forall name: Option<nat> :: Carried(after.inv, name)
           == Carried(shop.inv, name)
              + if name == Some(recipe.output) && FirstFree(shop.inv, player).Some? then recipe.quantity else 0
  {
    var recipe := shop.made[shop.QueueOf(entity)[slot].serial].recipe;
    if FirstFree(shop.inv, player).Some? {
      var free := FirstFree(shop.inv, player).value;
      FreeSquare(shop.inv, player);
      Minted(shop.inv, Stack(Some(recipe.output), recipe.quantity));
      var made := Loosened(shop.inv, recipe.output, recipe.quantity);
      assert made.Slot(player, free) == Some(0);
      PutPockets(made, player, free, shop.inv.next);
    }
    hide Valid, Carried, Loose, FirstFree, SameShape;
  }

  // --- what stands in a queue, and where it came from ---

  /** The crafts accepted at `entity` among the first `n`, and not released, marked when their toast was sent. */
  ghost function Open(shop: Shop, log: seq<Output>, entity: Id, n: nat): seq<Slot>
    requires n <= |shop.made|
  {
    if n == 0 then []
    else
      Open(shop, log, entity, n - 1)
      + if shop.made[n - 1].entity == entity && ReleasesOf(log, n - 1) == 0 then [Slot(n - 1, ToastsOf(log, n - 1) > 0)] else []
  }

  lemma {:induction false} OpenIs(shop: Shop, log: seq<Output>, entity: Id, n: nat)
    requires n <= |shop.made|
    ensures Ordered(Open(shop, log, entity, n))
    ensures forall s | s in Open(shop, log, entity, n) :: s.serial < n
    ensures forall s: Slot ::
      (s in Open(shop, log, entity, n)
       <==> s.serial < n && shop.made[s.serial].entity == entity && ReleasesOf(log, s.serial) == 0
            && s.announced == (ToastsOf(log, s.serial) > 0))
  {
    hide ReleasesOf, ToastsOf;
    if n > 0 {
      OpenIs(shop, log, entity, n - 1);
      var before := Open(shop, log, entity, n - 1);
      assert forall i | 0 <= i < |before| :: before[i] in before;
    }
  }

  lemma SomeSlot(a: seq<Slot>)
    ensures a == [] || exists s :: s in a
  {
    if a != [] {
      assert a[0] in a;
    }
  }

  lemma {:induction false} SameSlots(a: seq<Slot>, b: seq<Slot>)
    requires Ordered(a) && Ordered(b) && forall s: Slot :: s in a <==> s in b
    ensures a == b
  {
    if a == [] || b == [] {
      SomeSlot(a);
      SomeSlot(b);
    } else {
      var m, n := |a| - 1, |b| - 1;
      assert a[m] in b && b[n] in a;
      assert a[m] == b[n];
      forall s: Slot ensures s in a[..m] <==> s in b[..n] {
        assert s in a[..m] <==> s in a && s != a[m];
        assert s in b[..n] <==> s in b && s != b[n];
      }
      SameSlots(a[..m], b[..n]);
      assert a == a[..m] + [a[m]] && b == b[..n] + [b[n]];
    }
  }

  /**
    At any point of any run a station's queue is the crafts accepted there and not yet released,
    oldest first, each marked exactly when its toast was sent.
   */
  lemma QueueIsOpen(shop: Shop, setting: Setting, log: seq<Output>, entity: Id)
    requires Sound(shop, setting, log)
    ensures shop.QueueOf(entity) == Open(shop, log, entity, |shop.made|)
  {
    var queue := shop.QueueOf(entity);
    OpenIs(shop, log, entity, |shop.made|);
    hide ReleasesOf, ToastsOf, Timely, Open;
    assert Ordered(queue);
    forall s: Slot ensures s in queue <==> s in Open(shop, log, entity, |shop.made|) {
      if s in queue {
        var i :| 0 <= i < |queue| && queue[i] == s;
        assert Waiting(shop, log, entity, i);
      }
      if s in Open(shop, log, entity, |shop.made|) {
        assert Accounted(shop, log, s.serial);
        var i :| 0 <= i < |queue| && queue[i].serial == s.serial;
        assert Waiting(shop, log, entity, i);
      }
    }
    SameSlots(queue, Open(shop, log, entity, |shop.made|));
  }

  lemma RanQueueIsOpen(inv: Inv, setting: Setting, events: seq<Event>, entity: Id)
    ensures var (shop, log) := Ran(Shop(inv, map[], []), setting, [], events);
      shop.QueueOf(entity) == Open(shop, log, entity, |shop.made|)
  {
    var start := Shop(inv, map[], []);
    OpensSound(inv, setting);
    RanSound(start, setting, [], events);
    var (shop, log) := Ran(start, setting, [], events);
    hide Ran, Sound, Open;
    QueueIsOpen(shop, setting, log, entity);
  }

  /** Which events of a run were crafts that were accepted. */
  ghost function AcceptedAt(shop: Shop, setting: Setting, log: seq<Output>, events: seq<Event>): seq<nat> {
    if events == [] then []
    else
      var n := |events| - 1;
      AcceptedAt(shop, setting, log, events[..n])
      + if Accepts(Ran(shop, setting, log, events[..n]).0, setting, events[n]) then [n] else []
  }

  predicate Accepts(shop: Shop, setting: Setting, e: Event) {
    e.Queue? && Refused(shop, setting.player, setting.hands, e.entity, e.recipe, setting.StationOf(e.entity)).None?
  }

  /** In a run a craft is accepted under the conditions of a single request, at the stations there are. */
  lemma AcceptsWhen(shop: Shop, setting: Setting, e: Event)
    ensures Accepts(shop, setting, e) <==>
      (e.Queue? && e.recipe.Some? && e.entity in setting.stations
       && (e.recipe.value.station == Some(setting.stations[e.entity].kind) || e.recipe.value.station == Some(setting.hands))
       && (if e.entity in shop.queues then |shop.queues[e.entity]| else 0) < setting.stations[e.entity].slots
       && forall i | 0 <= i < |e.recipe.value.materials| ::
            HeldOf(shop.inv, setting.player, e.recipe.value.materials[i].0) >= e.recipe.value.materials[i].1)
  {
    hide HeldOf;
  }

  /** Only an accepted craft adds to what was made, and it adds itself, as it was asked for. */
  lemma SteppedMade(shop: Shop, setting: Setting, e: Event)
    requires AllKnown(shop)
    ensures Stepped(shop, setting, e).0.made
      == shop.made + if Accepts(shop, setting, e) then [Craft(e.entity, e.recipe.value, e.now)] else []
  {
    hide TookAll, Affordable, Finished;
    match e {
      case Queue(entity, recipe, now) =>
      case Announce(entity, now) => assert Known(shop, entity);
      case Collect(entity, slot, now) => assert Known(shop, entity);
    }
  }

  /**
    In every run the crafts made are the accepted ones, in the order they were asked for, each with
    the station, recipe and time of its own event.
   */
  lemma {:induction false} MadeAsAsked(shop: Shop, setting: Setting, log: seq<Output>, events: seq<Event>)
    requires Sound(shop, setting, log)
    ensures var (at, made) := (AcceptedAt(shop, setting, log, events), Ran(shop, setting, log, events).0.made);
      |made| == |shop.made| + |at| && made[..|shop.made|] == shop.made
      && (forall i, j | 0 <= i < j < |at| :: at[i] < at[j])
      && forall k | 0 <= k < |at| ::
           at[k] < |events| && events[at[k]].Queue? && events[at[k]].recipe.Some?
           && made[|shop.made| + k] == Craft(events[at[k]].entity, events[at[k]].recipe.value, events[at[k]].now)
  {
    hide Sound, AllKnown, Stepped, Accepts;
    if events != [] {
      var n := |events| - 1;
      var before := Ran(shop, setting, log, events[..n]).0;
      MadeAsAsked(shop, setting, log, events[..n]);
      RanSound(shop, setting, log, events[..n]);
      SoundKnown(before, setting, Ran(shop, setting, log, events[..n]).1);
      SteppedMade(before, setting, events[n]);
      if Accepts(before, setting, events[n]) {
        AcceptsQueue(before, setting, events[n]);
      }
      hide Ran;
      var at := AcceptedAt(shop, setting, log, events[..n]);
      assert forall k | 0 <= k < |at| :: events[..n][at[k]] == events[at[k]];
    }
  }

  lemma AcceptsQueue(shop: Shop, setting: Setting, e: Event)
    requires Accepts(shop, setting, e)
    ensures e.Queue? && e.recipe.Some?
  {
  }

  // --- what a run keeps of the rucksack ---

  /** Every stack that stands in one of the player's squares has something in it. */
  ghost predicate Stocked(inv: Inv, player: Id) {
    Valid(inv) && inv.next > 0 && Solid(inv, player)
  }

  predicate Productive(recipe: Recipe) { recipe.quantity > 0 }

  predicate AllProductive(events: seq<Event>) {
    forall i | 0 <= i < |events| :: events[i].Queue? && events[i].recipe.Some? ==> Productive(events[i].recipe.value)
  }

  lemma {:induction false} TookNext(inv: Inv, owner: Id, name: nat, quantity: nat)
    ensures Took(inv, owner, name, quantity).next == inv.next
  {
    if quantity > 0 {
      TookNext(inv, owner, name, quantity - 1);
    }
  }

  lemma {:induction false} TookAllNext(inv: Inv, owner: Id, materials: seq<(nat, nat)>)
    ensures TookAll(inv, owner, materials).next == inv.next
  {
    hide Took;
    if materials != [] {
      TookAllNext(inv, owner, materials[..|materials| - 1]);
      var last := materials[|materials| - 1];
      TookNext(TookAll(inv, owner, materials[..|materials| - 1]), owner, last.0, last.1);
    }
  }

  lemma FinishedStocked(inv: Inv, player: Id, recipe: Recipe)
    requires Stocked(inv, player) && Productive(recipe)
    ensures Finished(inv, player, recipe).Some? ==> Stocked(Finished(inv, player, recipe).value, player)
  {
    if FirstFree(inv, player).Some? {
      var free := FirstFree(inv, player).value;
      FreeSquare(inv, player);
      Minted(inv, Stack(Some(recipe.output), recipe.quantity));
      var made := Loosened(inv, recipe.output, recipe.quantity);
      assert made.Slot(player, free) == Some(0);
      PutPockets(made, player, free, inv.next);
      hide FirstFree, Carried, Loose, SameShape;
      var after := made.Put(player, free, inv.next);
      forall i: nat | after.StackAt(player, i).Some? ensures after.StackAt(player, i).value.count > 0 {
        if i != free {
          assert after.At(player, i) == inv.At(player, i);
          assert inv.StackAt(player, i).Some?;
        }
      }
    }
  }

  lemma SteppedStocked(shop: Shop, setting: Setting, e: Event)
    requires AllKnown(shop) && Stocked(shop.inv, setting.player)
    requires forall k | 0 <= k < |shop.made| :: Productive(shop.made[k].recipe)
    ensures Stocked(Stepped(shop, setting, e).0.inv, setting.player)
  {
    hide Solid, Valid, TookAll, Finished, Affordable, Productive;
    match e {
      case Queue(entity, recipe, now) =>
        if Accepts(shop, setting, e) {
          MaterialsTaken(shop.inv, setting.player, recipe.value.materials, 0);
          TookAllNext(shop.inv, setting.player, recipe.value.materials);
        }
      case Announce(entity, now) =>
        assert Known(shop, entity);
        ToldSameInv(shop, entity, now, |shop.QueueOf(entity)|);
      case Collect(entity, slot, now) =>
        assert Known(shop, entity);
        var queue := shop.QueueOf(entity);
        if slot < |queue| {
          assert queue[slot] in queue;
          FinishedStocked(shop.inv, setting.player, shop.made[queue[slot].serial].recipe);
        }
    }
  }

  lemma {:induction false} ToldSameInv(shop: Shop, entity: Id, now: nat, n: nat)
    requires Known(shop, entity) && n <= |shop.QueueOf(entity)|
    ensures ToldReady(shop, entity, now, n).0.inv == shop.inv
  {
    if n > 0 {
      ToldSameInv(shop, entity, now, n - 1);
    }
  }

  /** Recipes that make something never leave an empty stack in a square. */
  lemma {:induction false} RanStocked(inv: Inv, setting: Setting, events: seq<Event>)
    requires Stocked(inv, setting.player) && AllProductive(events)
    ensures var shop := Ran(Shop(inv, map[], []), setting, [], events).0;
      Stocked(shop.inv, setting.player) && forall k | 0 <= k < |shop.made| :: Productive(shop.made[k].recipe)
  {
    hide Stocked, AllKnown, Stepped, Sound, Productive, Accepts;
    if events != [] {
      var n := |events| - 1;
      var start := Shop(inv, map[], []);
      var (before, told) := Ran(start, setting, [], events[..n]);
      RanStocked(inv, setting, events[..n]);
      OpensSound(inv, setting);
      RanSound(start, setting, [], events[..n]);
      SoundKnown(before, setting, told);
      SteppedStocked(before, setting, events[n]);
      SteppedMade(before, setting, events[n]);
      if Accepts(before, setting, events[n]) {
        AcceptsQueue(before, setting, events[n]);
      }
    }
  }

  /** So in every run a craft that is accepted costs what its list asks for, down to nothing. */
  lemma RanCosts(
    inv: Inv, setting: Setting, events: seq<Event>, entity: Id, recipe: Option<Recipe>, now: nat, name: nat)
    requires Stocked(inv, setting.player) && AllProductive(events)
    requires Accepts(Ran(Shop(inv, map[], []), setting, [], events).0, setting, Queue(entity, recipe, now))
    ensures var shop := Ran(Shop(inv, map[], []), setting, [], events).0;
      var held, asked := HeldOf(shop.inv, setting.player, name), Asked(recipe.value.materials, name);
      var after := Queued(shop, setting.player, setting.hands, entity, recipe, setting.StationOf(entity), now);
      HeldOf(after.inv, setting.player, name) == Less(held, asked)
      && (DistinctMaterials(recipe.value.materials) ==> asked <= held)
  {
    RanStocked(inv, setting, events);
    var shop := Ran(Shop(inv, map[], []), setting, [], events).0;
    hide Ran, Solid, Valid, HeldOf, Queued;
    AcceptedCosts(shop, setting.player, setting.hands, entity, recipe, setting.StationOf(entity), now, name);
    if DistinctMaterials(recipe.value.materials) {
      DistinctCostsExactly(shop, setting.player, setting.hands, entity, recipe, setting.StationOf(entity), now, name);
    }
  }

  /** After an announcement no craft of the queue is ready without having had its toast. */
  lemma {:induction false} ReadyIsTold(shop: Shop, entity: Id, now: nat, n: nat, i: nat)
    requires Known(shop, entity) && i < n <= |shop.QueueOf(entity)|
    ensures var after := ToldReady(shop, entity, now, n).0;
      after.QueueOf(entity)[i].serial == shop.QueueOf(entity)[i].serial
      && (shop.QueueOf(entity)[i] in shop.QueueOf(entity)
          && after.QueueOf(entity)[i].announced
             == (shop.QueueOf(entity)[i].announced
                 || var craft := shop.made[shop.QueueOf(entity)[i].serial]; craft.started + craft.recipe.duration <= now))
  {
    if i < n - 1 {
      ReadyIsTold(shop, entity, now, n - 1, i);
    } else {
      NotYetTold(shop, entity, now, n - 1, i);
    }
  }

  lemma {:induction false} NotYetTold(shop: Shop, entity: Id, now: nat, n: nat, i: nat)
    requires Known(shop, entity) && n <= i < |shop.QueueOf(entity)|
    ensures ToldReady(shop, entity, now, n).0.QueueOf(entity)[i] == shop.QueueOf(entity)[i]
  {
    if n > 0 {
      NotYetTold(shop, entity, now, n - 1, i);
    }
  }

  /** A craft is handed over exactly when it is there and long enough under way. */
  lemma CollectedWhen(shop: Shop, player: Id, entity: Id, slot: nat, now: nat)
    requires Known(shop, entity)
    ensures CraftTaken(shop, player, entity, slot, now).1 != []
       <==> slot < |shop.QueueOf(entity)|
            && (assert shop.QueueOf(entity)[slot] in shop.QueueOf(entity);
                var craft := shop.made[shop.QueueOf(entity)[slot].serial];
                now + 250 >= craft.started + craft.recipe.duration || craft.recipe.duration <= 250)
    ensures CraftTaken(shop, player, entity, slot, now).1 == [] ==> CraftTaken(shop, player, entity, slot, now).0 == shop
  {
    hide Finished;
  }

  // --- one tick goes through every queue ---

  /** A tick's announcements, queue after queue, all at one time. */
  function Announcing(order: seq<Id>, now: nat): (events: seq<Event>)
    ensures |events| == |order|
  {
    seq(|order|, i requires 0 <= i < |order| => Announce(order[i], now))
  }

  /** Every queue there is, each once, in some order. */
  ghost predicate GoesThrough(order: seq<Id>, queues: set<Id>) {
    (forall e :: e in order <==> e in queues) && forall i, j | 0 <= i < j < |order| :: order[i] != order[j]
  }

  lemma {:induction false} ToldElsewhere(shop: Shop, entity: Id, now: nat, n: nat)
    requires Known(shop, entity) && n <= |shop.QueueOf(entity)|
    ensures var after := ToldReady(shop, entity, now, n).0;
      (forall e: Id | e != entity :: after.QueueOf(e) == shop.QueueOf(e))
      && (entity in shop.queues ==> after.queues.Keys == shop.queues.Keys)
  {
    if n > 0 {
      ToldElsewhere(shop, entity, now, n - 1);
    }
  }

  lemma ToldAllKnown(shop: Shop, entity: Id, now: nat)
    requires AllKnown(shop)
    ensures AllKnown(ToldReady(shop, entity, now, |shop.QueueOf(entity)|).0)
  {
    assert Known(shop, entity);
    ToldElsewhere(shop, entity, now, |shop.QueueOf(entity)|);
    var after := ToldReady(shop, entity, now, |shop.QueueOf(entity)|).0;
    hide ToldReady;
    forall e: Id ensures Known(after, e) {
      assert Known(shop, e);
    }
  }

  /** One more queue told, in a run. */
  lemma AnnouncedNext(shop: Shop, setting: Setting, order: seq<Id>, entity: Id, now: nat)
    requires AllKnown(Ran(shop, setting, [], Announcing(order, now)).0)
    ensures var (before, told) := Ran(shop, setting, [], Announcing(order, now));
      Known(before, entity)
      && var (after, more) := ToldReady(before, entity, now, |before.QueueOf(entity)|);
         Ran(shop, setting, [], Announcing(order + [entity], now)) == (after, told + more)
  {
    var events := Announcing(order + [entity], now);
    assert events[..|events| - 1] == Announcing(order, now);
    assert Known(Ran(shop, setting, [], Announcing(order, now)).0, entity);
    hide ToldReady;
  }

  lemma NothingRan(shop: Shop, setting: Setting)
    ensures Ran(shop, setting, [], []) == (shop, [])
  {
  }
}
