/**
  What a drag, a split, a merge, a pick-up and a "take all" do to the inventories a session
  knows of. A stack is an entity; an inventory is a list of squares naming stacks, 0 when empty.
 */
module Inventory {
  import opened Wrappers
  import opened Numbers

  const FIRST_RUCKSACK_SLOT: nat := 9
  const DEFAULT_STACK_LIMIT: nat := 64
  const HAND_SLOTS: nat := 2

  type Id = nat

  datatype Stack = Stack(name: Option<nat>, count: nat)

  datatype Effect =
    | ItemCreated(entity: Id)
    | ItemChanged(entity: Id)
    | ItemRemoved(entity: Id)
    | SlotsChanged(owner: Id)

  datatype Inv = Inv(slots: map<Id, seq<Id>>, items: map<Id, Stack>, limits: map<nat, nat>, next: Id) {
    /** How many of an item a stack may hold: 64, unless the item says otherwise. */
    function Limit(name: nat): (most: nat)
      ensures most == if name in limits then limits[name] else 64
    {
      if name in limits then limits[name] else DEFAULT_STACK_LIMIT
    }

    function Slot(owner: Id, slot: nat): Option<Id> {
      if owner in slots && slot < |slots[owner]| then Some(slots[owner][slot]) else None
    }

    /** What stands in a square, 0 for nothing and for no such square. */
    function At(owner: Id, slot: nat): Id {
      if owner in slots && slot < |slots[owner]| then slots[owner][slot] else 0
    }

    /** The stack in a square. */
    function StackAt(owner: Id, slot: nat): Option<Stack> {
      var item := At(owner, slot);
      if item != 0 && item in items then Some(items[item]) else None
    }

    function Put(owner: Id, slot: nat, item: Id): Inv {
      if owner in slots && slot < |slots[owner]| then
        var row: seq<Id> := slots[owner][slot := item];
        this.(slots := slots[owner := row])
      else this
    }

    function SetCount(item: Id, count: nat): Inv {
      if item in items then this.(items := items[item := items[item].(count := count)]) else this
    }

    function Forget(item: Id): Inv { this.(items := items - {item}) }
  }

  /** What an operation leaves, and what the client has to be told, in order. */
  datatype Change = Change(inv: Inv, effects: seq<Effect>)

  // --- the primitives ---

  function Touched(owner: Id, other: Id): seq<Effect> {
    if owner == other then [SlotsChanged(owner)] else [SlotsChanged(owner), SlotsChanged(other)]
  }

  function Exchanged(inv: Inv, from: Id, slot: nat, to: Id, target: nat): Change {
    Change(inv.Put(from, slot, inv.At(to, target)).Put(to, target, inv.At(from, slot)), Touched(from, to))
  }

  function Split(inv: Inv, from: Id, slot: nat, to: Id, target: nat, count: nat): Option<Change> {
    var stack := inv.StackAt(from, slot);
    if inv.Slot(to, target) != Some(0) || stack.None? || count == 0 || count >= stack.value.count then None
    else
      var left := inv.SetCount(inv.At(from, slot), stack.value.count - count);
      var made := left.(items := left.items[inv.next := Stack(stack.value.name, count)], next := inv.next + 1);
      Some(Change(made.Put(to, target, inv.next),
                  [ItemChanged(inv.At(from, slot)), ItemCreated(inv.next), SlotsChanged(to)]))
  }

  /** How many items a merge of the two squares moves; a `count` of 0 asks for them all. */
  function Mergeable(inv: Inv, from: Id, slot: nat, to: Id, target: nat, count: nat): nat {
    var (source, into) := (inv.StackAt(from, slot), inv.StackAt(to, target));
    if (from, slot) == (to, target) || source.None? || into.None? then 0
    else if source.value.name.None? || into.value.name != source.value.name then 0
    else
      var limit := inv.Limit(source.value.name.value);
      var wanted := if count > 0 then Min(count, source.value.count) else source.value.count;
      if limit <= into.value.count then 0 else Min(wanted, limit - into.value.count)
  }

  function Merged(inv: Inv, from: Id, slot: nat, to: Id, target: nat, count: nat): Option<Change> {
    var moved := Mergeable(inv, from, slot, to, target, count);
    if moved == 0 then None
    else
      var (item, into) := (inv.At(from, slot), inv.At(to, target));
      var fuller := inv.SetCount(into, inv.items[into].count + moved);
      if moved < inv.items[item].count then
        Some(Change(fuller.SetCount(item, inv.items[item].count - moved), [ItemChanged(into), ItemChanged(item)]))
      else
        Some(Change(fuller.Put(from, slot, 0).Forget(item),
                    [ItemChanged(into), SlotsChanged(from), ItemRemoved(item)]))
  }

  /** The first free square of the rucksack proper, at or after `k`. */
  function FreeFrom(inv: Inv, owner: Id, k: nat): (r: Option<nat>)
    ensures r.Some? ==> k <= r.value && 9 <= r.value && inv.Slot(owner, r.value) == Some(0)
    ensures r.Some? ==> forall j | k <= j < r.value && 9 <= j :: inv.At(owner, j) != 0
    ensures r.None? && owner in inv.slots ==> forall j | k <= j < |inv.slots[owner]| && 9 <= j :: inv.At(owner, j) != 0
    decreases if owner in inv.slots then |inv.slots[owner]| - k else 0
  {
    if owner !in inv.slots || k >= |inv.slots[owner]| then None
    else if k >= FIRST_RUCKSACK_SLOT && inv.slots[owner][k] == 0 then Some(k)
    else FreeFrom(inv, owner, k + 1)
  }

  function FirstFree(inv: Inv, owner: Id): Option<nat> { FreeFrom(inv, owner, 0) }

  // --- the operations ---

  predicate Addressable(inv: Inv, from: Id, slot: nat, to: Id, target: nat) {
    inv.Slot(from, slot).Some? && inv.Slot(to, target).Some?
  }

  function Transferred(inv: Inv, from: Id, slot: nat, to: Id, target: nat, count: nat): Change {
    if !Addressable(inv, from, slot, to, target) || inv.At(from, slot) == 0 then Change(inv, [])
    else
      var split := Split(inv, from, slot, to, target, count);
      var merged := Merged(inv, from, slot, to, target, count);
      if split.Some? then split.value
      else if merged.Some? then merged.value
      else Exchanged(inv, from, slot, to, target)
  }

  function Swapped(inv: Inv, from: Id, slot: nat, to: Id, target: nat): Change {
    if !Addressable(inv, from, slot, to, target) || (from, slot) == (to, target) || inv.At(from, slot) == 0
    then Change(inv, [])
    else
      var merged := Merged(inv, from, slot, to, target, 0);
      if merged.Some? then merged.value else Exchanged(inv, from, slot, to, target)
  }

  function Equipped(inv: Inv, owner: Id, bag: nat, square: nat): Change {
    if !Addressable(inv, owner, bag, owner, square) || square < HAND_SLOTS || inv.At(owner, bag) == 0
    then Change(inv, [])
    else Exchanged(inv, owner, bag, owner, square)
  }

  function Unequipped(inv: Inv, owner: Id, square: nat): Change {
    var free := FirstFree(inv, owner);
    if square < HAND_SLOTS || inv.At(owner, square) == 0 || free.None? then Change(inv, [])
    else Exchanged(inv, owner, square, owner, free.value)
  }

  /** The first square of `to`, at or after `k`, that takes some of what is in `from`'s square. */
  function TopUpFrom(inv: Inv, from: Id, slot: nat, to: Id, k: nat): (r: Option<nat>)
    ensures r.Some? ==> Merged(inv, from, slot, to, r.value, 0).Some?
    decreases if to in inv.slots then |inv.slots[to]| - k else 0
  {
    if to !in inv.slots || k >= |inv.slots[to]| then None
    else if Merged(inv, from, slot, to, k, 0).Some? then Some(k)
    else TopUpFrom(inv, from, slot, to, k + 1)
  }

  function ToppedUp(inv: Inv, from: Id, slot: nat, to: Id): Change {
    var target := TopUpFrom(inv, from, slot, to, 0);
    if target.None? then Change(inv, []) else Merged(inv, from, slot, to, target.value, 0).value
  }

  function Then(first: Change, second: Change): Change { Change(second.inv, first.effects + second.effects) }

  /** What "take all" does with one square, and whether it has to stop there. */
  function TakenSquare(inv: Inv, from: Id, k: nat, to: Id): (Change, bool) {
    var topped := ToppedUp(inv, from, k, to);
    var free := FirstFree(topped.inv, to);
    if inv.At(from, k) == 0 then (Change(inv, []), false)
    else if topped.inv.At(from, k) == 0 then (topped, false)
    else if free.None? then (topped, true)
    else (Then(topped, Exchanged(topped.inv, from, k, to, free.value)), false)
  }

  /** "Take all" from square `k` on, among the `n` squares the source started with. */
  function TakenFrom(inv: Inv, from: Id, to: Id, k: nat, n: nat): Change
    requires k <= n
    decreases n - k
  {
    if k == n then Change(inv, [])
    else
      var (change, full) := TakenSquare(inv, from, k, to);
      if full then change else Then(change, TakenFrom(change.inv, from, to, k + 1, n))
  }

  function TakenAll(inv: Inv, from: Id, to: Id): Change {
    if from !in inv.slots || to !in inv.slots then Change(inv, [])
    else TakenFrom(inv, from, to, 0, |inv.slots[from]|)
  }

  function Destroyed(inv: Inv, owner: Id, slot: nat, count: nat): Change {
    var item := inv.At(owner, slot);
    var held := if item in inv.items then inv.items[item].count else 0;
    if item == 0 then Change(inv, [])
    else if 0 < count < held then Change(inv.SetCount(item, held - count), [ItemChanged(item)])
    else Change(inv.Put(owner, slot, 0).Forget(item), [SlotsChanged(owner), ItemRemoved(item)])
  }

  function Given(inv: Inv, owner: Id, slot: nat, name: nat, count: nat): Option<Inv> {
    if inv.Slot(owner, slot) != Some(0) then None
    else Some(Loosened(inv, name, count).Put(owner, slot, inv.next))
  }

  /** A stack that belongs to no inventory, under a fresh id. */
  function Loosened(inv: Inv, name: nat, count: nat): Inv {
    inv.(items := inv.items[inv.next := Stack(Some(name), count)], next := inv.next + 1)
  }

  function Reserved(inv: Inv, next: Id): Inv { inv.(next := if next > inv.next then next else inv.next) }

  /** The same, under an id somebody else chose; nothing when that id is known. */
  function Ensured(inv: Inv, entity: Id, name: nat, count: nat): Inv {
    var ahead := Reserved(inv, entity + 1);
    if entity in inv.items then ahead else ahead.(items := inv.items[entity := Stack(Some(name), count)])
  }

  /** The first square, at or after `k`, holding a stack of `name` that has room. */
  function RoomFrom(inv: Inv, owner: Id, name: nat, k: nat): (r: Option<nat>)
    ensures r.Some? ==> HasRoom(inv, owner, name, r.value)
    decreases if owner in inv.slots then |inv.slots[owner]| - k else 0
  {
    if owner !in inv.slots || k >= |inv.slots[owner]| then None
    else if HasRoom(inv, owner, name, k) then Some(k)
    else RoomFrom(inv, owner, name, k + 1)
  }

  predicate HasRoom(inv: Inv, owner: Id, name: nat, slot: nat) {
    var stack := inv.StackAt(owner, slot);
    stack.Some? && stack.value.name == Some(name) && stack.value.count < inv.Limit(name)
  }

  function Collected(inv: Inv, owner: Id, entity: Id): Change {
    if entity !in inv.items || inv.items[entity].name.None? then Change(inv, [])
    else
      var (name, count) := (inv.items[entity].name.value, inv.items[entity].count);
      var slot := RoomFrom(inv, owner, name, 0);
      var free := FirstFree(inv, owner);
      if slot.Some? then Piled(inv, inv.At(owner, slot.value), entity, inv.Limit(name))
      else if free.None? then Change(inv, [])
      else Change(inv.Put(owner, free.value, entity), [SlotsChanged(owner)])
  }

  /** Top up the stack `into` from the loose stack `entity`. */
  function Piled(inv: Inv, into: Id, entity: Id, limit: nat): Change
    requires entity in inv.items && into in inv.items && inv.items[into].count < limit
  {
    var moved := Min(inv.items[entity].count, limit - inv.items[into].count);
    var fuller := inv.SetCount(into, inv.items[into].count + moved);
    if moved == inv.items[entity].count
    then Change(fuller.Forget(entity), [ItemChanged(into), ItemRemoved(entity)])
    else Change(fuller.SetCount(entity, inv.items[entity].count - moved), [ItemChanged(into), ItemChanged(entity)])
  }

  function Detached(inv: Inv, owner: Id, slot: nat): Option<(Id, Change)> {
    var item := inv.At(owner, slot);
    if item == 0 then None else Some((item, Change(inv.Put(owner, slot, 0), [SlotsChanged(owner)])))
  }

  function Consumed(inv: Inv, entity: Id, count: nat): Change {
    if entity !in inv.items || inv.items[entity].count < count then Change(inv, [])
    else if inv.items[entity].count == count then Change(inv.Forget(entity), [ItemRemoved(entity)])
    else Change(inv.SetCount(entity, inv.items[entity].count - count), [ItemChanged(entity)])
  }

  // --- what every operation keeps ---

  /** Squares name known stacks, no stack stands in two squares, and ids stay below the next one. */
  ghost predicate Valid(inv: Inv) {
    (forall o: Id, i: nat :: inv.At(o, i) != 0 ==> inv.At(o, i) in inv.items) &&
    Unshared(inv) &&
    (forall e | e in inv.items :: 0 < e < inv.next)
  }

  ghost predicate Unshared(inv: Inv) {
    forall o: Id, i: nat, p: Id, j: nat :: inv.At(o, i) == inv.At(p, j) != 0 ==> o == p && i == j
  }

  ghost predicate Placed(inv: Inv, e: Id) {
    exists o: Id, i: nat :: inv.At(o, i) == e
  }

  /** How many of `name` a stack that stands in some square holds. */
  ghost function Worth(inv: Inv, e: Id, name: Option<nat>): nat {
    if e in inv.items && Placed(inv, e) && inv.items[e].name == name then inv.items[e].count else 0
  }

  ghost function CarriedBelow(inv: Inv, name: Option<nat>, bound: nat): nat {
    if bound == 0 then 0 else CarriedBelow(inv, name, bound - 1) + Worth(inv, bound - 1, name)
  }

  /** How many of `name` stand in all the squares there are. */
  ghost function Carried(inv: Inv, name: Option<nat>): nat { CarriedBelow(inv, name, inv.next) }

  /** Only `x` and `y` may differ in worth. */
  ghost predicate SameBut(a: Inv, b: Inv, name: Option<nat>, x: Id, y: Id) {
    forall e: Id | e != x && e != y :: Worth(a, e, name) == Worth(b, e, name)
  }

  lemma {:induction false} CarriedBelowDiffers(a: Inv, b: Inv, name: Option<nat>, x: Id, y: Id, bound: nat)
    requires SameBut(a, b, name, x, y) && x != y
    ensures CarriedBelow(b, name, bound) - CarriedBelow(a, name, bound)
      == (if x < bound then Worth(b, x, name) - Worth(a, x, name) else 0)
       + (if y < bound then Worth(b, y, name) - Worth(a, y, name) else 0)
  {
    hide Worth;
    if bound > 0 {
      CarriedBelowDiffers(a, b, name, x, y, bound - 1);
    }
  }

  lemma {:induction false} CarriedBeyond(inv: Inv, name: Option<nat>, bound: nat)
    requires Valid(inv) && inv.next <= bound
    ensures CarriedBelow(inv, name, bound) == Carried(inv, name)
  {
    if inv.next < bound {
      CarriedBeyond(inv, name, bound - 1);
    }
  }

  /** The total changes by what the two stacks that differ gain and lose. */
  lemma CarriedDiffers(a: Inv, b: Inv, name: Option<nat>, x: Id, y: Id)
    requires Valid(a) && Valid(b) && a.next <= b.next && SameBut(a, b, name, x, y)
    requires x != y && x < b.next && y < b.next
    ensures Carried(b, name) - Carried(a, name)
      == Worth(b, x, name) - Worth(a, x, name) + Worth(b, y, name) - Worth(a, y, name)
  {
    CarriedBelowDiffers(a, b, name, x, y, b.next);
    CarriedBeyond(a, name, b.next);
  }

  lemma CarriedSame(a: Inv, b: Inv, name: Option<nat>)
    requires Valid(a) && Valid(b) && a.next <= b.next && forall e: Id :: Worth(a, e, name) == Worth(b, e, name)
    ensures Carried(b, name) == Carried(a, name)
  {
    CarriedBelowDiffers(a, b, name, 0, 1, b.next);
    CarriedBeyond(a, name, b.next);
  }

  ghost predicate SameShape(a: Inv, b: Inv) {
    a.limits == b.limits && a.slots.Keys == b.slots.Keys
    && forall o | o in a.slots :: |a.slots[o]| == |b.slots[o]|
  }

  /** Known, and in no square: on the floor, or on a crafting square. */
  ghost predicate Loose(inv: Inv, e: Id) {
    e in inv.items && !Placed(inv, e)
  }

  ghost predicate WithinLimits(inv: Inv) {
    forall e | e in inv.items && inv.items[e].name.Some? :: inv.items[e].count <= inv.Limit(inv.items[e].name.value)
  }

  /** The effects name everything that differs, and claim nothing gone that is not. */
  ghost predicate Covered(before: Inv, after: Inv, effects: seq<Effect>) {
    (forall e | e in after.items && e !in before.items :: ItemCreated(e) in effects) &&
    (forall e | e in after.items && e in before.items && after.items[e] != before.items[e] :: ItemChanged(e) in effects) &&
    (forall e | e in before.items && e !in after.items :: ItemRemoved(e) in effects) &&
    (forall o | o in after.slots && o in before.slots && after.slots[o] != before.slots[o] :: SlotsChanged(o) in effects) &&
    (forall e: Id | ItemRemoved(e) in effects :: e !in after.items)
  }

  /** Nothing is made, lost or announced wrongly; loose stacks stay as they were. */
  ghost predicate Moved(before: Inv, after: Inv, effects: seq<Effect>) {
    Valid(after) && SameShape(before, after) && after.next == before.next && after.items.Keys <= before.items.Keys &&
    (forall e: Id | Loose(before, e) :: Loose(after, e) && after.items[e] == before.items[e]) &&
    (forall name: Option<nat> :: Carried(after, name) == Carried(before, name)) &&
    (WithinLimits(before) ==> WithinLimits(after)) &&
    Covered(before, after, effects)
  }

  lemma MovedThen(a: Inv, first: Change, second: Change)
    requires Moved(a, first.inv, first.effects) && Moved(first.inv, second.inv, second.effects)
    ensures Moved(a, Then(first, second).inv, Then(first, second).effects)
  {
    hide Valid, Carried;
    var all := first.effects + second.effects;
    assert forall x | x in first.effects :: x in all;
    assert forall x | x in second.effects :: x in all;
    hide Loose, WithinLimits;
  }

  lemma MovedNot(inv: Inv)
    requires Valid(inv)
    ensures Moved(inv, inv, [])
  {
  }

  lemma AtPut(inv: Inv, owner: Id, slot: nat, item: Id)
    ensures SameShape(inv, inv.Put(owner, slot, item))
    ensures forall o: Id, i: nat ::
      inv.Put(owner, slot, item).At(o, i)
      == if (o, i) == (owner, slot) && inv.Slot(owner, slot).Some? then item else inv.At(o, i)
  {
  }

  lemma PlacedAt(inv: Inv, o: Id, i: nat)
    ensures Placed(inv, inv.At(o, i))
  {
  }

  /** `b` is `a` with the contents of two squares exchanged. */
  ghost predicate Transposed(a: Inv, b: Inv, from: Id, slot: nat, to: Id, target: nat) {
    b == a.(slots := b.slots) && SameShape(a, b) &&
    forall o: Id, i: nat ::
      b.At(o, i) == if (o, i) == (from, slot) then a.At(to, target)
                    else if (o, i) == (to, target) then a.At(from, slot)
                    else a.At(o, i)
  }

  lemma PlacedIsKnown(inv: Inv, e: Id)
    requires Valid(inv) && e != 0 && Placed(inv, e)
    ensures e in inv.items
  {
  }

  lemma ExchangedTransposes(inv: Inv, from: Id, slot: nat, to: Id, target: nat)
    requires Addressable(inv, from, slot, to, target)
    ensures Transposed(inv, Exchanged(inv, from, slot, to, target).inv, from, slot, to, target)
  {
    var mid := inv.Put(from, slot, inv.At(to, target));
    AtPut(inv, from, slot, inv.At(to, target));
    AtPut(mid, to, target, inv.At(from, slot));
  }

  lemma TransposedValid(a: Inv, b: Inv, from: Id, slot: nat, to: Id, target: nat)
    requires Valid(a) && Transposed(a, b, from, slot, to, target)
    ensures Valid(b)
  {
    forall o: Id, i: nat, p: Id, j: nat | b.At(o, i) == b.At(p, j) != 0 ensures o == p && i == j {
      var here := Across(o, i, from, slot, to, target);
      var there := Across(p, j, from, slot, to, target);
      assert a.At(here.0, here.1) == a.At(there.0, there.1);
    }
  }

  /** Where the content of a square came from. */
  function Across(o: Id, i: nat, from: Id, slot: nat, to: Id, target: nat): (Id, nat) {
    if (o, i) == (from, slot) then (to, target) else if (o, i) == (to, target) then (from, slot) else (o, i)
  }

  lemma TransposedPlaces(a: Inv, b: Inv, from: Id, slot: nat, to: Id, target: nat, e: Id)
    requires Transposed(a, b, from, slot, to, target)
    ensures Placed(b, e) <==> Placed(a, e)
  {
    if Placed(b, e) {
      var o, i :| b.At(o, i) == e;
      var (p, j) := Across(o, i, from, slot, to, target);
      PlacedAt(a, p, j);
    }
    if Placed(a, e) {
      var o, i :| a.At(o, i) == e;
      var (p, j) := Across(o, i, from, slot, to, target);
      PlacedAt(b, p, j);
    }
  }

  lemma TransposedCarries(a: Inv, b: Inv, from: Id, slot: nat, to: Id, target: nat)
    requires Valid(a) && Transposed(a, b, from, slot, to, target)
    ensures forall e: Id :: Placed(b, e) <==> Placed(a, e)
    ensures forall name: Option<nat> :: Carried(b, name) == Carried(a, name)
  {
    TransposedValid(a, b, from, slot, to, target);
    forall e: Id ensures Placed(b, e) <==> Placed(a, e) {
      TransposedPlaces(a, b, from, slot, to, target, e);
    }
    hide Valid, Placed, SameShape;
    forall name: Option<nat> ensures Carried(b, name) == Carried(a, name) {
      CarriedSame(a, b, name);
    }
  }

  lemma ExchangedMoves(inv: Inv, from: Id, slot: nat, to: Id, target: nat)
    requires Valid(inv) && Addressable(inv, from, slot, to, target)
    ensures Moved(inv, Exchanged(inv, from, slot, to, target).inv, Exchanged(inv, from, slot, to, target).effects)
  {
    var after := Exchanged(inv, from, slot, to, target).inv;
    ExchangedTransposes(inv, from, slot, to, target);
    TransposedValid(inv, after, from, slot, to, target);
    TransposedCarries(inv, after, from, slot, to, target);
    ExchangedCovers(inv, from, slot, to, target);
    hide Valid, Placed, Exchanged, Carried, Covered, SameShape;
  }

  lemma ExchangedCovers(inv: Inv, from: Id, slot: nat, to: Id, target: nat)
    requires Valid(inv)
    ensures Covered(inv, Exchanged(inv, from, slot, to, target).inv, Exchanged(inv, from, slot, to, target).effects)
  {
    hide Valid;
    var after := Exchanged(inv, from, slot, to, target).inv;
    assert forall o | o in inv.slots && inv.slots[o] != after.slots[o] :: o == from || o == to;
  }

  /** Emptying a square takes exactly its stack out of the squares. */
  lemma Cleared(inv: Inv, owner: Id, slot: nat)
    requires Valid(inv)
    ensures Valid(inv.Put(owner, slot, 0)) && SameShape(inv, inv.Put(owner, slot, 0))
    ensures forall e: Id | e != 0 ::
      Placed(inv.Put(owner, slot, 0), e) <==> Placed(inv, e) && e != inv.At(owner, slot)
  {
    var after := inv.Put(owner, slot, 0);
    AtPut(inv, owner, slot, 0);
    forall e: Id | e != 0 ensures Placed(after, e) <==> Placed(inv, e) && e != inv.At(owner, slot) {
      if Placed(after, e) {
        var o, i :| after.At(o, i) == e;
        PlacedAt(inv, o, i);
      }
      if Placed(inv, e) && e != inv.At(owner, slot) {
        var o, i :| inv.At(o, i) == e;
        PlacedAt(after, o, i);
      }
    }
  }

  /** `moved` items go from one stack to another of the same name, which goes when it is drained. */
  ghost predicate Poured(a: Inv, b: Inv, item: Id, into: Id, moved: nat) {
    Valid(b) && SameShape(a, b) && b.next == a.next && item != into && item in a.items && into in a.items &&
    a.items[item].name == a.items[into].name && moved <= a.items[item].count &&
    (moved < a.items[item].count ==> item in b.items) &&
    b.items == (if item in b.items then a.items[item := a.items[item].(count := a.items[item].count - moved)]
                else a.items - {item})[into := a.items[into].(count := a.items[into].count + moved)] &&
    forall e: Id | e != 0 && e in b.items :: Placed(b, e) <==> Placed(a, e)
  }

  lemma PouredCarries(a: Inv, b: Inv, item: Id, into: Id, moved: nat, name: Option<nat>)
    requires Valid(a) && Poured(a, b, item, into, moved) && Placed(a, item) && Placed(a, into)
    ensures Carried(b, name) == Carried(a, name)
  {
    hide Placed, SameShape;
    assert item in a.items && into in a.items;
    forall e: Id | e != item && e != into ensures Worth(a, e, name) == Worth(b, e, name) {
      assert e in a.items <==> e in b.items;
    }
    CarriedDiffers(a, b, name, item, into);
    hide Valid;
  }

  /** What a merge is, before it is known what it keeps: two counts, and the square it drained. */
  lemma PouringKeeps(inv: Inv, after: Inv, from: Id, slot: nat, item: Id, into: Id, moved: nat)
    requires Valid(inv) && item == inv.At(from, slot) != 0 && item != into && into in inv.items
    requires inv.items[item].name == inv.items[into].name && moved <= inv.items[item].count
    requires after.items == (if moved < inv.items[item].count
                             then inv.items[item := inv.items[item].(count := inv.items[item].count - moved)]
                             else inv.items - {item})[into := inv.items[into].(count := inv.items[into].count + moved)]
    requires after.slots == if moved < inv.items[item].count then inv.slots else inv.Put(from, slot, 0).slots
    requires after.limits == inv.limits && after.next == inv.next
    ensures Poured(inv, after, item, into, moved)
  {
    Cleared(inv, from, slot);
    var squares := if moved < inv.items[item].count then inv else inv.Put(from, slot, 0);
    assert forall o: Id, i: nat :: after.At(o, i) == squares.At(o, i);
    assert forall e: Id :: Placed(after, e) <==> Placed(squares, e);
    if moved == inv.items[item].count {
      AtPut(inv, from, slot, 0);
      assert forall o: Id, i: nat :: squares.At(o, i) != item;
    }
    hide Placed;
    assert Unshared(after);
    hide Unshared;
  }

  lemma MergedPours(inv: Inv, from: Id, slot: nat, to: Id, target: nat, count: nat)
    requires Valid(inv) && Merged(inv, from, slot, to, target, count).Some?
    ensures var item, into := inv.At(from, slot), inv.At(to, target);
      Poured(inv, Merged(inv, from, slot, to, target, count).value.inv, item, into, Mergeable(inv, from, slot, to, target, count))
  {
    var moved := Mergeable(inv, from, slot, to, target, count);
    var item, into := inv.At(from, slot), inv.At(to, target);
    assert item != into && moved <= inv.items[item].count;
    var after := Merged(inv, from, slot, to, target, count).value.inv;
    hide Valid, Poured;
    assert after.items == (if moved < inv.items[item].count
                           then inv.items[item := inv.items[item].(count := inv.items[item].count - moved)]
                           else inv.items - {item})[into := inv.items[into].(count := inv.items[into].count + moved)];
    PouringKeeps(inv, after, from, slot, item, into, moved);
  }

  lemma MergedCarries(inv: Inv, from: Id, slot: nat, to: Id, target: nat, count: nat)
    requires Valid(inv) && Merged(inv, from, slot, to, target, count).Some?
    ensures var after := Merged(inv, from, slot, to, target, count).value.inv;
      Valid(after) && forall name: Option<nat> :: Carried(after, name) == Carried(inv, name)
  {
    hide Merged, Carried;
    var after := Merged(inv, from, slot, to, target, count).value.inv;
    MergedPours(inv, from, slot, to, target, count);
    PlacedAt(inv, from, slot);
    PlacedAt(inv, to, target);
    forall name: Option<nat> ensures Carried(after, name) == Carried(inv, name) {
      PouredCarries(inv, after, inv.At(from, slot), inv.At(to, target), Mergeable(inv, from, slot, to, target, count), name);
    }
  }

  lemma PouredLoose(a: Inv, b: Inv, item: Id, into: Id, moved: nat, e: Id)
    requires Valid(a) && Poured(a, b, item, into, moved) && Placed(a, item) && Placed(a, into) && Loose(a, e)
    ensures Loose(b, e) && b.items[e] == a.items[e]
  {
    hide Placed;
  }

  lemma MergedMoves(inv: Inv, from: Id, slot: nat, to: Id, target: nat, count: nat)
    requires Valid(inv) && Merged(inv, from, slot, to, target, count).Some?
    ensures Moved(inv, Merged(inv, from, slot, to, target, count).value.inv,
                  Merged(inv, from, slot, to, target, count).value.effects)
  {
    var change := Merged(inv, from, slot, to, target, count).value;
    var moved := Mergeable(inv, from, slot, to, target, count);
    var item, into := inv.At(from, slot), inv.At(to, target);
    MergedPours(inv, from, slot, to, target, count);
    PlacedAt(inv, from, slot);
    PlacedAt(inv, to, target);
    MergedCarries(inv, from, slot, to, target, count);
    MergedCovers(inv, from, slot, to, target, count);
    if WithinLimits(inv) {
      MergedFits(inv, from, slot, to, target, count);
    }
    hide Valid, Placed, Covered, Merged, WithinLimits, Mergeable, Carried, Loose;
    forall e: Id | Loose(inv, e) ensures Loose(change.inv, e) && change.inv.items[e] == inv.items[e] {
      PouredLoose(inv, change.inv, item, into, moved, e);
    }
  }

  lemma MergedCovers(inv: Inv, from: Id, slot: nat, to: Id, target: nat, count: nat)
    requires Valid(inv) && Merged(inv, from, slot, to, target, count).Some?
    ensures Covered(inv, Merged(inv, from, slot, to, target, count).value.inv,
                    Merged(inv, from, slot, to, target, count).value.effects)
  {
    hide Valid;
    var change := Merged(inv, from, slot, to, target, count).value;
    var item, into := inv.At(from, slot), inv.At(to, target);
    if Mergeable(inv, from, slot, to, target, count) < inv.items[item].count {
      assert change.effects[0] == ItemChanged(into) && change.effects[1] == ItemChanged(item);
    } else {
      assert change.effects[0] == ItemChanged(into) && change.effects[1] == SlotsChanged(from)
          && change.effects[2] == ItemRemoved(item);
    }
  }

  lemma MergedFits(inv: Inv, from: Id, slot: nat, to: Id, target: nat, count: nat)
    requires Merged(inv, from, slot, to, target, count).Some? && WithinLimits(inv)
    ensures WithinLimits(Merged(inv, from, slot, to, target, count).value.inv)
  {
    var after := Merged(inv, from, slot, to, target, count).value.inv;
    forall e | e in after.items && after.items[e].name.Some?
      ensures after.items[e].count <= after.Limit(after.items[e].name.value)
    {
      assert e in inv.items;
    }
  }

  lemma ToppedUpMoves(inv: Inv, from: Id, slot: nat, to: Id)
    requires Valid(inv)
    ensures Moved(inv, ToppedUp(inv, from, slot, to).inv, ToppedUp(inv, from, slot, to).effects)
  {
    hide Moved, Valid, Merged;
    var target := TopUpFrom(inv, from, slot, to, 0);
    if target.None? {
      MovedNot(inv);
    } else {
      MergedMoves(inv, from, slot, to, target.value, 0);
    }
  }

  lemma MovedShape(inv: Inv, change: Change)
    requires Moved(inv, change.inv, change.effects)
    ensures Valid(change.inv) && SameShape(inv, change.inv)
  {
  }

  lemma TakenSquareMoves(inv: Inv, from: Id, k: nat, to: Id)
    requires Valid(inv) && inv.Slot(from, k).Some? && to in inv.slots
    ensures Moved(inv, TakenSquare(inv, from, k, to).0.inv, TakenSquare(inv, from, k, to).0.effects)
  {
    hide Moved, Valid, ToppedUp, Exchanged, FirstFree;
    var topped := ToppedUp(inv, from, k, to);
    ToppedUpMoves(inv, from, k, to);
    MovedShape(inv, topped);
    var free := FirstFree(topped.inv, to);
    if inv.At(from, k) == 0 {
      MovedNot(inv);
    } else if topped.inv.At(from, k) != 0 && free.Some? {
      FreeSquare(topped.inv, to);
      ExchangedMoves(topped.inv, from, k, to, free.value);
      MovedThen(inv, topped, Exchanged(topped.inv, from, k, to, free.value));
    }
  }

  lemma {:induction false} TakenMoves(inv: Inv, from: Id, to: Id, k: nat, n: nat)
    requires Valid(inv) && from in inv.slots && to in inv.slots && k <= n == |inv.slots[from]|
    ensures Moved(inv, TakenFrom(inv, from, to, k, n).inv, TakenFrom(inv, from, to, k, n).effects)
    decreases n - k
  {
    hide Moved, Valid, TakenSquare;
    if k == n {
      MovedNot(inv);
    } else {
      var (change, full) := TakenSquare(inv, from, k, to);
      TakenSquareMoves(inv, from, k, to);
      MovedShape(inv, change);
      if !full {
        TakenMoves(change.inv, from, to, k + 1, n);
        MovedThen(inv, change, TakenFrom(change.inv, from, to, k + 1, n));
      }
    }
  }

  lemma FreeSquare(inv: Inv, owner: Id)
    requires FirstFree(inv, owner).Some?
    ensures FirstFree(inv, owner).value >= FIRST_RUCKSACK_SLOT
    ensures inv.Slot(owner, FirstFree(inv, owner).value) == Some(0)
  {
  }

  /** No square of `from` before `k` is touched. */
  ghost predicate SameBefore(a: Inv, b: Inv, from: Id, k: nat) {
    forall j | 0 <= j < k :: b.At(from, j) == a.At(from, j)
  }

  lemma ToppedUpLeaves(inv: Inv, from: Id, slot: nat, to: Id)
    requires from != to && from in inv.slots && to in inv.slots && slot < |inv.slots[from]|
    ensures SameBefore(inv, ToppedUp(inv, from, slot, to).inv, from, slot)
  {
    hide TopUpFrom;
  }

  lemma ExchangedLeaves(inv: Inv, from: Id, slot: nat, to: Id, target: nat)
    requires from != to && inv.Slot(from, slot).Some? && inv.Slot(to, target) == Some(0)
    ensures SameBefore(inv, Exchanged(inv, from, slot, to, target).inv, from, slot)
    ensures Exchanged(inv, from, slot, to, target).inv.At(from, slot) == 0
  {
  }

  lemma TakenSquareEmpties(inv: Inv, from: Id, k: nat, to: Id)
    requires Valid(inv) && inv.Slot(from, k).Some? && to in inv.slots && from != to
    ensures var (change, full) := TakenSquare(inv, from, k, to);
      SameBefore(inv, change.inv, from, k)
      && if full then FirstFree(change.inv, to).None? else change.inv.At(from, k) == 0
  {
    hide Moved, Valid, ToppedUp, Exchanged, FirstFree;
    var topped := ToppedUp(inv, from, k, to);
    ToppedUpMoves(inv, from, k, to);
    MovedShape(inv, topped);
    ToppedUpLeaves(inv, from, k, to);
    var free := FirstFree(topped.inv, to);
    if topped.inv.At(from, k) != 0 && free.Some? {
      FreeSquare(topped.inv, to);
      ExchangedLeaves(topped.inv, from, k, to, free.value);
    }
  }

  /** Taking all empties the source, unless the rucksack it goes to is full. */
  lemma {:induction false} TakenEmpties(inv: Inv, from: Id, to: Id, k: nat, n: nat)
    requires Valid(inv) && from in inv.slots && to in inv.slots && k <= n == |inv.slots[from]| && from != to
    ensures SameBefore(inv, TakenFrom(inv, from, to, k, n).inv, from, k)
    ensures FirstFree(TakenFrom(inv, from, to, k, n).inv, to).None?
      || forall j | k <= j < n :: TakenFrom(inv, from, to, k, n).inv.At(from, j) == 0
    decreases n - k
  {
    hide Moved, Valid, TakenSquare, FirstFree;
    if k < n {
      var (change, full) := TakenSquare(inv, from, k, to);
      TakenSquareMoves(inv, from, k, to);
      MovedShape(inv, change);
      TakenSquareEmpties(inv, from, k, to);
      if !full {
        TakenEmpties(change.inv, from, to, k + 1, n);
      }
    }
  }

  lemma TakeAllEmpties(inv: Inv, from: Id, to: Id)
    requires Valid(inv) && from in inv.slots && to in inv.slots && from != to
    ensures FirstFree(TakenAll(inv, from, to).inv, to).None?
      || forall slot: nat :: TakenAll(inv, from, to).inv.At(from, slot) == 0
  {
    TakenEmpties(inv, from, to, 0, |inv.slots[from]|);
    TakenMoves(inv, from, to, 0, |inv.slots[from]|);
    MovedShape(inv, TakenAll(inv, from, to));
    hide TakenFrom, Valid;
  }

  // --- the client is told all of it, in an order it can follow ---

  /** A square is pointed at a new stack only after the client was told of that stack. */
  ghost predicate Announced(before: Inv, after: Inv, effects: seq<Effect>) {
    forall k: nat, o: Id, i: nat | k < |effects| && effects[k] == SlotsChanged(o) && after.At(o, i) != 0 ::
      after.At(o, i) in before.items || ItemCreated(after.At(o, i)) in effects[..k]
  }

  /** What a client holds: stacks by entity id, and the squares it was last sent. */
  datatype View = View(stacks: map<Id, Stack>, squares: map<Id, seq<Id>>)

  function ViewOf(inv: Inv): View { View(inv.items, inv.slots) }

  /** One packet; each is built from the state once the whole operation is done. */
  function Applied(view: View, effect: Effect, now: Inv): View {
    match effect
    case ItemCreated(e) => if e in now.items then view.(stacks := view.stacks[e := now.items[e]]) else view
    case ItemChanged(e) => if e in now.items then view.(stacks := view.stacks[e := now.items[e]]) else view
    case ItemRemoved(e) => view.(stacks := view.stacks - {e})
    case SlotsChanged(o) => if o in now.slots then view.(squares := view.squares[o := now.slots[o]]) else view
  }

  function Replayed(view: View, effects: seq<Effect>, now: Inv): View {
    if effects == [] then view
    else Applied(Replayed(view, effects[..|effects| - 1], now), effects[|effects| - 1], now)
  }

  lemma {:induction false} ReplayedStack(view: View, effects: seq<Effect>, now: Inv, e: Id)
    requires ItemRemoved(e) in effects ==> e !in now.items
    ensures var stacks := Replayed(view, effects, now).stacks;
      if e in now.items then
        if ItemCreated(e) in effects || ItemChanged(e) in effects then e in stacks && stacks[e] == now.items[e]
        else (e in stacks <==> e in view.stacks) && (e in stacks ==> stacks[e] == view.stacks[e])
      else e in stacks <==> e in view.stacks && ItemRemoved(e) !in effects
    ensures e !in now.items && e in Replayed(view, effects, now).stacks
      ==> e in view.stacks && Replayed(view, effects, now).stacks[e] == view.stacks[e]
  {
    if effects != [] {
      var n := |effects| - 1;
      ReplayedStack(view, effects[..n], now, e);
      assert effects == effects[..n] + [effects[n]];
    }
  }

  lemma {:induction false} ReplayedSquares(view: View, effects: seq<Effect>, now: Inv, o: Id)
    ensures var squares := Replayed(view, effects, now).squares;
      if SlotsChanged(o) in effects && o in now.slots then o in squares && squares[o] == now.slots[o]
      else (o in squares <==> o in view.squares) && (o in squares ==> squares[o] == view.squares[o])
  {
    if effects != [] {
      var n := |effects| - 1;
      ReplayedSquares(view, effects[..n], now, o);
      assert effects == effects[..n] + [effects[n]];
    }
  }

  /** Replaying the effects over what the client held gives what there is now. */
  lemma InSync(before: Inv, after: Inv, effects: seq<Effect>)
    requires Covered(before, after, effects) && SameShape(before, after)
    ensures Replayed(ViewOf(before), effects, after) == ViewOf(after)
  {
    var view := Replayed(ViewOf(before), effects, after);
    forall e: Id ensures e in view.stacks <==> e in after.items
      ensures e in after.items ==> view.stacks[e] == after.items[e]
    {
      ReplayedStack(ViewOf(before), effects, after, e);
    }
    forall o: Id ensures o in view.squares <==> o in after.slots
      ensures o in after.slots ==> view.squares[o] == after.slots[o]
    {
      ReplayedSquares(ViewOf(before), effects, after, o);
    }
    assert view.stacks == after.items && view.squares == after.slots;
  }

  /** No packet on the way points a square at a stack the client has not been told of. */
  lemma NothingDangles(before: Inv, after: Inv, effects: seq<Effect>, k: nat, o: Id, i: nat)
    requires Covered(before, after, effects) && Announced(before, after, effects) && Valid(after)
    requires k < |effects| && effects[k] == SlotsChanged(o) && after.At(o, i) != 0
    ensures after.At(o, i) in Replayed(ViewOf(before), effects[..k + 1], after).stacks
  {
    var e := after.At(o, i);
    assert forall x | x in effects[..k] :: x in effects[..k + 1];
    assert forall x | x in effects[..k + 1] :: x in effects;
    ReplayedStack(ViewOf(before), effects[..k + 1], after, e);
  }

  // --- the operations that are not moves between squares ---

  /** Putting a loose stack in a free square places exactly that stack. */
  lemma Filled(inv: Inv, owner: Id, slot: nat, e: Id)
    requires Valid(inv) && inv.Slot(owner, slot) == Some(0) && Loose(inv, e)
    ensures Valid(inv.Put(owner, slot, e)) && SameShape(inv, inv.Put(owner, slot, e))
    ensures forall x: Id | x != 0 :: Placed(inv.Put(owner, slot, e), x) <==> Placed(inv, x) || x == e
  {
    var after := inv.Put(owner, slot, e);
    AtPut(inv, owner, slot, e);
    assert forall o: Id, i: nat :: inv.At(o, i) != e;
    forall x: Id | x != 0 ensures Placed(after, x) <==> Placed(inv, x) || x == e {
      PlacedAt(after, owner, slot);
      if Placed(inv, x) {
        var o, i :| inv.At(o, i) == x;
        PlacedAt(after, o, i);
      }
      if Placed(after, x) && x != e {
        var o, i :| after.At(o, i) == x;
        PlacedAt(inv, o, i);
      }
    }
  }

  /** A fresh stack is loose, and leaves everything else alone. */
  lemma Minted(inv: Inv, stack: Stack)
    requires Valid(inv) && inv.next > 0
    ensures var after := inv.(items := inv.items[inv.next := stack], next := inv.next + 1);
      Valid(after) && SameShape(inv, after) && Loose(after, inv.next)
      && (forall e: Id :: Placed(after, e) <==> Placed(inv, e))
      && forall name: Option<nat> :: Carried(after, name) == Carried(inv, name)
  {
    var after := inv.(items := inv.items[inv.next := stack], next := inv.next + 1);
    assert forall o: Id, i: nat :: after.At(o, i) == inv.At(o, i);
    assert inv.next !in inv.items;
    hide SameShape;
    forall name: Option<nat> ensures Carried(after, name) == Carried(inv, name) {
      CarriedSame(inv, after, name);
    }
  }

  /** Everything a split changes: the source loses `count`, and a fresh stack of them is placed. */
  ghost predicate SplitOff(inv: Inv, after: Inv, item: Id, count: nat) {
    Valid(after) && SameShape(inv, after) && after.next == inv.next + 1 && item in inv.items && count < inv.items[item].count &&
    after.items == inv.items[item := inv.items[item].(count := inv.items[item].count - count)]
                            [inv.next := Stack(inv.items[item].name, count)] &&
    forall e: Id | e != 0 :: Placed(after, e) <==> Placed(inv, e) || e == inv.next
  }

  lemma SameSquares(a: Inv, b: Inv)
    requires a.slots == b.slots
    ensures SameShape(a, b.(limits := a.limits)) && forall e: Id :: Placed(a, e) <==> Placed(b, e)
    ensures Valid(a) && a.items.Keys == b.items.Keys && a.next == b.next ==> Valid(b)
  {
    assert forall o: Id, i: nat :: a.At(o, i) == b.At(o, i);
  }

  lemma SplitMakes(inv: Inv, from: Id, slot: nat, to: Id, target: nat, count: nat)
    requires Valid(inv) && inv.next > 0 && Split(inv, from, slot, to, target, count).Some?
    ensures SplitOff(inv, Split(inv, from, slot, to, target, count).value.inv, inv.At(from, slot), count)
  {
    var item := inv.At(from, slot);
    var left := inv.SetCount(item, inv.items[item].count - count);
    SameSquares(inv, left);
    var stack := Stack(inv.items[item].name, count);
    Minted(left, stack);
    Filled(left.(items := left.items[inv.next := stack], next := inv.next + 1), to, target, inv.next);
    hide Valid, Carried, Placed;
  }

  lemma SplitCarries(inv: Inv, from: Id, slot: nat, to: Id, target: nat, count: nat, name: Option<nat>)
    requires Valid(inv) && inv.next > 0 && Split(inv, from, slot, to, target, count).Some?
    ensures Carried(Split(inv, from, slot, to, target, count).value.inv, name) == Carried(inv, name)
  {
    var item := inv.At(from, slot);
    var after := Split(inv, from, slot, to, target, count).value.inv;
    SplitMakes(inv, from, slot, to, target, count);
    PlacedAt(inv, from, slot);
    assert item in inv.items && item != inv.next;
    assert inv.next !in inv.items && item in after.items && inv.next in after.items;
    assert item < inv.next && count <= inv.items[item].count;
    hide Split, Placed, SameShape;
    forall e: Id | e != item && e != inv.next ensures Worth(inv, e, name) == Worth(after, e, name) {
      assert e in after.items <==> e in inv.items;
      assert e in inv.items ==> e != 0;
    }
    CarriedDiffers(inv, after, name, item, inv.next);
  }

  lemma SplitCovers(inv: Inv, from: Id, slot: nat, to: Id, target: nat, count: nat)
    requires Valid(inv) && inv.next > 0 && Split(inv, from, slot, to, target, count).Some?
    ensures var change := Split(inv, from, slot, to, target, count).value;
      Covered(inv, change.inv, change.effects) && Announced(inv, change.inv, change.effects)
  {
    var change := Split(inv, from, slot, to, target, count).value;
    SplitMakes(inv, from, slot, to, target, count);
    assert change.effects[0] == ItemChanged(inv.At(from, slot));
    assert change.effects[1] == ItemCreated(inv.next) && change.effects[1] == change.effects[..2][1];
    assert change.effects[2] == SlotsChanged(to);
  }

  // --- the player's own operations, all together ---

  datatype Op =
    | Transfer(from: Id, slot: nat, to: Id, target: nat, count: nat)
    | Swap(from: Id, slot: nat, to: Id, target: nat)
    | TakeAll(from: Id, to: Id)
    | Equip(owner: Id, bag: nat, square: nat)
    | Unequip(owner: Id, square: nat)

  function Done(inv: Inv, op: Op): Change {
    match op
    case Transfer(from, slot, to, target, count) => Transferred(inv, from, slot, to, target, count)
    case Swap(from, slot, to, target) => Swapped(inv, from, slot, to, target)
    case TakeAll(from, to) => TakenAll(inv, from, to)
    case Equip(owner, bag, square) => Equipped(inv, owner, bag, square)
    case Unequip(owner, square) => Unequipped(inv, owner, square)
  }

  /** What every operation of the player's keeps, and how its effects tell the client. */
  ghost predicate Kept(before: Inv, after: Inv, effects: seq<Effect>) {
    Valid(after) && SameShape(before, after) && before.next <= after.next &&
    (forall e: Id | e in after.items :: e in before.items || e >= before.next) &&
    (forall e: Id | Loose(before, e) :: Loose(after, e) && after.items[e] == before.items[e]) &&
    (forall name: Option<nat> :: Carried(after, name) == Carried(before, name)) &&
    (WithinLimits(before) ==> WithinLimits(after)) &&
    Covered(before, after, effects) && Announced(before, after, effects)
  }

  lemma MovedKeeps(before: Inv, after: Inv, effects: seq<Effect>)
    requires Moved(before, after, effects)
    ensures Kept(before, after, effects)
  {
    hide Carried, Loose, SameShape, Covered, WithinLimits;
  }

  lemma SplitKeeps(inv: Inv, from: Id, slot: nat, to: Id, target: nat, count: nat)
    requires Valid(inv) && inv.next > 0 && Split(inv, from, slot, to, target, count).Some?
    ensures Kept(inv, Split(inv, from, slot, to, target, count).value.inv, Split(inv, from, slot, to, target, count).value.effects)
  {
    var after := Split(inv, from, slot, to, target, count).value.inv;
    SplitMakes(inv, from, slot, to, target, count);
    SplitCovers(inv, from, slot, to, target, count);
    SplitLoose(inv, after, from, slot, count);
    SplitFrame(inv, after, inv.At(from, slot), count);
    if WithinLimits(inv) {
      SplitFits(inv, after, inv.At(from, slot), count);
    }
    hide Covered, Announced, Carried, Split, SplitOff, Loose, Valid, WithinLimits, SameShape, Placed;
    forall name: Option<nat> ensures Carried(after, name) == Carried(inv, name) {
      SplitCarries(inv, from, slot, to, target, count, name);
    }
  }

  lemma SplitFrame(inv: Inv, after: Inv, item: Id, count: nat)
    requires Valid(inv) && SplitOff(inv, after, item, count)
    ensures Valid(after) && SameShape(inv, after) && inv.next <= after.next
    ensures forall e: Id | e in after.items :: e in inv.items || e >= inv.next
  {
    hide Valid, Placed, SameShape;
  }

  lemma SplitFits(inv: Inv, after: Inv, item: Id, count: nat)
    requires WithinLimits(inv) && SplitOff(inv, after, item, count)
    ensures WithinLimits(after)
  {
    hide Placed, Valid;
  }

  lemma SplitLoose(inv: Inv, after: Inv, from: Id, slot: nat, count: nat)
    requires Valid(inv) && inv.At(from, slot) != 0 && SplitOff(inv, after, inv.At(from, slot), count)
    ensures forall e: Id | Loose(inv, e) :: Loose(after, e) && after.items[e] == inv.items[e]
  {
    PlacedAt(inv, from, slot);
    hide Placed;
  }

  lemma MergedKeeps(inv: Inv, from: Id, slot: nat, to: Id, target: nat, count: nat)
    requires Valid(inv) && Merged(inv, from, slot, to, target, count).Some?
    ensures Kept(inv, Merged(inv, from, slot, to, target, count).value.inv, Merged(inv, from, slot, to, target, count).value.effects)
  {
    MergedMoves(inv, from, slot, to, target, count);
    MovedKeeps(inv, Merged(inv, from, slot, to, target, count).value.inv, Merged(inv, from, slot, to, target, count).value.effects);
  }

  lemma DropKeeps(inv: Inv, from: Id, slot: nat, to: Id, target: nat, count: nat)
    requires Valid(inv) && inv.next > 0
    ensures Kept(inv, Transferred(inv, from, slot, to, target, count).inv, Transferred(inv, from, slot, to, target, count).effects)
    ensures Kept(inv, Swapped(inv, from, slot, to, target).inv, Swapped(inv, from, slot, to, target).effects)
  {
    hide Valid, Moved, Kept, Split, Merged, Exchanged;
    MovedNot(inv);
    MovedKeeps(inv, inv, []);
    if Addressable(inv, from, slot, to, target) {
      ExchangedKeeps(inv, from, slot, to, target);
      if Split(inv, from, slot, to, target, count).Some? {
        SplitKeeps(inv, from, slot, to, target, count);
      }
      if Merged(inv, from, slot, to, target, count).Some? {
        MergedKeeps(inv, from, slot, to, target, count);
      }
      if Merged(inv, from, slot, to, target, 0).Some? {
        MergedKeeps(inv, from, slot, to, target, 0);
      }
    }
  }

  lemma WearKeeps(inv: Inv, owner: Id, bag: nat, square: nat)
    requires Valid(inv)
    ensures Kept(inv, Equipped(inv, owner, bag, square).inv, Equipped(inv, owner, bag, square).effects)
    ensures Kept(inv, Unequipped(inv, owner, square).inv, Unequipped(inv, owner, square).effects)
  {
    hide Valid, Moved, Kept, Exchanged, FirstFree;
    MovedNot(inv);
    MovedKeeps(inv, inv, []);
    if Addressable(inv, owner, bag, owner, square) {
      ExchangedKeeps(inv, owner, bag, owner, square);
    }
    if inv.At(owner, square) != 0 && FirstFree(inv, owner).Some? {
      FreeSquare(inv, owner);
      ExchangedKeeps(inv, owner, square, owner, FirstFree(inv, owner).value);
    }
  }

  /** Whatever the player does, nothing is gained or lost and the client is told the truth. */
  lemma DoneKeeps(inv: Inv, op: Op)
    requires Valid(inv) && inv.next > 0
    ensures Kept(inv, Done(inv, op).inv, Done(inv, op).effects)
    ensures Replayed(ViewOf(inv), Done(inv, op).effects, Done(inv, op).inv) == ViewOf(Done(inv, op).inv)
  {
    hide Valid, Moved, Kept, Transferred, Swapped, Equipped, Unequipped, TakenFrom;
    match op {
      case Transfer(from, slot, to, target, count) => DropKeeps(inv, from, slot, to, target, count);
      case Swap(from, slot, to, target) => DropKeeps(inv, from, slot, to, target, 0);
      case TakeAll(from, to) =>
        if from in inv.slots && to in inv.slots {
          TakenMoves(inv, from, to, 0, |inv.slots[from]|);
        } else {
          MovedNot(inv);
        }
        MovedKeeps(inv, TakenAll(inv, from, to).inv, TakenAll(inv, from, to).effects);
      case Equip(owner, bag, square) => WearKeeps(inv, owner, bag, square);
      case Unequip(owner, square) => WearKeeps(inv, owner, 0, square);
    }
    KeptSync(inv, Done(inv, op).inv, Done(inv, op).effects);
  }

  lemma ExchangedKeeps(inv: Inv, from: Id, slot: nat, to: Id, target: nat)
    requires Valid(inv) && Addressable(inv, from, slot, to, target)
    ensures Kept(inv, Exchanged(inv, from, slot, to, target).inv, Exchanged(inv, from, slot, to, target).effects)
  {
    ExchangedMoves(inv, from, slot, to, target);
    MovedKeeps(inv, Exchanged(inv, from, slot, to, target).inv, Exchanged(inv, from, slot, to, target).effects);
  }

  lemma KeptSync(before: Inv, after: Inv, effects: seq<Effect>)
    requires Kept(before, after, effects)
    ensures Replayed(ViewOf(before), effects, after) == ViewOf(after)
  {
    InSync(before, after, effects);
  }

  // --- what picking up, throwing away and detaching do to the totals ---

  function Room(inv: Inv, owner: Id, name: nat): Option<nat> { RoomFrom(inv, owner, name, 0) }

  /** How many of a loose stack a pick-up puts into the squares. */
  function Granted(inv: Inv, owner: Id, entity: Id): (r: nat)
    ensures entity in inv.items ==> r <= inv.items[entity].count
  {
    if entity !in inv.items || inv.items[entity].name.None? then 0
    else
      var (name, count) := (inv.items[entity].name.value, inv.items[entity].count);
      var slot := Room(inv, owner, name);
      if slot.Some? then Min(count, inv.Limit(name) - inv.items[inv.At(owner, slot.value)].count)
      else if FirstFree(inv, owner).None? then 0
      else count
  }

  ghost predicate Pocketed(inv: Inv, after: Inv, entity: Id, granted: nat) {
    Valid(after) && SameShape(inv, after) && after.next == inv.next && after.items.Keys <= inv.items.Keys && entity in inv.items &&
    (forall e: Id | Loose(inv, e) && e != entity :: Loose(after, e) && after.items[e] == inv.items[e]) &&
    (granted < inv.items[entity].count ==>
      Loose(after, entity) && after.items[entity] == inv.items[entity].(count := inv.items[entity].count - granted)) &&
    (granted == inv.items[entity].count ==> !Loose(after, entity)) &&
    forall name: Option<nat> ::
      Carried(after, name) == Carried(inv, name) + if name == inv.items[entity].name then granted else 0
  }

  lemma PiledValid(inv: Inv, into: Id, entity: Id, limit: nat)
    requires Valid(inv) && Loose(inv, entity) && into in inv.items && Placed(inv, into) && inv.items[into].count < limit
    ensures var after := Piled(inv, into, entity, limit).inv;
      Valid(after) && SameShape(inv, after) && after.next == inv.next && after.items.Keys <= inv.items.Keys
      && forall e: Id :: Placed(after, e) <==> Placed(inv, e)
  {
    var after := Piled(inv, into, entity, limit).inv;
    assert forall o: Id, i: nat :: after.At(o, i) == inv.At(o, i);
  }

  lemma PiledLoose(inv: Inv, into: Id, entity: Id, limit: nat)
    requires Valid(inv) && Loose(inv, entity) && into in inv.items && Placed(inv, into) && inv.items[into].count < limit
    ensures var after := Piled(inv, into, entity, limit).inv;
      var moved := Min(inv.items[entity].count, limit - inv.items[into].count);
      Valid(after) && SameShape(inv, after) && after.next == inv.next && after.items.Keys <= inv.items.Keys
      && (forall e: Id | Loose(inv, e) && e != entity :: Loose(after, e) && after.items[e] == inv.items[e])
      && (moved < inv.items[entity].count ==>
            Loose(after, entity) && after.items[entity] == inv.items[entity].(count := inv.items[entity].count - moved))
      && (moved == inv.items[entity].count ==> !Loose(after, entity))
  {
    PiledValid(inv, into, entity, limit);
    hide Placed, SameShape, Valid;
  }

  lemma PiledPockets(inv: Inv, into: Id, entity: Id, limit: nat)
    requires Valid(inv) && Loose(inv, entity) && into in inv.items && Placed(inv, into)
    requires inv.items[into].name == inv.items[entity].name && inv.items[into].count < limit
    ensures Pocketed(inv, Piled(inv, into, entity, limit).inv, entity, Min(inv.items[entity].count, limit - inv.items[into].count))
  {
    var after := Piled(inv, into, entity, limit).inv;
    var moved := Min(inv.items[entity].count, limit - inv.items[into].count);
    PiledLoose(inv, into, entity, limit);
    forall name: Option<nat>
      ensures Carried(after, name) == Carried(inv, name) + if name == inv.items[entity].name then moved else 0
    {
      PiledCarries(inv, into, entity, limit, name);
    }
    hide Valid, Placed, Carried, SameShape, Loose, Piled;
  }

  lemma PiledCarries(inv: Inv, into: Id, entity: Id, limit: nat, name: Option<nat>)
    requires Valid(inv) && Loose(inv, entity) && into in inv.items && Placed(inv, into)
    requires inv.items[into].name == inv.items[entity].name && inv.items[into].count < limit
    ensures Carried(Piled(inv, into, entity, limit).inv, name)
      == Carried(inv, name)
         + if name == inv.items[entity].name then Min(inv.items[entity].count, limit - inv.items[into].count) else 0
  {
    var after := Piled(inv, into, entity, limit).inv;
    assert forall o: Id, i: nat :: after.At(o, i) == inv.At(o, i);
    assert forall e: Id :: Placed(after, e) <==> Placed(inv, e);
    hide Placed;
    forall e: Id | e != entity && e != into ensures Worth(inv, e, name) == Worth(after, e, name) {
      assert e in after.items <==> e in inv.items;
    }
    CarriedDiffers(inv, after, name, entity, into);
  }

  lemma PutPockets(inv: Inv, owner: Id, slot: nat, entity: Id)
    requires Valid(inv) && Loose(inv, entity) && inv.Slot(owner, slot) == Some(0)
    ensures Pocketed(inv, inv.Put(owner, slot, entity), entity, inv.items[entity].count)
  {
    var after := inv.Put(owner, slot, entity);
    Filled(inv, owner, slot, entity);
    hide Placed, SameShape;
    forall name: Option<nat>
      ensures Carried(after, name)
        == Carried(inv, name) + if name == inv.items[entity].name then inv.items[entity].count else 0
    {
      assert SameBut(inv, after, name, entity, 0);
      CarriedDiffers(inv, after, name, entity, 0);
    }
  }

  /**
    A pick-up grants what fits and no more: it is refused, changing nothing, exactly when no
    matching stack has room and no square is free; what does not fit stays loose.
   */
  lemma CollectedGrants(inv: Inv, owner: Id, entity: Id)
    requires Valid(inv) && Loose(inv, entity) && inv.items[entity].name.Some?
    ensures Collected(inv, owner, entity).effects == []
       <==> Room(inv, owner, inv.items[entity].name.value).None? && FirstFree(inv, owner).None?
    ensures Collected(inv, owner, entity).effects == [] ==> Collected(inv, owner, entity).inv == inv
    ensures Collected(inv, owner, entity).effects != []
      ==> Pocketed(inv, Collected(inv, owner, entity).inv, entity, Granted(inv, owner, entity))
  {
    hide Valid, Pocketed, FirstFree;
    var name := inv.items[entity].name.value;
    var slot := Room(inv, owner, name);
    if slot.Some? {
      assert HasRoom(inv, owner, name, slot.value);
      PlacedAt(inv, owner, slot.value);
      PiledPockets(inv, inv.At(owner, slot.value), entity, inv.Limit(name));
    } else if FirstFree(inv, owner).Some? {
      FreeSquare(inv, owner);
      PutPockets(inv, owner, FirstFree(inv, owner).value, entity);
    }
  }

  lemma CollectedCovers(inv: Inv, owner: Id, entity: Id)
    requires Valid(inv) && Loose(inv, entity)
    ensures Covered(inv, Collected(inv, owner, entity).inv, Collected(inv, owner, entity).effects)
    ensures SameShape(inv, Collected(inv, owner, entity).inv)
    ensures Replayed(ViewOf(inv), Collected(inv, owner, entity).effects, Collected(inv, owner, entity).inv)
         == ViewOf(Collected(inv, owner, entity).inv)
  {
    var change := Collected(inv, owner, entity);
    if inv.items[entity].name.Some? {
      var slot := Room(inv, owner, inv.items[entity].name.value);
      if slot.Some? {
        PlacedAt(inv, owner, slot.value);
        assert change.effects[0] == ItemChanged(inv.At(owner, slot.value));
        assert change.effects[1] == ItemRemoved(entity) || change.effects[1] == ItemChanged(entity);
      } else if change.effects != [] {
        assert change.effects[0] == SlotsChanged(owner);
      }
    }
    InSync(inv, change.inv, change.effects);
  }

  /** Taking a stack back out of the square a pick-up put it in undoes the pick-up. */
  lemma DetachUndoesCollect(inv: Inv, owner: Id, entity: Id)
    requires Valid(inv) && Loose(inv, entity) && inv.items[entity].name.Some?
    requires Room(inv, owner, inv.items[entity].name.value).None? && FirstFree(inv, owner).Some?
    ensures Detached(Collected(inv, owner, entity).inv, owner, FirstFree(inv, owner).value)
         == Some((entity, Change(inv, [SlotsChanged(owner)])))
  {
    var free := FirstFree(inv, owner).value;
    var after := Collected(inv, owner, entity).inv;
    FreeSquare(inv, owner);
    var row: seq<Id> := after.slots[owner][free := 0];
    assert row == inv.slots[owner];
    assert after.slots[owner := row] == inv.slots;
  }

  /** The trash takes exactly what was asked for, or the whole stack. */
  lemma DestroyedTakes(inv: Inv, owner: Id, slot: nat, count: nat, name: Option<nat>)
    requires Valid(inv) && inv.At(owner, slot) != 0
    ensures Valid(Destroyed(inv, owner, slot, count).inv)
    ensures var stack := inv.items[inv.At(owner, slot)];
      var taken := if 0 < count < stack.count then count else stack.count;
      Carried(Destroyed(inv, owner, slot, count).inv, name) == Carried(inv, name) - if name == stack.name then taken else 0
  {
    var item := inv.At(owner, slot);
    var after := Destroyed(inv, owner, slot, count).inv;
    PlacedAt(inv, owner, slot);
    if 0 < count < inv.items[item].count {
      SameSquares(inv, after);
      hide SameShape, Placed;
      assert forall e: Id | e != item && e in inv.items :: e in after.items;
    } else {
      Cleared(inv, owner, slot);
      var cleared := inv.Put(owner, slot, 0);
      assert forall o: Id, i: nat :: after.At(o, i) == cleared.At(o, i);
      assert forall e: Id :: Placed(after, e) <==> Placed(cleared, e);
      hide SameShape, Placed;
    }
    assert SameBut(inv, after, name, item, 0);
    CarriedDiffers(inv, after, name, item, 0);
  }

  /** A given stack is one more, in its square and under the next id; nothing else changes. */
  lemma GivenPlaces(inv: Inv, owner: Id, slot: nat, name: nat, count: nat)
    requires Valid(inv) && inv.next > 0 && inv.Slot(owner, slot) == Some(0)
    ensures var after := Given(inv, owner, slot, name, count).value;
      Valid(after) && after.next == inv.next + 1 && after.items == inv.items[inv.next := Stack(Some(name), count)]
      && (forall e: Id | e != 0 :: Placed(after, e) <==> Placed(inv, e) || e == inv.next)
      && forall other: Option<nat> :: Carried(after, other) == Carried(inv, other) + if other == Some(name) then count else 0
  {
    Minted(inv, Stack(Some(name), count));
    var made := Loosened(inv, name, count);
    assert made.Slot(owner, slot) == Some(0);
    Filled(made, owner, slot, inv.next);
    PutPockets(made, owner, slot, inv.next);
    hide Valid, Carried, Placed, Loose, SameShape;
  }

  /** The trash changes no stack but the one it takes from, and places none. */
  lemma DestroyedLeaves(inv: Inv, owner: Id, slot: nat, count: nat, e: Id)
    requires Valid(inv) && e > 0
    ensures var after := Destroyed(inv, owner, slot, count).inv;
      after.next == inv.next
      && (Placed(after, e) ==> Placed(inv, e))
      && (e != inv.At(owner, slot) ==> (e in after.items <==> e in inv.items))
      && (e != inv.At(owner, slot) && e in inv.items ==> after.items[e] == inv.items[e])
  {
    var after := Destroyed(inv, owner, slot, count).inv;
    if Placed(after, e) {
      var o, i :| after.At(o, i) == e;
      assert inv.At(o, i) == e;
      PlacedAt(inv, o, i);
    }
  }

  // --- what no move between squares changes, even of squares that name no stack ---

  /** The same inventories, of the same sizes, and no id handed out. */
  ghost predicate SameFrame(a: Inv, b: Inv) {
    a.next == b.next && SameShape(a, b)
  }

  lemma MergedFrame(inv: Inv, from: Id, slot: nat, to: Id, target: nat, count: nat)
    requires Merged(inv, from, slot, to, target, count).Some?
    ensures SameFrame(inv, Merged(inv, from, slot, to, target, count).value.inv)
  {
    hide Mergeable;
  }

  lemma ExchangedFrame(inv: Inv, from: Id, slot: nat, to: Id, target: nat)
    ensures SameFrame(inv, Exchanged(inv, from, slot, to, target).inv)
  {
  }

  lemma ToppedUpFrame(inv: Inv, from: Id, slot: nat, to: Id)
    ensures SameFrame(inv, ToppedUp(inv, from, slot, to).inv)
  {
    hide Merged;
    var target := TopUpFrom(inv, from, slot, to, 0);
    if target.Some? {
      MergedFrame(inv, from, slot, to, target.value, 0);
    }
  }

  lemma TakenSquareFrame(inv: Inv, from: Id, k: nat, to: Id)
    ensures SameFrame(inv, TakenSquare(inv, from, k, to).0.inv)
  {
    hide ToppedUp, FirstFree, Exchanged;
    var topped := ToppedUp(inv, from, k, to);
    ToppedUpFrame(inv, from, k, to);
    var free := FirstFree(topped.inv, to);
    if free.Some? {
      ExchangedFrame(topped.inv, from, k, to, free.value);
    }
  }

  lemma {:induction false} TakenFrame(inv: Inv, from: Id, to: Id, k: nat, n: nat)
    requires k <= n
    ensures SameFrame(inv, TakenFrom(inv, from, to, k, n).inv)
    decreases n - k
  {
    hide TakenSquare;
    if k < n {
      TakenSquareFrame(inv, from, k, to);
      TakenFrame(TakenSquare(inv, from, k, to).0.inv, from, to, k + 1, n);
    }
  }

  lemma CollectedFrame(inv: Inv, owner: Id, entity: Id)
    ensures SameFrame(inv, Collected(inv, owner, entity).inv)
  {
  }

  // --- what a drop does to the two squares it names ---

  /** Only the two squares may hold anything else than before. */
  ghost predicate OnlyAt(before: Inv, after: Inv, from: Id, slot: nat, to: Id, target: nat) {
    forall o: Id, i: nat | (o, i) != (from, slot) && (o, i) != (to, target) :: after.StackAt(o, i) == before.StackAt(o, i)
  }

  lemma ExchangeOutcome(inv: Inv, from: Id, slot: nat, to: Id, target: nat)
    requires Addressable(inv, from, slot, to, target)
    ensures var after := Exchanged(inv, from, slot, to, target).inv;
      after.StackAt(to, target) == inv.StackAt(from, slot) && after.StackAt(from, slot) == inv.StackAt(to, target)
      && OnlyAt(inv, after, from, slot, to, target)
  {
    ExchangedTransposes(inv, from, slot, to, target);
    hide Exchanged;
  }

  lemma MergeOutcome(inv: Inv, from: Id, slot: nat, to: Id, target: nat, count: nat)
    requires Valid(inv) && Merged(inv, from, slot, to, target, count).Some?
    ensures var after := Merged(inv, from, slot, to, target, count).value.inv;
      var (source, into) := (inv.StackAt(from, slot).value, inv.StackAt(to, target).value);
      var moved := Mergeable(inv, from, slot, to, target, count);
      after.StackAt(to, target) == Some(into.(count := into.count + moved))
      && after.StackAt(from, slot) == (if moved < source.count then Some(source.(count := source.count - moved)) else None)
      && OnlyAt(inv, after, from, slot, to, target)
  {
    var after := Merged(inv, from, slot, to, target, count).value.inv;
    var item, into := inv.At(from, slot), inv.At(to, target);
    AtPut(inv, from, slot, 0);
    assert forall o: Id, i: nat | (o, i) != (from, slot) :: after.At(o, i) == inv.At(o, i);
    forall o: Id, i: nat | (o, i) != (from, slot) && (o, i) != (to, target)
      ensures after.StackAt(o, i) == inv.StackAt(o, i)
    {
      AloneIn(inv, o, i, from, slot);
      AloneIn(inv, o, i, to, target);
    }
  }

  /** A stack stands in one square only. */
  lemma AloneIn(inv: Inv, o: Id, i: nat, p: Id, j: nat)
    requires Valid(inv) && (o, i) != (p, j)
    ensures inv.At(o, i) != 0 ==> inv.At(o, i) != inv.At(p, j)
  {
  }

  lemma SplitOutcome(inv: Inv, from: Id, slot: nat, to: Id, target: nat, count: nat)
    requires Valid(inv) && inv.next > 0 && Split(inv, from, slot, to, target, count).Some?
    ensures var after := Split(inv, from, slot, to, target, count).value.inv;
      var source := inv.StackAt(from, slot).value;
      after.StackAt(to, target) == Some(source.(count := count))
      && after.StackAt(from, slot) == Some(source.(count := source.count - count))
      && OnlyAt(inv, after, from, slot, to, target)
  {
    var after := Split(inv, from, slot, to, target, count).value.inv;
    var item := inv.At(from, slot);
    AtPut(inv, to, target, inv.next);
    assert forall o: Id, i: nat :: after.At(o, i) == inv.Put(to, target, inv.next).At(o, i);
    forall o: Id, i: nat | (o, i) != (from, slot) && (o, i) != (to, target)
      ensures after.StackAt(o, i) == inv.StackAt(o, i)
    {
      AloneIn(inv, o, i, from, slot);
      assert inv.At(o, i) in inv.items ==> inv.At(o, i) < inv.next;
    }
  }

  /** A square holds a stack of the same item, and that stack is not full. */
  ghost predicate Takes(inv: Inv, source: Stack, o: Id, i: nat) {
    source.name.Some? && source.count > 0 && inv.StackAt(o, i).Some?
    && inv.StackAt(o, i).value.name == source.name && inv.StackAt(o, i).value.count < inv.Limit(source.name.value)
  }

  /** As many as were asked for go in, or as many as there was room for. */
  ghost predicate Fills(held: nat, moved: nat, asked: nat, limit: nat) {
    0 < moved <= asked && held + moved <= limit && (moved == asked || held + moved == limit)
  }

  /** One square is topped up from the other, which is left with the rest, or empty when there is none. */
  ghost predicate TopsUp(before: Inv, after: Inv, from: Id, slot: nat, to: Id, target: nat, asked: nat)
    requires before.StackAt(from, slot).Some? && Takes(before, before.StackAt(from, slot).value, to, target)
  {
    var (source, into) := (before.StackAt(from, slot).value, before.StackAt(to, target).value);
    OnlyAt(before, after, from, slot, to, target)
    && exists moved: nat ::
      Fills(into.count, moved, asked, before.Limit(source.name.value))
      && after.StackAt(to, target) == Some(into.(count := into.count + moved))
      && after.StackAt(from, slot) == (if moved < source.count then Some(source.(count := source.count - moved)) else None)
  }

  /** The two squares have changed places. */
  ghost predicate Trades(before: Inv, after: Inv, from: Id, slot: nat, to: Id, target: nat) {
    after.items == before.items
    && after.StackAt(to, target) == before.StackAt(from, slot) && after.StackAt(from, slot) == before.StackAt(to, target)
    && OnlyAt(before, after, from, slot, to, target)
  }

  lemma MergesWhen(inv: Inv, from: Id, slot: nat, to: Id, target: nat, count: nat)
    requires inv.StackAt(from, slot).Some? && (from, slot) != (to, target)
    ensures var source := inv.StackAt(from, slot).value;
      var asked := if 0 < count < source.count then count else source.count;
      && (Merged(inv, from, slot, to, target, count).Some? <==> Takes(inv, source, to, target))
      && (Takes(inv, source, to, target) ==>
            Fills(inv.StackAt(to, target).value.count, Mergeable(inv, from, slot, to, target, count), asked,
                  inv.Limit(source.name.value)))
  {
  }

  lemma MergeTopsUp(inv: Inv, from: Id, slot: nat, to: Id, target: nat, count: nat)
    requires Valid(inv) && inv.StackAt(from, slot).Some? && (from, slot) != (to, target)
    requires Takes(inv, inv.StackAt(from, slot).value, to, target)
    ensures var source := inv.StackAt(from, slot).value;
      var asked := if 0 < count < source.count then count else source.count;
      Merged(inv, from, slot, to, target, count).Some?
      && TopsUp(inv, Merged(inv, from, slot, to, target, count).value.inv, from, slot, to, target, asked)
  {
    hide Valid, Merged, Mergeable, Fills, OnlyAt;
    MergesWhen(inv, from, slot, to, target, count);
    MergeOutcome(inv, from, slot, to, target, count);
  }

  lemma ExchangeTrades(inv: Inv, from: Id, slot: nat, to: Id, target: nat)
    requires Addressable(inv, from, slot, to, target)
    ensures Trades(inv, Exchanged(inv, from, slot, to, target).inv, from, slot, to, target)
  {
    ExchangedTransposes(inv, from, slot, to, target);
    hide Exchanged;
  }

  /**
    A drop onto a square that holds something tops it up when it is the same item with room, and
    exchanges the two squares otherwise; nothing happens when a square is missing, when the two are
    one, and when the first is empty.
   */
  lemma SwapOutcome(inv: Inv, from: Id, slot: nat, to: Id, target: nat)
    requires Valid(inv)
    ensures var change := Swapped(inv, from, slot, to, target);
      if from in inv.slots && slot < |inv.slots[from]| && to in inv.slots && target < |inv.slots[to]|
         && (from, slot) != (to, target) && inv.slots[from][slot] != 0 then
        inv.StackAt(from, slot).Some?
        && var source := inv.StackAt(from, slot).value;
           if Takes(inv, source, to, target) then TopsUp(inv, change.inv, from, slot, to, target, source.count)
           else Trades(inv, change.inv, from, slot, to, target)
      else change == Change(inv, [])
  {
    hide Merged, Exchanged, Takes, TopsUp, Trades;
    if Addressable(inv, from, slot, to, target) && (from, slot) != (to, target) && inv.At(from, slot) != 0 {
      ExchangeTrades(inv, from, slot, to, target);
      MergesWhen(inv, from, slot, to, target, 0);
      if Takes(inv, inv.StackAt(from, slot).value, to, target) {
        MergeTopsUp(inv, from, slot, to, target, 0);
      }
    }
  }

  /**
    A drop onto another square splits when the square is empty and a part was asked for, tops up
    when it holds the same item with room, and exchanges otherwise; no other square changes. Nothing
    happens when a square is missing or the first is empty.
   */
  lemma TransferOutcome(inv: Inv, from: Id, slot: nat, to: Id, target: nat, count: nat)
    requires Valid(inv) && inv.next > 0 && (from, slot) != (to, target)
    ensures var change := Transferred(inv, from, slot, to, target, count);
      if from in inv.slots && slot < |inv.slots[from]| && to in inv.slots && target < |inv.slots[to]|
         && inv.slots[from][slot] != 0 then
        inv.StackAt(from, slot).Some?
        && var source := inv.StackAt(from, slot).value;
           if inv.slots[to][target] == 0 && 0 < count < source.count then
             change.inv.StackAt(to, target) == Some(source.(count := count))
             && change.inv.StackAt(from, slot) == Some(source.(count := source.count - count))
             && OnlyAt(inv, change.inv, from, slot, to, target)
           else if Takes(inv, source, to, target) then
             TopsUp(inv, change.inv, from, slot, to, target, if 0 < count < source.count then count else source.count)
           else
             Trades(inv, change.inv, from, slot, to, target)
      else change == Change(inv, [])
  {
    hide Merged, Exchanged, Takes, TopsUp, Trades, OnlyAt;
    if Addressable(inv, from, slot, to, target) && inv.At(from, slot) != 0 {
      ExchangeTrades(inv, from, slot, to, target);
      MergesWhen(inv, from, slot, to, target, count);
      if Split(inv, from, slot, to, target, count).Some? {
        SplitOutcome(inv, from, slot, to, target, count);
      }
      if Takes(inv, inv.StackAt(from, slot).value, to, target) {
        MergeTopsUp(inv, from, slot, to, target, count);
      }
    }
  }

  /** Wearing exchanges the two squares, and nothing is ever put in the two hands. */
  lemma EquipOutcome(inv: Inv, owner: Id, bag: nat, square: nat)
    ensures var change := Equipped(inv, owner, bag, square);
      if owner in inv.slots && bag < |inv.slots[owner]| && 2 <= square < |inv.slots[owner]| && inv.slots[owner][bag] != 0
      then Trades(inv, change.inv, owner, bag, owner, square)
      else change == Change(inv, [])
  {
    hide Exchanged, Trades;
    if Addressable(inv, owner, bag, owner, square) {
      ExchangeTrades(inv, owner, bag, owner, square);
    }
  }

  /** Taking off exchanges with the first free square from 9 on; without one, or with a hand, nothing happens. */
  lemma UnequipOutcome(inv: Inv, owner: Id, square: nat, free: nat)
    requires owner in inv.slots && 9 <= free <= |inv.slots[owner]|
    requires forall j | 9 <= j < free :: inv.slots[owner][j] != 0
    requires free < |inv.slots[owner]| ==> inv.slots[owner][free] == 0
    ensures var change := Unequipped(inv, owner, square);
      if 2 <= square < |inv.slots[owner]| && inv.slots[owner][square] != 0 && free < |inv.slots[owner]|
      then Trades(inv, change.inv, owner, square, owner, free)
      else change == Change(inv, [])
  {
    hide Exchanged, Trades, FreeFrom;
    FirstFreeIs(inv, owner, free);
    if free < |inv.slots[owner]| && square < |inv.slots[owner]| {
      ExchangeTrades(inv, owner, square, owner, free);
    }
  }

  lemma FirstFreeIs(inv: Inv, owner: Id, free: nat)
    requires owner in inv.slots && 9 <= free <= |inv.slots[owner]|
    requires forall j | 9 <= j < free :: inv.slots[owner][j] != 0
    requires free < |inv.slots[owner]| ==> inv.slots[owner][free] == 0
    ensures FirstFree(inv, owner) == if free < |inv.slots[owner]| then Some(free) else None
  {
    var found := FreeFrom(inv, owner, 0);
    if found.Some? {
      assert found.value < |inv.slots[owner]| && inv.slots[owner][found.value] == 0;
    }
    if free < |inv.slots[owner]| {
      assert inv.At(owner, free) == 0;
    }
  }

  /** A square holds a stack of the same item that is not full. */
  ghost predicate Roomy(inv: Inv, item: Stack, o: Id, i: nat)
    requires item.name.Some?
  {
    inv.StackAt(o, i).Some? && inv.StackAt(o, i).value.name == item.name
    && inv.StackAt(o, i).value.count < inv.Limit(item.name.value)
  }

  lemma {:induction false} RoomIs(inv: Inv, owner: Id, name: nat, k: nat, room: nat)
    requires owner in inv.slots && k <= room <= |inv.slots[owner]|
    requires forall j | k <= j < room :: !HasRoom(inv, owner, name, j)
    requires room < |inv.slots[owner]| ==> HasRoom(inv, owner, name, room)
    ensures RoomFrom(inv, owner, name, k) == if room < |inv.slots[owner]| then Some(room) else None
    decreases room - k
  {
    hide HasRoom;
    if k < room {
      RoomIs(inv, owner, name, k + 1, room);
    }
  }

  /**
    A loose stack goes to the first square whose stack of the same item is not full, as much of it as
    there is room for; without one it stands in the first free square from 9 on; without that either
    it stays where it is.
   */
  lemma CollectOutcome(inv: Inv, owner: Id, entity: Id, room: nat, free: nat)
    requires Valid(inv) && Loose(inv, entity) && inv.items[entity].name.Some? && owner in inv.slots
    requires room <= |inv.slots[owner]| && 9 <= free <= |inv.slots[owner]|
    requires forall j | 0 <= j < room :: !Roomy(inv, inv.items[entity], owner, j)
    requires room < |inv.slots[owner]| ==> Roomy(inv, inv.items[entity], owner, room)
    requires forall j | 9 <= j < free :: inv.slots[owner][j] != 0
    requires free < |inv.slots[owner]| ==> inv.slots[owner][free] == 0
    ensures var (change, loose) := (Collected(inv, owner, entity), inv.items[entity]);
      if room < |inv.slots[owner]| then
        var (into, held) := (inv.slots[owner][room], inv.StackAt(owner, room).value.count);
        var space := inv.Limit(loose.name.value) - held;
        if loose.count <= space then
          change == Change(inv.(items := inv.items[into := Stack(loose.name, held + loose.count)] - {entity}),
                           [ItemChanged(into), ItemRemoved(entity)])
        else
          change == Change(inv.(items := inv.items[into := Stack(loose.name, held + space)]
                                                  [entity := Stack(loose.name, loose.count - space)]),
                           [ItemChanged(into), ItemChanged(entity)])
      else if free < |inv.slots[owner]| then
        var row: seq<Id> := inv.slots[owner][free := entity];
        change == Change(inv.(slots := inv.slots[owner := row]), [SlotsChanged(owner)])
      else change == Change(inv, [])
  {
    hide FreeFrom;
    forall j | 0 <= j < room ensures !HasRoom(inv, owner, inv.items[entity].name.value, j) {
      assert !Roomy(inv, inv.items[entity], owner, j);
    }
    RoomIs(inv, owner, inv.items[entity].name.value, 0, room);
    hide RoomFrom;
    if room < |inv.slots[owner]| {
      PlacedAt(inv, owner, room);
      assert inv.slots[owner][room] != entity;
    } else {
      FirstFreeIs(inv, owner, free);
    }
  }

  // --- taking everything, square by square ---

  /**
    What taking one square does: the first other square of the same item with room is topped up,
    giving `mid`; what is left goes to the first free square from 9 on, or stays when there is none.
   */
  ghost predicate SquareTaken(a: Inv, mid: Inv, b: Inv, from: Id, k: nat, to: Id, full: bool) {
    if a.At(from, k) == 0 then b == a && !full
    else
      a.StackAt(from, k).Some?
      && FirstTaker(a, mid, from, k, to)
      && if mid.At(from, k) == 0 then b == mid && !full
         else if forall j | 9 <= j < |mid.slots[to]| :: mid.slots[to][j] != 0 then b == mid && full
         else !full && exists free: nat ::
           9 <= free < |mid.slots[to]| && mid.slots[to][free] == 0
           && (forall j | 9 <= j < free :: mid.slots[to][j] != 0)
           && Trades(mid, b, from, k, to, free)
  }

  /** The first other square that takes some is topped up; without one nothing changes. */
  ghost predicate FirstTaker(a: Inv, mid: Inv, from: Id, k: nat, to: Id)
    requires a.StackAt(from, k).Some?
  {
    var source := a.StackAt(from, k).value;
    to in mid.slots
    && if forall t: nat | t < |mid.slots[to]| && (to, t) != (from, k) :: !Takes(a, source, to, t) then mid == a
       else exists t: nat ::
         t < |mid.slots[to]| && (to, t) != (from, k) && Takes(a, source, to, t)
         && (forall j: nat | j < t && (to, j) != (from, k) :: !Takes(a, source, to, j))
         && TopsUp(a, mid, from, k, to, t, source.count)
  }

  lemma {:induction false} TopUpIs(inv: Inv, from: Id, slot: nat, to: Id, k: nat)
    requires to in inv.slots && inv.StackAt(from, slot).Some?
    ensures var source := inv.StackAt(from, slot).value;
      var found := TopUpFrom(inv, from, slot, to, k);
      && (found.Some? ==> k <= found.value < |inv.slots[to]| && (to, found.value) != (from, slot)
                          && Takes(inv, source, to, found.value))
      && forall j: nat | k <= j < (if found.Some? then found.value else |inv.slots[to]|) && (to, j) != (from, slot) ::
           !Takes(inv, source, to, j)
    decreases |inv.slots[to]| - k
  {
    hide Merged, Takes;
    if k < |inv.slots[to]| {
      if (from, slot) != (to, k) {
        MergesWhen(inv, from, slot, to, k, 0);
      } else {
        NotOntoItself(inv, from, slot);
      }
      if !Merged(inv, from, slot, to, k, 0).Some? {
        TopUpIs(inv, from, slot, to, k + 1);
      }
    }
  }

  lemma NotOntoItself(inv: Inv, from: Id, slot: nat)
    ensures Merged(inv, from, slot, from, slot, 0).None?
  {
  }

  lemma ToppedUpIs(inv: Inv, from: Id, slot: nat, to: Id)
    requires Valid(inv) && to in inv.slots && inv.StackAt(from, slot).Some?
    ensures FirstTaker(inv, ToppedUp(inv, from, slot, to).inv, from, slot, to)
  {
    hide Valid, Merged, Takes, TopsUp, TopUpFrom;
    TopUpIs(inv, from, slot, to, 0);
    ToppedUpFrame(inv, from, slot, to);
    var found := TopUpFrom(inv, from, slot, to, 0);
    if found.Some? {
      MergeTopsUp(inv, from, slot, to, found.value, 0);
    }
  }

  lemma TakenSquareIs(inv: Inv, from: Id, k: nat, to: Id)
    requires Valid(inv) && from in inv.slots && k < |inv.slots[from]| && to in inv.slots
    ensures var (change, full) := TakenSquare(inv, from, k, to);
      SquareTaken(inv, ToppedUp(inv, from, k, to).inv, change.inv, from, k, to, full)
  {
    hide FirstTaker, ToppedUp, Exchanged, FreeFrom, Trades;
    if inv.At(from, k) != 0 {
      ToppedUpIs(inv, from, k, to);
      ToppedUpFrame(inv, from, k, to);
      var mid := ToppedUp(inv, from, k, to).inv;
      hide Valid, Moved;
      if mid.At(from, k) != 0 {
        FreeIsFirst(mid, to);
        if FirstFree(mid, to).Some? {
          ExchangeTrades(mid, from, k, to, FirstFree(mid, to).value);
        }
      }
    }
  }

  lemma FreeIsFirst(inv: Inv, owner: Id)
    requires owner in inv.slots
    ensures var free := FirstFree(inv, owner);
      if free.Some? then
        9 <= free.value < |inv.slots[owner]| && inv.slots[owner][free.value] == 0
        && forall j | 9 <= j < free.value :: inv.slots[owner][j] != 0
      else forall j | 9 <= j < |inv.slots[owner]| :: inv.slots[owner][j] != 0
  {
    var free := FreeFrom(inv, owner, 0);
    hide FreeFrom;
    assert forall j | 9 <= j < |inv.slots[owner]| :: inv.At(owner, j) == inv.slots[owner][j];
  }

  /** Taking squares one after another, from `k` on, until the last or until the rucksack is full. */
  ghost predicate TakenInTurn(states: seq<Inv>, mids: seq<Inv>, from: Id, to: Id, k: nat, n: nat, full: bool) {
    |states| == |mids| + 1 && k + |mids| <= n && (full ==> |mids| > 0) && (!full ==> k + |mids| == n)
    && forall i | 0 <= i < |mids| ::
      SquareTaken(states[i], mids[i], states[i + 1], from, k + i, to, full && i + 1 == |mids|)
  }

  lemma {:induction false} TakenFromIs(inv: Inv, from: Id, to: Id, k: nat, n: nat)
    returns (states: seq<Inv>, mids: seq<Inv>, full: bool)
    requires Valid(inv) && from in inv.slots && to in inv.slots && k <= n == |inv.slots[from]|
    ensures TakenInTurn(states, mids, from, to, k, n, full)
    ensures states[0] == inv && states[|states| - 1] == TakenFrom(inv, from, to, k, n).inv
    decreases n - k
  {
    hide Valid, Moved, SquareTaken, TakenSquare, ToppedUp;
    if k == n {
      states, mids, full := [inv], [], false;
    } else {
      var (change, stop) := TakenSquare(inv, from, k, to);
      var mid := ToppedUp(inv, from, k, to).inv;
      TakenSquareIs(inv, from, k, to);
      TakenSquareMoves(inv, from, k, to);
      MovedShape(inv, change);
      if stop {
        states, mids, full := [inv, change.inv], [mid], true;
      } else {
        states, mids, full := TakenFromIs(change.inv, from, to, k + 1, n);
        InTurnMore(inv, mid, states, mids, from, to, k, n, full);
        states, mids := [inv] + states, [mid] + mids;
      }
    }
  }

  lemma InTurnMore(inv: Inv, mid: Inv, states: seq<Inv>, mids: seq<Inv>, from: Id, to: Id, k: nat, n: nat, full: bool)
    requires TakenInTurn(states, mids, from, to, k + 1, n, full) && SquareTaken(inv, mid, states[0], from, k, to, false)
    ensures TakenInTurn([inv] + states, [mid] + mids, from, to, k, n, full)
  {
    hide SquareTaken;
    var (s, m) := ([inv] + states, [mid] + mids);
    forall i | 0 <= i < |m| ensures SquareTaken(s[i], m[i], s[i + 1], from, k + i, to, full && i + 1 == |m|) {
      if i > 0 {
        assert s[i] == states[i - 1] && s[i + 1] == states[i] && m[i] == mids[i - 1] && k + i == (k + 1) + (i - 1);
      }
    }
  }

  /** Taking all takes each square of the source in turn, and stops where the rucksack turns out to be full. */
  lemma TakeAllIs(inv: Inv, from: Id, to: Id) returns (states: seq<Inv>, mids: seq<Inv>, full: bool)
    requires Valid(inv) && from in inv.slots && to in inv.slots
    ensures TakenInTurn(states, mids, from, to, 0, |inv.slots[from]|, full)
    ensures states[0] == inv && states[|states| - 1] == TakenAll(inv, from, to).inv
  {
    states, mids, full := TakenFromIs(inv, from, to, 0, |inv.slots[from]|);
  }
}
