/**
  Several sessions over one world: what lies on the floor, who picks it up, and the ids the
  server hands out around each packet.
 */
module SharedWorld {
  import opened Wrappers
  import opened Numbers
  import opened Inventory
  import SaveRestore
  import Stored

  const MAX_INVENTORY_SLOTS: nat := 45

  datatype Drop = Drop(pickup: Id, stack: Id, item: nat, count: nat, position: (nat, nat, nat))

  datatype Session = Session(player: Id, inv: Inv)

  /** Connections in the order they arrived, and the server's own id counter. */
  datatype Game = Game(next: Id, sessions: seq<Session>, drops: seq<Drop>)

  /** What one packet's handler works on: its own inventories, and everybody's floor. */
  datatype Scene = Scene(inv: Inv, drops: seq<Drop>)

  /**
    One thing a handler does. A floor drop needs two entity definitions; without the first it
    gives up after minting the stack, without the second after minting the pickup too.
   */
  datatype Action =
    | Mint
    | Loot(item: nat, count: nat, position: (nat, nat, nat), stackKnown: bool, pickupKnown: bool)
    | Collect(pickup: Id)
    | Arrange(op: Op)
    | Give(slot: nat, item: nat, count: nat)
    | Destroy(owner: Id, slot: nat, count: nat)

  /** A player joins, sends a packet, or gets a stored rucksack back. */
  datatype Event =
    | Connected(limits: map<nat, nat>)
    | Packet(from: nat, actions: seq<Action>)
    | Restored(from: nat, items: seq<Stored.Item>)

  // --- one action ---

  function DropAt(drops: seq<Drop>, pickup: Id): (at: Option<nat>)
    ensures at.Some? ==> at.value < |drops| && drops[at.value].pickup == pickup
    ensures at.None? ==> forall d | d in drops :: d.pickup != pickup
  {
    if drops == [] then None
    else if drops[0].pickup == pickup then Some(0)
    else
      var rest := DropAt(drops[1..], pickup);
      if rest.Some? then Some(rest.value + 1) else None
  }

  function Without(drops: seq<Drop>, at: nat): seq<Drop>
    requires at < |drops|
  {
    drops[..at] + drops[at + 1..]
  }

  function Looted(scene: Scene, a: Action): Scene
    requires a.Loot?
  {
    var stack := Loosened(scene.inv, a.item, a.count);
    var pickup := Reserved(stack, stack.next + 1);
    if !a.stackKnown then scene.(inv := stack)
    else if !a.pickupKnown then scene.(inv := pickup)
    else Scene(pickup, scene.drops + [Drop(stack.next, scene.inv.next, a.item, a.count, a.position)])
  }

  function Gathered(player: Id, scene: Scene, pickup: Id): Scene {
    var at := DropAt(scene.drops, pickup);
    if at.None? then scene
    else
      var drop := scene.drops[at.value];
      var floor := Without(scene.drops, at.value);
      var known := Ensured(scene.inv, drop.stack, drop.item, drop.count);
      var change := Collected(known, player, drop.stack);
      if change.effects == [] then Scene(change.inv, floor + [drop]) else Scene(change.inv, floor)
  }

  function Acted(player: Id, scene: Scene, a: Action): Scene {
    match a
    case Mint => scene.(inv := Reserved(scene.inv, scene.inv.next + 1))
    case Loot(_, _, _, _, _) => Looted(scene, a)
    case Collect(pickup) => Gathered(player, scene, pickup)
    case Arrange(op) => scene.(inv := Done(scene.inv, op).inv)
    case Give(slot, item, count) =>
      var given := Given(scene.inv, player, slot, item, count);
      if given.None? then scene else scene.(inv := given.value)
    case Destroy(owner, slot, count) => scene.(inv := Destroyed(scene.inv, owner, slot, count).inv)
  }

  function ActedAll(player: Id, scene: Scene, actions: seq<Action>): Scene {
    if actions == [] then scene
    else Acted(player, ActedAll(player, scene, actions[..|actions| - 1]), actions[|actions| - 1])
  }

  // --- one event, and a run of them ---

  function Fresh(player: Id, limits: map<nat, nat>): Session {
    Session(player, Inv(map[player := seq(MAX_INVENTORY_SLOTS, _ => 0)], map[], limits, player + 1))
  }

  /** The session takes the server's counter before the packet, and the server takes it back. */
  function Lent(game: Game, from: nat): Scene
    requires from < |game.sessions|
  {
    Scene(Reserved(game.sessions[from].inv, game.next), game.drops)
  }

  function Returned(game: Game, from: nat, scene: Scene): Game
    requires from < |game.sessions|
  {
    Game(if scene.inv.next > game.next then scene.inv.next else game.next,
         game.sessions[from := game.sessions[from].(inv := scene.inv)],
         scene.drops)
  }

  /** The first `n` stored stacks, each into its square when that is there and free. */
  function GivenAll(inv: Inv, player: Id, items: seq<Stored.Item>, n: nat): Inv
    requires n <= |items|
  {
    if n == 0 then inv
    else
      var before := GivenAll(inv, player, items, n - 1);
      var (slot, (item, count)) := items[n - 1];
      var given := Given(before, player, slot, item, count);
      if given.None? then before else given.value
  }

  /** A session's things, as its own saving and restoring see them. */
  function Bare(s: Session): SaveRestore.Carrier {
    SaveRestore.Carrier(s.player, s.inv, [0, 0], map[], map[], map[], map[], [])
  }

  /** What a restore makes of the squares; nothing for a player who carries something already. */
  function RestoredInv(s: Session, items: seq<Stored.Item>): Inv {
    if SaveRestore.CarriedItems(Bare(s)) != [] then s.inv else GivenAll(s.inv, s.player, items, |items|)
  }

  function Stepped(game: Game, e: Event): Game {
    match e
    // The session mints with its own counter: the server neither lends its own nor takes this one back.
    case Restored(from, items) =>
      if from >= |game.sessions| then game
      else
        var s := game.sessions[from];
        game.(sessions := game.sessions[from := s.(inv := RestoredInv(s, items))])
    case Connected(limits) => Game(game.next + 1, game.sessions + [Fresh(game.next, limits)], game.drops)
    case Packet(from, actions) =>
      if from >= |game.sessions| then game
      else Returned(game, from, ActedAll(game.sessions[from].player, Lent(game, from), actions))
  }

  function Ran(game: Game, events: seq<Event>): Game {
    if events == [] then game else Stepped(Ran(game, events[..|events| - 1]), events[|events| - 1])
  }

  // --- what holds between steps ---

  /** A session that has heard of a drop's stack knows it as it lies, and holds it in no square. */
  ghost predicate Agrees(inv: Inv, d: Drop) {
    !Placed(inv, d.stack) && (d.stack in inv.items ==> inv.items[d.stack] == Stack(Some(d.item), d.count))
  }

  ghost predicate Distinct(drops: seq<Drop>, front: Id) {
    (forall i, j | 0 <= i < j < |drops| :: drops[i].pickup != drops[j].pickup && drops[i].stack != drops[j].stack) &&
    forall d | d in drops :: 0 < d.stack < front && 0 < d.pickup < front
  }

  ghost predicate SceneSound(scene: Scene) {
    Valid(scene.inv) && scene.inv.next > 0 && Distinct(scene.drops, scene.inv.next) &&
    forall d | d in scene.drops :: Agrees(scene.inv, d)
  }

  ghost predicate Sound(game: Game) {
    game.next > 0 && Distinct(game.drops, game.next) &&
    (forall s | s in game.sessions :: Valid(s.inv) && s.inv.next > 0) &&
    forall s, d | s in game.sessions && d in game.drops :: Agrees(s.inv, d)
  }

  /** Drops that were not there before have stacks minted since `front`. */
  ghost predicate OnlyNewer(before: seq<Drop>, after: seq<Drop>, front: Id) {
    forall d | d in after :: d in before || d.stack >= front
  }

  lemma WithoutKeeps(drops: seq<Drop>, at: nat, front: Id)
    requires at < |drops| && Distinct(drops, front)
    ensures Distinct(Without(drops, at), front) && Distinct(Without(drops, at) + [drops[at]], front)
    ensures forall d | d in Without(drops, at) :: d in drops && d.stack != drops[at].stack && d.pickup != drops[at].pickup
  {
    var rest := Without(drops, at);
    forall i | 0 <= i < |rest| ensures rest[i] in drops && rest[i].stack != drops[at].stack && rest[i].pickup != drops[at].pickup {
      assert rest[i] == if i < at then drops[i] else drops[i + 1];
    }
  }

  lemma LootedSound(scene: Scene, a: Action)
    requires a.Loot? && SceneSound(scene)
    ensures SceneSound(Looted(scene, a)) && scene.inv.next < Looted(scene, a).inv.next
    ensures OnlyNewer(scene.drops, Looted(scene, a).drops, scene.inv.next)
    ensures forall name: Option<nat> :: Carried(Looted(scene, a).inv, name) == Carried(scene.inv, name)
  {
    var after := Looted(scene, a);
    Minted(scene.inv, Stack(Some(a.item), a.count));
    var stack := Loosened(scene.inv, a.item, a.count);
    ReservedKeeps(stack, stack.next + 1);
    hide Valid, Carried, SameShape;
    forall d | d in after.drops ensures Agrees(after.inv, d) {
      if d in scene.drops {
        assert Agrees(scene.inv, d) && d.stack != scene.inv.next;
      }
    }
  }

  lemma ReservedKeeps(inv: Inv, next: Id)
    requires Valid(inv)
    ensures Valid(Reserved(inv, next))
    ensures forall e: Id :: Placed(Reserved(inv, next), e) <==> Placed(inv, e)
    ensures forall name: Option<nat> :: Carried(Reserved(inv, next), name) == Carried(inv, name)
  {
    var after := Reserved(inv, next);
    assert forall o: Id, i: nat :: after.At(o, i) == inv.At(o, i);
    hide SameShape;
    forall name: Option<nat> ensures Carried(after, name) == Carried(inv, name) {
      CarriedSame(inv, after, name);
    }
  }

  lemma EnsuredKeeps(inv: Inv, d: Drop)
    requires Valid(inv) && Agrees(inv, d) && 0 < d.stack < inv.next
    ensures var known := Ensured(inv, d.stack, d.item, d.count);
      Valid(known) && known.next == inv.next && Loose(known, d.stack)
      && known.items == inv.items[d.stack := Stack(Some(d.item), d.count)]
      && (forall e: Id :: Placed(known, e) <==> Placed(inv, e))
      && forall name: Option<nat> :: Carried(known, name) == Carried(inv, name)
  {
    var known := Ensured(inv, d.stack, d.item, d.count);
    assert forall o: Id, i: nat :: known.At(o, i) == inv.At(o, i);
    assert known.items == inv.items[d.stack := Stack(Some(d.item), d.count)];
    hide SameShape;
    forall name: Option<nat> ensures Carried(known, name) == Carried(inv, name) {
      CarriedSame(inv, known, name);
    }
  }

  // --- how many of an item there are, and where ---

  function FloorCount(drops: seq<Drop>, name: nat): nat {
    if drops == [] then 0
    else FloorCount(drops[..|drops| - 1], name)
         + if drops[|drops| - 1].item == name then drops[|drops| - 1].count else 0
  }

  lemma {:induction false} FloorWithout(drops: seq<Drop>, at: nat, name: nat)
    requires at < |drops|
    ensures FloorCount(Without(drops, at), name) + (if drops[at].item == name then drops[at].count else 0)
         == FloorCount(drops, name)
  {
    var n := |drops| - 1;
    if at == n {
      assert Without(drops, at) == drops[..n];
    } else {
      var rest := Without(drops, at);
      assert rest[..n - 1] == Without(drops[..n], at) && rest[n - 1] == drops[n];
      FloorWithout(drops[..n], at, name);
    }
  }

  lemma FloorAppend(drops: seq<Drop>, d: Drop, name: nat)
    ensures FloorCount(drops + [d], name) == FloorCount(drops, name) + if d.item == name then d.count else 0
  {
    assert (drops + [d])[..|drops|] == drops;
  }

  /** What a pick-up puts in the squares, and what it leaves where nobody can reach it. */
  datatype Haul = Haul(granted: nat, lost: nat)

  function Hauled(player: Id, scene: Scene, pickup: Id): Haul {
    var at := DropAt(scene.drops, pickup);
    if at.None? then Haul(0, 0)
    else
      var drop := scene.drops[at.value];
      var known := Ensured(scene.inv, drop.stack, drop.item, drop.count);
      if Collected(known, player, drop.stack).effects == [] then Haul(0, 0)
      else
        var granted := Granted(known, player, drop.stack);
        Haul(granted, known.items[drop.stack].count - granted)
  }

  /** The whole of one pick-up. */
  lemma GatheredSound(player: Id, scene: Scene, pickup: Id, name: nat)
    requires SceneSound(scene)
    ensures SceneSound(Gathered(player, scene, pickup)) && Gathered(player, scene, pickup).inv.next == scene.inv.next
    ensures OnlyNewer(scene.drops, Gathered(player, scene, pickup).drops, scene.inv.next)
    ensures var at := DropAt(scene.drops, pickup);
      var after := Gathered(player, scene, pickup);
      var haul := Hauled(player, scene, pickup);
      var mine := at.Some? && scene.drops[at.value].item == name;
      Carried(after.inv, Some(name)) == Carried(scene.inv, Some(name)) + (if mine then haul.granted else 0)
      && FloorCount(after.drops, name) + (if mine then haul.granted + haul.lost else 0) == FloorCount(scene.drops, name)
  {
    var at := DropAt(scene.drops, pickup);
    if at.Some? {
      var drop := scene.drops[at.value];
      var floor := Without(scene.drops, at.value);
      var known := Ensured(scene.inv, drop.stack, drop.item, drop.count);
      var change := Collected(known, player, drop.stack);
      WithoutKeeps(scene.drops, at.value, scene.inv.next);
      assert drop in scene.drops;
      EnsuredKeeps(scene.inv, drop);
      CollectedGrants(known, player, drop.stack);
      FloorWithout(scene.drops, at.value, name);
      FloorAppend(floor, drop, name);
      forall d | d in floor ensures Agrees(change.inv, d) {
        assert Agrees(scene.inv, d);
        LeftAlone(scene.inv, known, change.inv, drop, d);
      }
      hide Valid, Carried, Placed, Collected, Granted, Room, FirstFree, Without, FloorCount, Loose, Ensured;
    }
  }

  /** Another drop's stack is not touched by taking this one. */
  lemma LeftAlone(inv: Inv, known: Inv, after: Inv, drop: Drop, d: Drop)
    requires Valid(inv) && Agrees(inv, d) && d.stack != drop.stack && d.stack > 0
    requires known.items == inv.items[drop.stack := Stack(Some(drop.item), drop.count)]
    requires forall e: Id :: Placed(known, e) <==> Placed(inv, e)
    requires after == known || exists granted: nat :: Pocketed(known, after, drop.stack, granted)
    ensures Agrees(after, d)
  {
    if after != known {
      var granted: nat :| Pocketed(known, after, drop.stack, granted);
      if d.stack in inv.items {
        assert Loose(known, d.stack);
      } else if Placed(after, d.stack) {
        PlacedIsKnown(after, d.stack);
      }
    }
  }

  // --- packets ---

  lemma KeptAgrees(before: Inv, after: Inv, effects: seq<Effect>, d: Drop)
    requires Kept(before, after, effects) && Valid(before) && Agrees(before, d) && 0 < d.stack < before.next
    ensures Agrees(after, d)
  {
    hide Carried, SameShape, Covered, Announced, WithinLimits, Placed;
    if d.stack in before.items {
      assert Loose(before, d.stack);
    } else if Placed(after, d.stack) {
      PlacedIsKnown(after, d.stack);
    }
  }

  lemma KeptCarries(before: Inv, after: Inv, effects: seq<Effect>)
    requires Kept(before, after, effects)
    ensures Valid(after) && before.next <= after.next
    ensures forall name: Option<nat> :: Carried(after, name) == Carried(before, name)
  {
    hide Carried;
  }

  /** Nothing on the floor is touched by what a player does with their own squares. */
  lemma ArrangedSound(scene: Scene, op: Op)
    requires SceneSound(scene)
    ensures SceneSound(scene.(inv := Done(scene.inv, op).inv)) && scene.inv.next <= Done(scene.inv, op).inv.next
    ensures forall name: Option<nat> :: Carried(Done(scene.inv, op).inv, name) == Carried(scene.inv, name)
  {
    hide Done, Carried, Kept, Agrees, Valid;
    var change := Done(scene.inv, op);
    DoneKeeps(scene.inv, op);
    KeptCarries(scene.inv, change.inv, change.effects);
    forall d | d in scene.drops ensures Agrees(change.inv, d) {
      KeptAgrees(scene.inv, change.inv, change.effects, d);
    }
  }

  /** What an action adds to the world, destroys, and leaves stranded, of one item. */
  function Made(player: Id, scene: Scene, a: Action, name: nat): nat {
    match a
    case Loot(item, count, _, stackKnown, pickupKnown) => if stackKnown && pickupKnown && item == name then count else 0
    case Give(slot, item, count) => if scene.inv.Slot(player, slot) == Some(0) && item == name then count else 0
    case _ => 0
  }

  function Discarded(scene: Scene, a: Action, name: nat): nat {
    if !a.Destroy? then 0
    else
      var stack := scene.inv.StackAt(a.owner, a.slot);
      if stack.None? || stack.value.name != Some(name) then 0
      else if 0 < a.count < stack.value.count then a.count else stack.value.count
  }

  function Stranded(player: Id, scene: Scene, a: Action, name: nat): nat {
    if !a.Collect? then 0
    else
      var at := DropAt(scene.drops, a.pickup);
      if at.None? || scene.drops[at.value].item != name then 0 else Hauled(player, scene, a.pickup).lost
  }

  ghost function SceneTotal(scene: Scene, name: nat): nat {
    Carried(scene.inv, Some(name)) + FloorCount(scene.drops, name)
  }

  lemma ActedSound(player: Id, scene: Scene, a: Action, name: nat)
    requires SceneSound(scene)
    ensures SceneSound(Acted(player, scene, a)) && scene.inv.next <= Acted(player, scene, a).inv.next
    ensures OnlyNewer(scene.drops, Acted(player, scene, a).drops, scene.inv.next)
    ensures SceneTotal(Acted(player, scene, a), name) + Stranded(player, scene, a, name) + Discarded(scene, a, name)
         == SceneTotal(scene, name) + Made(player, scene, a, name)
  {
    hide Valid, Carried, Agrees, FloorCount, Looted, Gathered, Hauled, Done, Distinct, Destroyed, Given;
    match a
    case Mint =>
      MintSound(scene);
    case Loot(item, count, position, stackKnown, pickupKnown) =>
      LootedSound(scene, a);
      LootedFloor(player, scene, a, name);
    case Collect(pickup) =>
      GatheredSound(player, scene, pickup, name);
    case Arrange(op) =>
      ArrangedSound(scene, op);
      assert Carried(Done(scene.inv, op).inv, Some(name)) == Carried(scene.inv, Some(name));
    case Give(slot, item, count) =>
      GivenSound(player, scene, slot, item, count);
    case Destroy(owner, slot, count) =>
      DestroySound(scene, owner, slot, count, name);
  }

  lemma GivenSound(player: Id, scene: Scene, slot: nat, item: nat, count: nat)
    requires SceneSound(scene)
    ensures Given(scene.inv, player, slot, item, count).Some? <==> scene.inv.Slot(player, slot) == Some(0)
    ensures var given := Given(scene.inv, player, slot, item, count);
      given.Some? ==>
        SceneSound(scene.(inv := given.value)) && given.value.next == scene.inv.next + 1
        && forall name: Option<nat> :: Carried(given.value, name) == Carried(scene.inv, name) + if name == Some(item) then count else 0
  {
    if scene.inv.Slot(player, slot) == Some(0) {
      GivenPlaces(scene.inv, player, slot, item, count);
      hide Valid, Carried, Placed, Given;
    }
  }

  lemma DestroySound(scene: Scene, owner: Id, slot: nat, count: nat, name: nat)
    requires SceneSound(scene)
    ensures var after := Destroyed(scene.inv, owner, slot, count).inv;
      SceneSound(scene.(inv := after)) && after.next == scene.inv.next
      && Carried(after, Some(name)) + Discarded(scene, Destroy(owner, slot, count), name) == Carried(scene.inv, Some(name))
  {
    var item := scene.inv.At(owner, slot);
    var after := Destroyed(scene.inv, owner, slot, count).inv;
    if item != 0 {
      DestroyedTakes(scene.inv, owner, slot, count, Some(name));
      PlacedAt(scene.inv, owner, slot);
      hide Destroyed, Carried, Placed;
      forall d | d in scene.drops ensures Agrees(after, d) {
        assert Agrees(scene.inv, d) && d.stack != item;
        DestroyedLeaves(scene.inv, owner, slot, count, d.stack);
      }
      DestroyedLeaves(scene.inv, owner, slot, count, item);
    }
  }

  lemma MintSound(scene: Scene)
    requires SceneSound(scene)
    ensures SceneSound(scene.(inv := Reserved(scene.inv, scene.inv.next + 1)))
    ensures forall name: Option<nat> :: Carried(Reserved(scene.inv, scene.inv.next + 1), name) == Carried(scene.inv, name)
  {
    ReservedKeeps(scene.inv, scene.inv.next + 1);
    hide Valid, Carried, Placed;
  }

  lemma LootedFloor(player: Id, scene: Scene, a: Action, name: nat)
    requires a.Loot?
    ensures FloorCount(Looted(scene, a).drops, name) == FloorCount(scene.drops, name) + Made(player, scene, a, name)
  {
    FloorAppend(scene.drops, Drop(scene.inv.next + 1, scene.inv.next, a.item, a.count, a.position), name);
    hide FloorCount;
  }

  /** The same over everything one packet does. */
  function MadeBy(player: Id, scene: Scene, actions: seq<Action>, name: nat): nat {
    if actions == [] then 0
    else
      var before := actions[..|actions| - 1];
      MadeBy(player, scene, before, name) + Made(player, ActedAll(player, scene, before), actions[|actions| - 1], name)
  }

  function DiscardedBy(player: Id, scene: Scene, actions: seq<Action>, name: nat): nat {
    if actions == [] then 0
    else
      var before := actions[..|actions| - 1];
      DiscardedBy(player, scene, before, name) + Discarded(ActedAll(player, scene, before), actions[|actions| - 1], name)
  }

  function StrandedBy(player: Id, scene: Scene, actions: seq<Action>, name: nat): nat {
    if actions == [] then 0
    else
      var before := actions[..|actions| - 1];
      StrandedBy(player, scene, before, name)
      + Stranded(player, ActedAll(player, scene, before), actions[|actions| - 1], name)
  }

  lemma {:induction false} ActedAllSound(player: Id, scene: Scene, actions: seq<Action>, name: nat)
    requires SceneSound(scene)
    ensures SceneSound(ActedAll(player, scene, actions)) && scene.inv.next <= ActedAll(player, scene, actions).inv.next
    ensures OnlyNewer(scene.drops, ActedAll(player, scene, actions).drops, scene.inv.next)
    ensures SceneTotal(ActedAll(player, scene, actions), name)
         + StrandedBy(player, scene, actions, name) + DiscardedBy(player, scene, actions, name)
         == SceneTotal(scene, name) + MadeBy(player, scene, actions, name)
  {
    hide SceneSound, SceneTotal, Acted, Stranded, Made, Discarded;
    if actions != [] {
      var before := actions[..|actions| - 1];
      ActedAllSound(player, scene, before, name);
      ActedSound(player, ActedAll(player, scene, before), actions[|actions| - 1], name);
    }
  }

  // --- runs ---

  ghost function CarriedByAll(sessions: seq<Session>, name: nat): nat {
    if sessions == [] then 0
    else CarriedByAll(sessions[..|sessions| - 1], name) + Carried(sessions[|sessions| - 1].inv, Some(name))
  }

  lemma {:induction false} CarriedWith(sessions: seq<Session>, from: nat, s: Session, name: nat)
    requires from < |sessions|
    ensures CarriedByAll(sessions[from := s], name)
         == CarriedByAll(sessions, name) - Carried(sessions[from].inv, Some(name)) + Carried(s.inv, Some(name))
  {
    hide Carried;
    var n := |sessions| - 1;
    if from == n {
      assert sessions[from := s][..n] == sessions[..n];
    } else {
      assert sessions[from := s][..n] == sessions[..n][from := s];
      CarriedWith(sessions[..n], from, s, name);
    }
  }

  /** All of an item that anybody can reach: in some session's squares, or on the floor. */
  ghost function Total(game: Game, name: nat): nat {
    CarriedByAll(game.sessions, name) + FloorCount(game.drops, name)
  }

  /** The counter a packet's handler starts from: the server's, or the session's own when that is ahead. */
  function Front(game: Game, from: nat): Id
    requires from < |game.sessions|
  {
    if game.next > game.sessions[from].inv.next then game.next else game.sessions[from].inv.next
  }

  lemma LentSound(game: Game, from: nat, name: nat)
    requires Sound(game) && from < |game.sessions|
    ensures SceneSound(Lent(game, from)) && Lent(game, from).inv.next == Front(game, from)
    ensures Carried(Lent(game, from).inv, Some(name)) == Carried(game.sessions[from].inv, Some(name))
  {
    var s := game.sessions[from];
    assert s in game.sessions;
    ReservedKeeps(s.inv, game.next);
    hide Valid, Carried, Placed;
    forall d | d in game.drops ensures Agrees(Lent(game, from).inv, d) {
      assert Agrees(s.inv, d);
    }
  }

  /** Every other session can tell the stacks that are newly on the floor from its own. */
  ghost predicate OthersAgree(game: Game, from: nat, drops: seq<Drop>) {
    forall i, d | 0 <= i < |game.sessions| && i != from && d in drops && d !in game.drops :: Agrees(game.sessions[i].inv, d)
  }

  lemma ReturnedSound(game: Game, from: nat, scene: Scene)
    requires Sound(game) && from < |game.sessions| && SceneSound(scene) && game.next <= scene.inv.next
    ensures Sound(Returned(game, from, scene)) <==> OthersAgree(game, from, scene.drops)
    ensures Returned(game, from, scene).next == scene.inv.next
  {
    var after := Returned(game, from, scene);
    hide Valid, Agrees, Distinct;
    if Sound(after) {
      forall i, d | 0 <= i < |game.sessions| && i != from && d in scene.drops && d !in game.drops
        ensures Agrees(game.sessions[i].inv, d)
      {
        assert after.sessions[i] == game.sessions[i] && after.sessions[i] in after.sessions;
      }
    }
    if OthersAgree(game, from, scene.drops) {
      forall s | s in after.sessions
        ensures Valid(s.inv) && s.inv.next > 0 && forall d | d in after.drops :: Agrees(s.inv, d)
      {
        var i :| 0 <= i < |after.sessions| && after.sessions[i] == s;
        if i != from {
          assert s == game.sessions[i] && s in game.sessions;
        }
      }
    }
  }

  lemma NeverHeard(inv: Inv, e: Id)
    requires Valid(inv) && inv.next <= e && 0 < e
    ensures e !in inv.items && !Placed(inv, e)
  {
    if Placed(inv, e) {
      PlacedIsKnown(inv, e);
    }
  }

  // --- a restore ---

  /** How many of `name` the first `n` stored stacks bring back. */
  function Regained(inv: Inv, player: Id, items: seq<Stored.Item>, n: nat, name: nat): nat
    requires n <= |items|
  {
    if n == 0 then 0
    else
      var (slot, (item, count)) := items[n - 1];
      Regained(inv, player, items, n - 1, name)
      + if GivenAll(inv, player, items, n - 1).Slot(player, slot) == Some(0) && item == name then count else 0
  }

  /** `after` is `inv` with stacks of its own next ids put in squares. */
  ghost predicate Restocked(inv: Inv, after: Inv) {
    Valid(after) && inv.next <= after.next
    && (forall e: Id :: e in after.items <==> e in inv.items || inv.next <= e < after.next)
    && (forall e | e in inv.items :: after.items[e] == inv.items[e])
    && forall e: Id | e != 0 :: Placed(after, e) <==> Placed(inv, e) || inv.next <= e < after.next
  }

  lemma RestockedMore(inv: Inv, before: Inv, player: Id, slot: nat, item: nat, count: nat)
    requires Valid(inv) && inv.next > 0 && Restocked(inv, before) && before.Slot(player, slot) == Some(0)
    ensures Restocked(inv, Given(before, player, slot, item, count).value)
  {
    GivenPlaces(before, player, slot, item, count);
    hide Valid, Carried, Placed, Given;
  }

  lemma {:induction false} GivenAllKeeps(inv: Inv, player: Id, items: seq<Stored.Item>, n: nat, name: nat)
    requires Valid(inv) && inv.next > 0 && n <= |items|
    ensures Restocked(inv, GivenAll(inv, player, items, n))
    ensures Carried(GivenAll(inv, player, items, n), Some(name)) == Carried(inv, Some(name)) + Regained(inv, player, items, n, name)
  {
    hide Valid, Carried, Placed, Given;
    if n > 0 {
      var before := GivenAll(inv, player, items, n - 1);
      var (slot, (item, count)) := items[n - 1];
      GivenAllKeeps(inv, player, items, n - 1, name);
      GivenWhen(before, player, slot, item, count);
      if before.Slot(player, slot) == Some(0) {
        assert Valid(before) && before.next > 0;
        RestockedMore(inv, before, player, slot, item, count);
        GivenPlaces(before, player, slot, item, count);
      }
    }
  }

  lemma GivenWhen(inv: Inv, owner: Id, slot: nat, item: nat, count: nat)
    ensures Given(inv, owner, slot, item, count).Some? <==> inv.Slot(owner, slot) == Some(0)
  {
  }

  /** A restore leaves the session's loose stacks alone, and takes the next ids of its own counter. */
  lemma RestoredKeeps(s: Session, items: seq<Stored.Item>, name: nat)
    requires Valid(s.inv) && s.inv.next > 0
    ensures Restocked(s.inv, RestoredInv(s, items))
    ensures Carried(RestoredInv(s, items), Some(name)) == Carried(s.inv, Some(name)) + RegainedBy(s, items, name)
  {
    hide Valid, Carried, Placed, GivenAll, Regained;
    GivenAllKeeps(s.inv, s.player, items, |items|, name);
  }

  function RegainedBy(s: Session, items: seq<Stored.Item>, name: nat): nat {
    if SaveRestore.CarriedItems(Bare(s)) != [] then 0 else Regained(s.inv, s.player, items, |items|, name)
  }

  /** This is the restore of `SaveRestore`, whatever details come back beside the stacks. */
  lemma RestoresTheSame(c: SaveRestore.Carrier, p: Stored.Progress, items: seq<Stored.Item>)
    requires c.parked == [0, 0]
    ensures SaveRestore.Restored(c, p, items).inv == RestoredInv(Session(c.player, c.inv), items)
  {
    var s := Session(c.player, c.inv);
    var recalled := SaveRestore.Recalled(c, p);
    SaveRestore.CarriesTheSame(recalled, Bare(s));
    hide SaveRestore.CarriedItems, SaveRestore.Recalled, SaveRestore.Held;
    assert recalled.inv == c.inv && recalled.player == c.player by {
      RecalledKeeps(c, p);
    }
    ReturnsTheSame(recalled, SaveRestore.Held(p), items, |items|);
  }

  lemma RecalledKeeps(c: SaveRestore.Carrier, p: Stored.Progress)
    ensures var recalled := SaveRestore.Recalled(c, p);
      recalled.inv == c.inv && recalled.player == c.player && recalled.parked == c.parked
  {
  }

  lemma {:induction false} ReturnsTheSame(c: SaveRestore.Carrier, p: SaveRestore.Pending, items: seq<Stored.Item>, n: nat)
    requires n <= |items|
    ensures SaveRestore.ReturnedAll(c, p, items, n).0.inv == GivenAll(c.inv, c.player, items, n)
    ensures SaveRestore.ReturnedAll(c, p, items, n).0.player == c.player
  {
    if n > 0 {
      ReturnsTheSame(c, p, items, n - 1);
    }
  }

  /** Some stack on the floor has an id the restore is about to hand out. */
  predicate Overtakes(game: Game, from: nat, items: seq<Stored.Item>)
    requires from < |game.sessions|
  {
    var s := game.sessions[from];
    exists d | d in game.drops :: s.inv.next <= d.stack < RestoredInv(s, items).next
  }

  /** A restored session still agrees about the floor exactly when no stack there was overtaken. */
  lemma RestoredAgrees(s: Session, items: seq<Stored.Item>, d: Drop)
    requires Valid(s.inv) && s.inv.next > 0 && Agrees(s.inv, d) && d.stack > 0
    ensures Agrees(RestoredInv(s, items), d) <==> !(s.inv.next <= d.stack < RestoredInv(s, items).next)
  {
    RestoredKeeps(s, items, 0);
    hide Valid, Carried, Placed, RestoredInv;
  }

  lemma RestoredSound(game: Game, from: nat, items: seq<Stored.Item>, name: nat)
    requires Sound(game) && from < |game.sessions|
    ensures Sound(Stepped(game, Restored(from, items))) <==> !Overtakes(game, from, items)
    ensures Total(Stepped(game, Restored(from, items)), name)
         == Total(game, name) + RegainedBy(game.sessions[from], items, name)
  {
    var s := game.sessions[from];
    var now := s.(inv := RestoredInv(s, items));
    var after := Stepped(game, Restored(from, items));
    assert s in game.sessions;
    RestoredKeeps(s, items, name);
    CarriedWith(game.sessions, from, now, name);
    forall d | d in game.drops
      ensures Agrees(now.inv, d) <==> !(s.inv.next <= d.stack < RestoredInv(s, items).next)
    {
      RestoredAgrees(s, items, d);
    }
    assert after.sessions[from] == now && now in after.sessions;
    hide Valid, Agrees, Carried, CarriedByAll, FloorCount, RestoredInv, RegainedBy;
    forall x | x in after.sessions && x != now ensures x in game.sessions {
      var i :| 0 <= i < |after.sessions| && after.sessions[i] == x;
      assert x == game.sessions[i];
    }
  }

  // --- one event ---

  function MadeIn(game: Game, e: Event, name: nat): nat {
    match e
    case Connected(_) => 0
    case Packet(from, actions) =>
      if from < |game.sessions| then MadeBy(game.sessions[from].player, Lent(game, from), actions, name) else 0
    case Restored(from, items) => if from < |game.sessions| then RegainedBy(game.sessions[from], items, name) else 0
  }

  function StrandedIn(game: Game, e: Event, name: nat): nat {
    if e.Packet? && e.from < |game.sessions|
    then StrandedBy(game.sessions[e.from].player, Lent(game, e.from), e.actions, name)
    else 0
  }

  function DiscardedIn(game: Game, e: Event, name: nat): nat {
    if e.Packet? && e.from < |game.sessions|
    then DiscardedBy(game.sessions[e.from].player, Lent(game, e.from), e.actions, name)
    else 0
  }

  lemma FreshSound(player: Id, limits: map<nat, nat>)
    requires player > 0
    ensures Valid(Fresh(player, limits).inv) && Fresh(player, limits).inv.items == map[]
    ensures forall e: Id | e != 0 :: !Placed(Fresh(player, limits).inv, e)
    ensures forall name: Option<nat> :: Carried(Fresh(player, limits).inv, name) == 0
  {
    var inv := Fresh(player, limits).inv;
    assert forall o: Id, i: nat :: inv.At(o, i) == 0;
    hide Placed;
    forall name: Option<nat> ensures Carried(inv, name) == 0 {
      CarriesNothing(inv, name, inv.next);
    }
  }

  lemma {:induction false} CarriesNothing(inv: Inv, name: Option<nat>, bound: nat)
    requires inv.items == map[]
    ensures CarriedBelow(inv, name, bound) == 0
  {
    if bound > 0 {
      CarriesNothing(inv, name, bound - 1);
    }
  }

  lemma ConnectedSound(game: Game, limits: map<nat, nat>, name: nat)
    requires Sound(game)
    ensures Sound(Stepped(game, Connected(limits))) && Total(Stepped(game, Connected(limits)), name) == Total(game, name)
  {
    var s := Fresh(game.next, limits);
    FreshSound(game.next, limits);
    var after := game.sessions + [s];
    assert after[..|game.sessions|] == game.sessions;
    hide Valid, Carried, Placed;
    assert CarriedByAll(after, name) == CarriedByAll(game.sessions, name);
    assert forall x | x in after :: x == s || x in game.sessions;
  }

  /**
    An event gives two stacks one id: a restore overtakes a stack on the floor, or a packet drops
    one under an id another session uses otherwise.
   */
  ghost predicate Clashes(game: Game, e: Event) {
    match e
    case Connected(_) => false
    case Packet(from, _) => from < |game.sessions| && !OthersAgree(game, from, Stepped(game, e).drops)
    case Restored(from, items) => from < |game.sessions| && Overtakes(game, from, items)
  }

  /** One event accounts for every item, and keeps the world sound exactly when no id clashes. */
  lemma SteppedSound(game: Game, e: Event, name: nat)
    requires Sound(game)
    ensures Sound(Stepped(game, e)) <==> !Clashes(game, e)
    ensures Total(Stepped(game, e), name) + StrandedIn(game, e, name) + DiscardedIn(game, e, name)
         == Total(game, name) + MadeIn(game, e, name)
  {
    match e {
      case Connected(limits) => ConnectedSound(game, limits, name);
      case Packet(from, actions) => PacketSound(game, from, actions, name);
      case Restored(from, items) =>
        if from < |game.sessions| {
          RestoredSound(game, from, items, name);
        }
    }
    hide Sound, Total, Stepped, OthersAgree, Overtakes;
  }

  lemma PacketSound(game: Game, from: nat, actions: seq<Action>, name: nat)
    requires Sound(game)
    ensures Sound(Stepped(game, Packet(from, actions))) <==> !Clashes(game, Packet(from, actions))
    ensures var e := Packet(from, actions);
      Total(Stepped(game, e), name) + StrandedIn(game, e, name) + DiscardedIn(game, e, name)
      == Total(game, name) + MadeIn(game, e, name)
  {
    hide Sound, SceneSound, Carried, CarriedByAll, FloorCount, ActedAll, StrandedBy, MadeBy, DiscardedBy, OnlyNewer, Lent;
    if from < |game.sessions| {
      var s := game.sessions[from];
      LentSound(game, from, name);
      LentFloor(game, from);
      var scene := ActedAll(s.player, Lent(game, from), actions);
      ActedAllSound(s.player, Lent(game, from), actions, name);
      ReturnedSound(game, from, scene);
      CarriedWith(game.sessions, from, s.(inv := scene.inv), name);
      hide OthersAgree;
    }
  }

  lemma LentFloor(game: Game, from: nat)
    requires from < |game.sessions|
    ensures Lent(game, from).drops == game.drops
  {
  }

  function MadeOver(game: Game, events: seq<Event>, name: nat): nat {
    if events == [] then 0
    else
      var before := events[..|events| - 1];
      MadeOver(game, before, name) + MadeIn(Ran(game, before), events[|events| - 1], name)
  }

  function StrandedOver(game: Game, events: seq<Event>, name: nat): nat {
    if events == [] then 0
    else
      var before := events[..|events| - 1];
      StrandedOver(game, before, name) + StrandedIn(Ran(game, before), events[|events| - 1], name)
  }

  function DiscardedOver(game: Game, events: seq<Event>, name: nat): nat {
    if events == [] then 0
    else
      var before := events[..|events| - 1];
      DiscardedOver(game, before, name) + DiscardedIn(Ran(game, before), events[|events| - 1], name)
  }

  ghost predicate NoneClashes(game: Game, events: seq<Event>) {
    forall k | 0 <= k < |events| :: !Clashes(Ran(game, events[..k]), events[k])
  }

  ghost predicate SoundThroughout(game: Game, events: seq<Event>) {
    forall k | 0 <= k <= |events| :: Sound(Ran(game, events[..k]))
  }

  lemma NoneClashesNext(game: Game, events: seq<Event>)
    requires events != []
    ensures NoneClashes(game, events) <==>
      NoneClashes(game, events[..|events| - 1]) && !Clashes(Ran(game, events[..|events| - 1]), events[|events| - 1])
  {
    hide Clashes, Ran;
    var n := |events| - 1;
    forall k | 0 <= k < n ensures events[..n][..k] == events[..k] {
    }
  }

  lemma SoundNext(game: Game, events: seq<Event>)
    requires events != []
    ensures SoundThroughout(game, events) <==> SoundThroughout(game, events[..|events| - 1]) && Sound(Ran(game, events))
  {
    hide Sound, Ran;
    var n := |events| - 1;
    assert events[..n + 1] == events;
    forall k | 0 <= k <= n ensures events[..n][..k] == events[..k] {
    }
  }

  lemma SoundAtEnd(game: Game, events: seq<Event>)
    requires SoundThroughout(game, events)
    ensures Sound(Ran(game, events))
  {
    hide Sound, Ran;
    assert events[..|events|] == events;
  }

  /**
    Over any run of joins, packets and restores, the sessions and the floor agree about every stack
    all the way if and only if no event gives two stacks one id.
   */
  lemma {:induction false} SoundWhenNoneClashes(game: Game, events: seq<Event>)
    requires Sound(game)
    ensures SoundThroughout(game, events) <==> NoneClashes(game, events)
  {
    hide Sound, Clashes, Stepped;
    if events == [] {
      assert events[..0] == [];
    } else {
      var before := events[..|events| - 1];
      SoundWhenNoneClashes(game, before);
      NoneClashesNext(game, events);
      SoundNext(game, events);
      hide SoundThroughout, NoneClashes;
      if SoundThroughout(game, before) {
        SoundAtEnd(game, before);
        SteppedSound(Ran(game, before), events[|events| - 1], 0);
      }
    }
  }

  /**
    Then every item is accounted for: what is carried or on the floor at the end is what was there
    and what came in since, dropped, given or restored, less what was destroyed and what a pick-up
    left stranded. Nothing is ever made twice.
   */
  lemma {:induction false} RanSound(game: Game, events: seq<Event>, name: nat)
    requires Sound(game) && NoneClashes(game, events)
    ensures Sound(Ran(game, events))
    ensures Total(Ran(game, events), name) + StrandedOver(game, events, name) + DiscardedOver(game, events, name)
         == Total(game, name) + MadeOver(game, events, name)
  {
    hide Sound, Total, Stepped, MadeIn, StrandedIn, DiscardedIn, Clashes;
    if events != [] {
      var before := events[..|events| - 1];
      NoneClashesNext(game, events);
      hide NoneClashes;
      RanSound(game, before, name);
      SteppedSound(Ran(game, before), events[|events| - 1], name);
    }
  }

  /** The first clash itself loses nothing: what may be lost is lost by what comes after. */
  lemma FirstClashConserves(game: Game, events: seq<Event>, name: nat)
    requires Sound(game) && events != [] && NoneClashes(game, events[..|events| - 1])
    ensures Total(Ran(game, events), name) + StrandedOver(game, events, name) + DiscardedOver(game, events, name)
         == Total(game, name) + MadeOver(game, events, name)
  {
    hide Sound, Total, Stepped, MadeIn, StrandedIn, DiscardedIn, NoneClashes;
    var before := events[..|events| - 1];
    RanSound(game, before, name);
    SteppedSound(Ran(game, before), events[|events| - 1], name);
  }

  // --- a drop that has been taken is gone for good ---

  ghost predicate Gone(drops: seq<Drop>, pickup: Id) {
    forall d | d in drops :: d.pickup != pickup
  }

  /** Every id on the floor has been handed out. */
  ghost predicate Below(drops: seq<Drop>, front: Id) {
    forall d | d in drops :: d.stack < front && d.pickup < front
  }

  /** No action hands out an id below the counter, whatever it finds in the squares. */
  lemma ActedBelow(player: Id, scene: Scene, a: Action)
    requires Below(scene.drops, scene.inv.next)
    ensures scene.inv.next <= Acted(player, scene, a).inv.next
    ensures Below(Acted(player, scene, a).drops, Acted(player, scene, a).inv.next)
    ensures forall d | d in Acted(player, scene, a).drops :: d in scene.drops || (scene.inv.next <= d.stack && scene.inv.next <= d.pickup)
  {
    hide Done, Collected, Destroyed, Given, Gathered, SameShape;
    match a {
      case Mint =>
      case Loot(_, _, _, _, _) =>
      case Collect(pickup) => GatheredBelow(player, scene, pickup);
      case Arrange(op) => DoneNext(scene.inv, op);
      case Give(slot, item, count) => GivenNext(scene.inv, player, slot, item, count);
      case Destroy(owner, slot, count) => DestroyedNext(scene.inv, owner, slot, count);
    }
  }

  lemma GatheredBelow(player: Id, scene: Scene, pickup: Id)
    requires Below(scene.drops, scene.inv.next)
    ensures Gathered(player, scene, pickup).inv.next == scene.inv.next
    ensures forall d | d in Gathered(player, scene, pickup).drops :: d in scene.drops
  {
    var at := DropAt(scene.drops, pickup);
    if at.Some? {
      var drop := scene.drops[at.value];
      assert drop in scene.drops;
      var known := Ensured(scene.inv, drop.stack, drop.item, drop.count);
      CollectedFrame(known, player, drop.stack);
      hide Collected, SameShape;
      assert forall d | d in Without(scene.drops, at.value) :: d in scene.drops;
    }
  }

  lemma DoneNext(inv: Inv, op: Op)
    ensures Done(inv, op).inv.next == inv.next + if Splits(inv, op) then 1 else 0
  {
    hide TakenFrom, Mergeable, FirstFree, SameShape;
    match op
    case Transfer(from, slot, to, target, count) =>
    case Swap(from, slot, to, target) =>
    case TakeAll(from, to) =>
      if from in inv.slots {
        TakenFrame(inv, from, to, 0, |inv.slots[from]|);
      }
    case Equip(owner, bag, square) =>
    case Unequip(owner, square) =>
  }

  /** Only a split makes a new stack; a merge, an exchange or a "take all" never does. */
  predicate Splits(inv: Inv, op: Op) {
    op.Transfer? && Addressable(inv, op.from, op.slot, op.to, op.target) && inv.At(op.from, op.slot) != 0
    && Split(inv, op.from, op.slot, op.to, op.target, op.count).Some?
  }

  lemma GivenNext(inv: Inv, owner: Id, slot: nat, item: nat, count: nat)
    ensures var given := Given(inv, owner, slot, item, count);
      (given.Some? <==> inv.Slot(owner, slot) == Some(0)) && (given.Some? ==> given.value.next == inv.next + 1)
  {
  }

  lemma DestroyedNext(inv: Inv, owner: Id, slot: nat, count: nat)
    ensures Destroyed(inv, owner, slot, count).inv.next == inv.next
  {
  }

  lemma {:induction false} ActedAllBelow(player: Id, scene: Scene, actions: seq<Action>)
    requires Below(scene.drops, scene.inv.next)
    ensures var after := ActedAll(player, scene, actions);
      scene.inv.next <= after.inv.next && Below(after.drops, after.inv.next)
      && forall d | d in after.drops :: d in scene.drops || (scene.inv.next <= d.stack && scene.inv.next <= d.pickup)
  {
    hide Acted;
    if actions != [] {
      var before := actions[..|actions| - 1];
      ActedAllBelow(player, scene, before);
      ActedBelow(player, ActedAll(player, scene, before), actions[|actions| - 1]);
    }
  }

  lemma SteppedBelow(game: Game, e: Event)
    requires Below(game.drops, game.next)
    ensures game.next <= Stepped(game, e).next && Below(Stepped(game, e).drops, Stepped(game, e).next)
    ensures forall d | d in Stepped(game, e).drops :: d in game.drops || (game.next <= d.stack && game.next <= d.pickup)
  {
    hide ActedAll, RestoredInv;
    if e.Packet? && e.from < |game.sessions| {
      ActedAllBelow(game.sessions[e.from].player, Lent(game, e.from), e.actions);
    }
  }

  /** However joins, packets and restores interleave, a pick-up that was granted once finds nothing ever after. */
  lemma {:induction false} GoneForGood(game: Game, events: seq<Event>, pickup: Id)
    requires Below(game.drops, game.next) && Gone(game.drops, pickup) && pickup < game.next
    ensures var after := Ran(game, events);
      Gone(after.drops, pickup) && Below(after.drops, after.next) && game.next <= after.next
  {
    hide Stepped;
    if events != [] {
      var before := events[..|events| - 1];
      GoneForGood(game, before, pickup);
      SteppedBelow(Ran(game, before), events[|events| - 1]);
    }
  }

  /** The first to arrive takes the drop off the floor, and a second attempt changes nothing at all. */
  lemma TakenOnce(player: Id, scene: Scene, other: Id, inv: Inv, pickup: Id)
    requires SceneSound(scene)
    requires Hauled(player, scene, pickup).granted > 0
    ensures Gone(Gathered(player, scene, pickup).drops, pickup)
    ensures var after := Scene(inv, Gathered(player, scene, pickup).drops); Gathered(other, after, pickup) == after
  {
    var at := DropAt(scene.drops, pickup);
    WithoutKeeps(scene.drops, at.value, scene.inv.next);
    hide Collected, Ensured, Granted;
  }

  /** A refusal leaves that very drop on the floor, with all the others. */
  lemma RefusedStays(player: Id, scene: Scene, pickup: Id)
    requires SceneSound(scene) && DropAt(scene.drops, pickup).Some?
    requires var drop := scene.drops[DropAt(scene.drops, pickup).value];
      Room(scene.inv, player, drop.item).None? && FirstFree(scene.inv, player).None?
    ensures multiset(Gathered(player, scene, pickup).drops) == multiset(scene.drops)
    ensures forall name: Option<nat> :: Carried(Gathered(player, scene, pickup).inv, name) == Carried(scene.inv, name)
  {
    var at := DropAt(scene.drops, pickup).value;
    var drop := scene.drops[at];
    assert drop in scene.drops;
    EnsuredKeeps(scene.inv, drop);
    var known := Ensured(scene.inv, drop.stack, drop.item, drop.count);
    CollectedGrants(known, player, drop.stack);
    SameRoom(scene.inv, known, player, drop, 0);
    SameFree(scene.inv, known, player, 0);
    assert scene.drops == scene.drops[..at] + [drop] + scene.drops[at + 1..];
    hide Valid, Carried, Placed, Collected, Room;
  }

  /** Learning of a drop's stack opens no room for it. */
  lemma {:induction false} SameRoom(inv: Inv, known: Inv, owner: Id, drop: Drop, k: nat)
    requires Agrees(inv, drop) && known == inv.(items := inv.items[drop.stack := Stack(Some(drop.item), drop.count)])
    ensures RoomFrom(known, owner, drop.item, k) == RoomFrom(inv, owner, drop.item, k)
    decreases if owner in inv.slots then |inv.slots[owner]| - k else 0
  {
    if owner in inv.slots && k < |inv.slots[owner]| {
      PlacedAt(inv, owner, k);
      SameRoom(inv, known, owner, drop, k + 1);
    }
  }

  lemma {:induction false} SameFree(inv: Inv, known: Inv, owner: Id, k: nat)
    requires inv.slots == known.slots
    ensures FreeFrom(known, owner, k) == FreeFrom(inv, owner, k)
    decreases if owner in inv.slots then |inv.slots[owner]| - k else 0
  {
    if owner in inv.slots && k < |inv.slots[owner]| {
      SameFree(inv, known, owner, k + 1);
    }
  }

  // --- where conservation fails ---

  /** How many more of an item the first stack with room can take. */
  function Space(inv: Inv, owner: Id, name: nat): Option<nat> {
    var slot := Room(inv, owner, name);
    if slot.None? then None else Some(inv.Limit(name) - inv.items[inv.At(owner, slot.value)].count)
  }

  /**
    A pick-up strands items exactly when some stack has room, but less than the drop holds: the
    rest belongs to a stack that is in no square and whose pickup has left the floor.
   */
  lemma StrandsWhen(player: Id, scene: Scene, pickup: Id)
    requires SceneSound(scene) && DropAt(scene.drops, pickup).Some?
    ensures var drop := scene.drops[DropAt(scene.drops, pickup).value];
      var space := Space(scene.inv, player, drop.item);
      (Hauled(player, scene, pickup).lost > 0 <==> space.Some? && space.value < drop.count)
      && (space.Some? ==> Hauled(player, scene, pickup) == Haul(Min(drop.count, space.value), drop.count - Min(drop.count, space.value)))
  {
    var drop := scene.drops[DropAt(scene.drops, pickup).value];
    assert drop in scene.drops;
    EnsuredKeeps(scene.inv, drop);
    var known := Ensured(scene.inv, drop.stack, drop.item, drop.count);
    CollectedGrants(known, player, drop.stack);
    SameRoom(scene.inv, known, player, drop, 0);
    if Room(scene.inv, player, drop.item).Some? {
      PlacedAt(scene.inv, player, Room(scene.inv, player, drop.item).value);
    }
    hide Valid, Carried, Placed, Collected, RoomFrom;
  }
}
