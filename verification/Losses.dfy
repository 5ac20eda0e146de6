/** Runs that lose items: by a pick-up that only partly fits, and by ids that clash after a restore. */
module Losses {
  import opened Wrappers
  import opened Inventory
  import opened SharedWorld
  import SaveRestore
  import Stored

  // --- a pick-up that only partly fits ---

  /** The squares of a new player, with `item` in the first of the rucksack. */
  function Row(item: Id): (row: seq<Id>)
    ensures |row| == MAX_INVENTORY_SLOTS
  {
    seq(MAX_INVENTORY_SLOTS, i => if i == FIRST_RUCKSACK_SLOT then item else 0)
  }

  /** Player 1 with that rucksack, knowing these stacks. */
  function Holding(item: Id, items: map<Id, Stack>, next: Id): Inv {
    var slots: map<Id, seq<Id>> := map[1 := Row(item)];
    Inv(slots, items, map[], next)
  }

  lemma HoldingIs(item: Id, items: map<Id, Stack>, next: Id)
    ensures var inv := Holding(item, items, next);
      (forall o: Id, i: nat :: inv.At(o, i) == if o == 1 && i == FIRST_RUCKSACK_SLOT then item else 0)
      && inv.Slot(1, FIRST_RUCKSACK_SLOT) == Some(item) && inv.Limit(7) == 64
  {
  }

  lemma {:induction false} EmptyHasNoRoom(items: map<Id, Stack>, next: Id, k: nat)
    ensures RoomFrom(Holding(0, items, next), 1, 7, k) == None
    decreases MAX_INVENTORY_SLOTS - k
  {
    HoldingIs(0, items, next);
    if k < MAX_INVENTORY_SLOTS {
      EmptyHasNoRoom(items, next, k + 1);
    }
  }

  lemma {:induction false} NinthIsFree(items: map<Id, Stack>, next: Id, k: nat)
    requires k <= FIRST_RUCKSACK_SLOT
    ensures FreeFrom(Holding(0, items, next), 1, k) == Some(FIRST_RUCKSACK_SLOT)
    decreases FIRST_RUCKSACK_SLOT - k
  {
    HoldingIs(0, items, next);
    if k < FIRST_RUCKSACK_SLOT {
      NinthIsFree(items, next, k + 1);
    }
  }

  lemma {:induction false} NinthHasRoom(items: map<Id, Stack>, next: Id, k: nat)
    requires k <= FIRST_RUCKSACK_SLOT && 2 in items && items[2] == Stack(Some(7), 60)
    ensures RoomFrom(Holding(2, items, next), 1, 7, k) == Some(FIRST_RUCKSACK_SLOT)
    decreases FIRST_RUCKSACK_SLOT - k
  {
    HoldingIs(2, items, next);
    if k < FIRST_RUCKSACK_SLOT {
      NinthHasRoom(items, next, k + 1);
    }
  }

  const HERE: (nat, nat, nat) := (0, 0, 0)

  /** Sixty of item 7 fall and are picked up; then ten more. */
  function SixtyThenTen(): seq<Action> {
    [Loot(7, 60, HERE, true, true), Collect(3), Loot(7, 10, HERE, true, true), Collect(5)]
  }

  /** Sixty on the floor go into the first square of an empty rucksack. */
  lemma SixtyTaken()
    ensures var scene := Scene(Holding(0, map[2 := Stack(Some(7), 60)], 4), [Drop(3, 2, 7, 60, HERE)]);
      Gathered(1, scene, 3) == Scene(Holding(2, map[2 := Stack(Some(7), 60)], 4), []) && Hauled(1, scene, 3).lost == 0
  {
    var items := map[2 := Stack(Some(7), 60)];
    var inv := Holding(0, items, 4);
    EmptyHasNoRoom(items, 4, 0);
    NinthIsFree(items, 4, 0);
    HoldingIs(0, items, 4);
    hide RoomFrom, FreeFrom, Row;
    assert Ensured(inv, 2, 7, 60) == inv;
    assert Row(0)[FIRST_RUCKSACK_SLOT := 2] == Row(2) by {
      RowPut();
    }
    assert inv.Put(1, FIRST_RUCKSACK_SLOT, 2).slots == map[1 := Row(2)];
  }

  lemma RowPut()
    ensures Row(0)[FIRST_RUCKSACK_SLOT := 2] == Row(2)
  {
  }

  /** Ten more take four of them to the top of the stack; six stay in a stack that is nowhere. */
  lemma FourTaken()
    ensures var items := map[2 := Stack(Some(7), 60), 4 := Stack(Some(7), 10)];
      var scene := Scene(Holding(2, items, 6), [Drop(5, 4, 7, 10, HERE)]);
      Gathered(1, scene, 5).drops == [] && Hauled(1, scene, 5) == Haul(4, 6)
  {
    var items := map[2 := Stack(Some(7), 60), 4 := Stack(Some(7), 10)];
    var inv := Holding(2, items, 6);
    NinthHasRoom(items, 6, 0);
    HoldingIs(2, items, 6);
    hide RoomFrom, FreeFrom, Row, Holding;
    assert Ensured(inv, 4, 7, 10) == inv by {
      assert inv.items == items && inv.next == 6 by {
        HoldingItems(2, items, 6);
      }
    }
    HoldingItems(2, items, 6);
  }

  lemma HoldingItems(item: Id, items: map<Id, Stack>, next: Id)
    ensures Holding(item, items, next).items == items && Holding(item, items, next).next == next
    ensures Holding(item, items, next).limits == map[]
  {
  }

  function AfterSixty(): Scene { Scene(Holding(2, map[2 := Stack(Some(7), 60)], 4), []) }

  function AfterTenFell(): Scene {
    Scene(Holding(2, map[2 := Stack(Some(7), 60), 4 := Stack(Some(7), 10)], 6), [Drop(5, 4, 7, 10, HERE)])
  }

  /** The scene before each of the four actions, from an empty rucksack. */
  lemma FourActions()
    ensures var start := Scene(Holding(0, map[], 2), []);
      ActedAll(1, start, SixtyThenTen()[..1]) == Scene(Holding(0, map[2 := Stack(Some(7), 60)], 4), [Drop(3, 2, 7, 60, HERE)])
      && ActedAll(1, start, SixtyThenTen()[..2]) == AfterSixty() && ActedAll(1, start, SixtyThenTen()[..3]) == AfterTenFell()
      && ActedAll(1, start, SixtyThenTen()).drops == []
  {
    var start, actions := Scene(Holding(0, map[], 2), []), SixtyThenTen();
    assert actions[..1][..0] == [] && actions[..2][..1] == actions[..1];
    assert actions[..3][..2] == actions[..2] && actions[..4] == actions;
    assert ActedAll(1, start, []) == start;
    SixtyTaken();
    FourTaken();
    hide Gathered, Row;
  }

  /** Of the four actions only the last strands anything, and what fell is seventy. */
  lemma SixStranded()
    ensures var start := Scene(Holding(0, map[], 2), []);
      StrandedBy(1, start, SixtyThenTen(), 7) == 6 && MadeBy(1, start, SixtyThenTen(), 7) == 70
      && DiscardedBy(1, start, SixtyThenTen(), 7) == 0
  {
    var start, actions := Scene(Holding(0, map[], 2), []), SixtyThenTen();
    assert actions[..1][..0] == [] && actions[..2][..1] == actions[..1];
    assert actions[..3][..2] == actions[..2] && actions[..4][..3] == actions[..3] && actions[..4] == actions;
    FourActions();
    SixtyTaken();
    FourTaken();
    hide ActedAll, Hauled, Row, Holding;
    assert StrandedBy(1, start, actions[..1], 7) == 0;
    assert StrandedBy(1, start, actions[..2], 7) == 0;
    assert StrandedBy(1, start, actions[..3], 7) == 0;
    assert MadeBy(1, start, actions[..1], 7) == 60;
    assert MadeBy(1, start, actions[..2], 7) == 60;
    assert MadeBy(1, start, actions[..3], 7) == 70;
    assert DiscardedBy(1, start, actions[..1], 7) == 0;
    assert DiscardedBy(1, start, actions[..2], 7) == 0;
    assert DiscardedBy(1, start, actions[..3], 7) == 0;
  }

  /**
    A new player picks up sixty and then ten of one item, with a whole rucksack free: of the
    seventy that fell sixty-four are carried, nothing is on the floor, and six are gone.
   */
  lemma SixAreLost()
    ensures var (start, events) := (Game(1, [], []), [Connected(map[]), Packet(0, SixtyThenTen())]);
      Sound(start) && NoneClashes(start, events) && MadeOver(start, events, 7) == 70
      && StrandedOver(start, events, 7) == 6 && DiscardedOver(start, events, 7) == 0
      && Total(Ran(start, events), 7) == 64 && Ran(start, events).drops == []
  {
    var (start, events) := (Game(1, [], []), [Connected(map[]), Packet(0, SixtyThenTen())]);
    RunCounts();
    AloneNeverClashes();
    RanSound(start, events, 7);
    hide Ran, MadeOver, StrandedOver, DiscardedOver, Carried, NoneClashes;
    assert Total(start, 7) == 0;
  }

  lemma RunCounts()
    ensures var (start, events) := (Game(1, [], []), [Connected(map[]), Packet(0, SixtyThenTen())]);
      MadeOver(start, events, 7) == 70 && StrandedOver(start, events, 7) == 6 && DiscardedOver(start, events, 7) == 0
      && Ran(start, events).drops == []
  {
    var (start, events) := (Game(1, [], []), [Connected(map[]), Packet(0, SixtyThenTen())]);
    var first := events[..1];
    assert first == [Connected(map[])] && first[..0] == [];
    OneJoined();
    FourActions();
    SixStranded();
    var joined := Ran(start, first);
    hide ActedAll, StrandedBy, DiscardedBy, MadeBy, Holding, Row, Fresh, SixtyThenTen, Lent;
    assert Ran(start, events) == Stepped(joined, events[1]);
    assert MadeOver(start, first, 7) == 0 && StrandedOver(start, first, 7) == 0 && DiscardedOver(start, first, 7) == 0;
    hide Ran;
    assert MadeOver(start, events, 7) == MadeOver(start, first, 7) + MadeIn(joined, events[1], 7);
    assert StrandedOver(start, events, 7) == StrandedOver(start, first, 7) + StrandedIn(joined, events[1], 7);
    assert DiscardedOver(start, events, 7) == DiscardedOver(start, first, 7) + DiscardedIn(joined, events[1], 7);
  }

  lemma AloneNeverClashes()
    ensures NoneClashes(Game(1, [], []), [Connected(map[]), Packet(0, SixtyThenTen())])
  {
    var (start, events) := (Game(1, [], []), [Connected(map[]), Packet(0, SixtyThenTen())]);
    OneJoined();
    assert events[..1] == [Connected(map[])];
    hide Ran, Stepped, SixtyThenTen;
    assert !Clashes(Ran(start, events[..1]), events[1]);
  }

  lemma OneJoined()
    ensures var joined := Ran(Game(1, [], []), [Connected(map[])]);
      joined == Game(2, [Fresh(1, map[])], []) && Lent(joined, 0) == Scene(Holding(0, map[], 2), [])
  {
    var start, first := Game(1, [], []), [Connected(map[])];
    assert first[..0] == [] && Ran(start, []) == start;
    assert Ran(start, first) == Stepped(start, Connected(map[]));
    FreshHolds();
    hide Fresh, Holding;
  }

  lemma FreshHolds()
    ensures Fresh(1, map[]).inv == Holding(0, map[], 2) && Fresh(1, map[]).player == 1
    ensures Holding(0, map[], 2).next == 2
  {
    assert Row(0) == seq(MAX_INVENTORY_SLOTS, _ => 0);
  }

  // --- a restore, and then a drop under the id of a restored stack ---

  /** A new player's squares with stacks 2 and 3 in the first two of the rucksack, and `third` in the next. */
  function RestoredRow(third: Id): (row: seq<Id>)
    ensures |row| == MAX_INVENTORY_SLOTS
  {
    seq(MAX_INVENTORY_SLOTS, i => if i == 9 then 2 else if i == 10 then 3 else if i == 11 then third else 0)
  }

  function RestoredTo(third: Id, items: map<Id, Stack>, next: Id): Inv {
    var slots: map<Id, seq<Id>> := map[1 := RestoredRow(third)];
    Inv(slots, items, map[], next)
  }

  function TwoStacks(n: nat): map<Id, Stack> { map[2 := Stack(Some(7), 64), 3 := Stack(Some(7), n)] }

  /** A full stack and `n` more of item 7 were stored. */
  function StoredItems(n: nat): seq<Stored.Item> { [(9, (7, 64)), (10, (7, n))] }

  /** Player 1 joins and gets them back; player 2 joins and drops ten; player 1 picks those up. */
  function RestoreThenDrop(n: nat): seq<Event> {
    [Connected(map[]), Restored(0, StoredItems(n)), Connected(map[]),
     Packet(1, [Loot(7, 10, HERE, true, true)]), Packet(0, [Collect(4)])]
  }

  const TEN: Drop := Drop(4, 3, 7, 10, HERE)

  /** The two sessions once the ten lie on the floor: as stack 3, which player 1 has in a square. */
  function TenFell(n: nat): Game {
    Game(5, [Session(1, RestoredTo(0, TwoStacks(n), 4)), Session(2, TenKnown())], [TEN])
  }

  function TenKnown(): Inv { Fresh(2, map[]).inv.(items := map[3 := Stack(Some(7), 10)], next := 5) }

  lemma RestoredToIs(third: Id, items: map<Id, Stack>, next: Id)
    ensures var inv := RestoredTo(third, items, next);
      (forall o: Id, i: nat :: inv.At(o, i)
         == if o == 1 && i == 9 then 2 else if o == 1 && i == 10 then 3 else if o == 1 && i == 11 then third else 0)
      && inv.Slot(1, 11) == Some(third) && inv.Limit(7) == 64
      && inv.items == items && inv.next == next
  {
  }

  lemma TwoGiven(n: nat)
    ensures GivenAll(Fresh(1, map[]).inv, 1, StoredItems(n), 2) == RestoredTo(0, TwoStacks(n), 4)
  {
    var start := Fresh(1, map[]).inv;
    var one := GivenAll(start, 1, StoredItems(n), 1);
    assert GivenAll(start, 1, StoredItems(n), 0) == start;
    assert one == Given(start, 1, 9, 7, 64).value;
    assert GivenAll(start, 1, StoredItems(n), 2) == Given(one, 1, 10, 7, n).value;
    var row := start.slots[1][9 := 2][10 := 3];
    assert row == RestoredRow(0);
  }

  lemma FreshCarriesNothing()
    ensures SaveRestore.CarriedItems(Bare(Fresh(1, map[]))) == []
  {
    SaveRestore.NothingCarried(Bare(Fresh(1, map[])));
  }

  lemma FirstRestored(n: nat)
    ensures Stepped(Game(2, [Fresh(1, map[])], []), Restored(0, StoredItems(n)))
      == Game(2, [Session(1, RestoredTo(0, TwoStacks(n), 4))], [])
  {
    FreshCarriesNothing();
    TwoGiven(n);
    hide Fresh, RestoredTo, GivenAll, SaveRestore.CarriedItems;
    assert Fresh(1, map[]).player == 1 by {
      FreshHolds();
    }
  }

  lemma TenDropped(n: nat)
    ensures var game := Game(3, [Session(1, RestoredTo(0, TwoStacks(n), 4)), Fresh(2, map[])], []);
      Stepped(game, Packet(1, [Loot(7, 10, HERE, true, true)])) == TenFell(n)
      && MadeIn(game, Packet(1, [Loot(7, 10, HERE, true, true)]), 7) == 10
      && StrandedIn(game, Packet(1, [Loot(7, 10, HERE, true, true)]), 7) == 0
      && DiscardedIn(game, Packet(1, [Loot(7, 10, HERE, true, true)]), 7) == 0
  {
    hide RestoredTo;
    var game := Game(3, [Session(1, RestoredTo(0, TwoStacks(n), 4)), Fresh(2, map[])], []);
    var actions := [Loot(7, 10, HERE, true, true)];
    var lent := Lent(game, 1);
    assert actions[..0] == [] && lent == Scene(Fresh(2, map[]).inv, []);
    assert ActedAll(2, lent, []) == lent;
    assert ActedAll(2, lent, actions) == Looted(lent, actions[0]);
    assert Looted(lent, actions[0]) == Scene(TenKnown(), [TEN]);
    assert MadeBy(2, lent, [], 7) == StrandedBy(2, lent, [], 7) == DiscardedBy(2, lent, [], 7) == 0;
  }

  /** A game, and what of item 7 has come in on the way to it, with nothing stranded or destroyed. */
  ghost predicate Reaches(events: seq<Event>, game: Game, made: nat) {
    var start := Game(1, [], []);
    Ran(start, events) == game && MadeOver(start, events, 7) == made
    && StrandedOver(start, events, 7) == 0 && DiscardedOver(start, events, 7) == 0
  }

  lemma ReachesNext(events: seq<Event>, game: Game, made: nat, e: Event)
    requires Reaches(events, game, made) && StrandedIn(game, e, 7) == 0 && DiscardedIn(game, e, 7) == 0
    ensures Reaches(events + [e], Stepped(game, e), made + MadeIn(game, e, 7))
  {
    hide Stepped, MadeIn, StrandedIn, DiscardedIn;
    var all := events + [e];
    assert all[..|all| - 1] == events;
    RanLast(Game(1, [], []), all, 7);
    hide Ran, MadeOver, StrandedOver, DiscardedOver;
  }

  function GotBack(n: nat): Game { Game(2, [Session(1, RestoredTo(0, TwoStacks(n), 4))], []) }

  function BothIn(n: nat): Game { Game(3, [Session(1, RestoredTo(0, TwoStacks(n), 4)), Fresh(2, map[])], []) }

  lemma UpToJoin()
    ensures Reaches([Connected(map[])], Game(2, [Fresh(1, map[])], []), 0)
  {
    var start := Game(1, [], []);
    assert Reaches([], start, 0);
    hide Reaches, Fresh;
    ReachesNext([], start, 0, Connected(map[]));
    assert [] + [Connected(map[])] == [Connected(map[])];
    assert Stepped(start, Connected(map[])) == Game(2, [Fresh(1, map[])], []);
  }

  lemma UpToRestore(n: nat)
    ensures Reaches([Connected(map[]), Restored(0, StoredItems(n))], GotBack(n), 64 + n)
  {
    UpToJoin();
    FirstRestored(n);
    RegainedTwo(n);
    hide Reaches, Fresh, RestoredTo, RegainedBy, RestoredInv, Stepped, StoredItems;
    ReachesNext([Connected(map[])], Game(2, [Fresh(1, map[])], []), 0, Restored(0, StoredItems(n)));
    assert [Connected(map[])] + [Restored(0, StoredItems(n))] == [Connected(map[]), Restored(0, StoredItems(n))];
  }

  /** The run up to the pick-up, and what came in. */
  lemma UpToTheDrop(n: nat)
    ensures Reaches(RestoreThenDrop(n)[..4], TenFell(n), 74 + n)
  {
    var (join, restore, loot) := (Connected(map[]), Restored(0, StoredItems(n)), Packet(1, [Loot(7, 10, HERE, true, true)]));
    UpToRestore(n);
    TenDropped(n);
    assert [join, restore] + [join] == [join, restore, join];
    assert [join, restore, join] + [loot] == [join, restore, join, loot] == RestoreThenDrop(n)[..4];
    assert Stepped(GotBack(n), join) == BothIn(n);
    hide Reaches, Fresh, RestoredTo, Stepped, StoredItems, TenFell, GotBack, RestoreThenDrop;
    ReachesNext([join, restore], GotBack(n), 64 + n, join);
    hide MadeIn, StrandedIn, DiscardedIn;
    ReachesNext([join, restore, join], BothIn(n), 64 + n, loot);
  }

  lemma RegainedTwo(n: nat)
    ensures RegainedBy(Fresh(1, map[]), StoredItems(n), 7) == 64 + n
  {
    FreshCarriesNothing();
    var start := Fresh(1, map[]).inv;
    assert GivenAll(start, 1, StoredItems(n), 0) == start;
    assert GivenAll(start, 1, StoredItems(n), 1) == Given(start, 1, 9, 7, 64).value;
    assert Regained(start, 1, StoredItems(n), 0, 7) == 0;
    assert Regained(start, 1, StoredItems(n), 1, 7) == 64;
  }

  /** Of the squares before the second of the two none has room, when that one has. */
  lemma {:induction false} TenthHasRoom(n: nat, next: Id, k: nat)
    requires k <= 10 && n < 64
    ensures RoomFrom(RestoredTo(0, TwoStacks(n), next), 1, 7, k) == Some(10)
    decreases 10 - k
  {
    RestoredToIs(0, TwoStacks(n), next);
    if k < 10 {
      TenthHasRoom(n, next, k + 1);
    }
  }

  lemma {:induction false} FullHasNoRoom(next: Id, k: nat)
    ensures RoomFrom(RestoredTo(0, TwoStacks(64), next), 1, 7, k) == None
    decreases MAX_INVENTORY_SLOTS - k
  {
    RestoredToIs(0, TwoStacks(64), next);
    if k < MAX_INVENTORY_SLOTS {
      FullHasNoRoom(next, k + 1);
    }
  }

  lemma {:induction false} EleventhIsFree(n: nat, next: Id, k: nat)
    requires k <= 11
    ensures FreeFrom(RestoredTo(0, TwoStacks(n), next), 1, k) == Some(11)
    decreases 11 - k
  {
    RestoredToIs(0, TwoStacks(n), next);
    if k < 11 {
      EleventhIsFree(n, next, k + 1);
    }
  }

  /** Twenty and the ten under its own id: the stack is merged into itself and forgotten. */
  lemma MergedIntoItself()
    ensures var scene := Scene(RestoredTo(0, TwoStacks(20), 5), [TEN]);
      Gathered(1, scene, 4) == Scene(RestoredTo(0, map[2 := Stack(Some(7), 64)], 5), []) && Hauled(1, scene, 4).lost == 0
  {
    var inv := RestoredTo(0, TwoStacks(20), 5);
    TenthHasRoom(20, 5, 0);
    RestoredToIs(0, TwoStacks(20), 5);
    hide RoomFrom, FreeFrom, RestoredRow;
    assert Ensured(inv, 3, 7, 10) == inv;
    assert Collected(inv, 1, 3).inv.items == map[2 := Stack(Some(7), 64)];
    assert Collected(inv, 1, 3).inv == RestoredTo(0, map[2 := Stack(Some(7), 64)], 5);
  }

  /** A full stack and the ten under its id: the one entity is put in a second square. */
  lemma PutTwice()
    ensures var scene := Scene(RestoredTo(0, TwoStacks(64), 5), [TEN]);
      Gathered(1, scene, 4) == Scene(RestoredTo(3, TwoStacks(64), 5), [])
  {
    var inv := RestoredTo(0, TwoStacks(64), 5);
    FullHasNoRoom(5, 0);
    EleventhIsFree(64, 5, 0);
    RestoredToIs(0, TwoStacks(64), 5);
    hide RoomFrom, FreeFrom;
    assert Ensured(inv, 3, 7, 10) == inv;
    assert RestoredRow(0)[11 := 3] == RestoredRow(3);
    assert inv.Put(1, 11, 3).slots == map[1 := RestoredRow(3)];
  }

  /** The last packet. */
  lemma LastPacket(n: nat, after: Scene)
    requires Gathered(1, Scene(RestoredTo(0, TwoStacks(n), 5), [TEN]), 4) == after && after.inv.next == 5
    ensures var e := Packet(0, [Collect(4)]);
      Stepped(TenFell(n), e) == Game(5, [Session(1, after.inv), Session(2, TenKnown())], after.drops)
      && MadeIn(TenFell(n), e, 7) == 0 && DiscardedIn(TenFell(n), e, 7) == 0
      && StrandedIn(TenFell(n), e, 7) == Hauled(1, Scene(RestoredTo(0, TwoStacks(n), 5), [TEN]), 4).lost
  {
    var game, actions := TenFell(n), [Collect(4)];
    var lent := Lent(game, 0);
    RestoredToIs(0, TwoStacks(n), 4);
    assert lent == Scene(RestoredTo(0, TwoStacks(n), 5), [TEN]);
    assert actions[..0] == [] && ActedAll(1, lent, []) == lent;
    assert MadeBy(1, lent, [], 7) == StrandedBy(1, lent, [], 7) == DiscardedBy(1, lent, [], 7) == 0;
    hide RestoredTo, Gathered, Hauled, TenKnown;
    assert ActedAll(1, lent, actions) == after;
    assert Stepped(game, Packet(0, actions)) == Returned(game, 0, after);
  }

  /** The whole run. */
  lemma PickedUp(n: nat, after: Scene)
    requires Gathered(1, Scene(RestoredTo(0, TwoStacks(n), 5), [TEN]), 4) == after && after.inv.next == 5
    ensures var (start, events) := (Game(1, [], []), RestoreThenDrop(n));
      Ran(start, events) == Game(5, [Session(1, after.inv), Session(2, TenKnown())], after.drops)
      && MadeOver(start, events, 7) == 74 + n && DiscardedOver(start, events, 7) == 0
      && StrandedOver(start, events, 7) == Hauled(1, Scene(RestoredTo(0, TwoStacks(n), 5), [TEN]), 4).lost
  {
    var (start, events) := (Game(1, [], []), RestoreThenDrop(n));
    UpToTheDrop(n);
    LastPacket(n, after);
    assert events[..|events| - 1] == events[..4] && events[4] == Packet(0, [Collect(4)]) && |events| == 5;
    RanLast(start, events, 7);
    hide Ran, Stepped, MadeIn, StrandedIn, DiscardedIn, TenFell, RestoredTo, TenKnown, Gathered, Hauled, RestoreThenDrop;
  }

  lemma RanLast(game: Game, events: seq<Event>, name: nat)
    requires events != []
    ensures var before := events[..|events| - 1];
      var mid, last := Ran(game, before), events[|events| - 1];
      Ran(game, events) == Stepped(mid, last)
      && MadeOver(game, events, name) == MadeOver(game, before, name) + MadeIn(mid, last, name)
      && StrandedOver(game, events, name) == StrandedOver(game, before, name) + StrandedIn(mid, last, name)
      && DiscardedOver(game, events, name) == DiscardedOver(game, before, name) + DiscardedIn(mid, last, name)
  {
    hide Stepped, MadeIn, StrandedIn, DiscardedIn;
  }

  /** What is left of the sixty-four and the twenty: the second square names a stack that is forgotten. */
  function Left(): Game {
    Game(5, [Session(1, RestoredTo(0, map[2 := Stack(Some(7), 64)], 5)), Session(2, TenKnown())], [])
  }

  lemma LeftIsUnsound()
    ensures !Sound(Left())
    ensures Left().sessions[0].inv.StackAt(1, 9) == Some(Stack(Some(7), 64)) && Left().sessions[0].inv.items.Keys == {2}
  {
    var inv := Left().sessions[0].inv;
    RestoredToIs(0, map[2 := Stack(Some(7), 64)], 5);
    assert inv.At(1, 10) == 3 && 3 !in inv.items;
    assert Left().sessions[0] in Left().sessions;
  }

  lemma {:induction false} WorthNothing(inv: Inv, name: Option<nat>, bound: nat)
    requires forall e: Id | e < bound :: Worth(inv, e, name) == 0
    ensures CarriedBelow(inv, name, bound) == 0
  {
    hide Worth;
    if bound > 0 {
      WorthNothing(inv, name, bound - 1);
    }
  }

  lemma LeftCarries()
    ensures Carried(RestoredTo(0, map[2 := Stack(Some(7), 64)], 5), Some(7)) == 64
  {
    var inv := RestoredTo(0, map[2 := Stack(Some(7), 64)], 5);
    RestoredToIs(0, map[2 := Stack(Some(7), 64)], 5);
    PlacedAt(inv, 1, 9);
    hide RestoredTo, Placed;
    assert CarriedBelow(inv, Some(7), 2) == 0 by {
      WorthNothing(inv, Some(7), 2);
    }
    assert CarriedBelow(inv, Some(7), 3) == 64;
    assert CarriedBelow(inv, Some(7), 4) == 64;
  }

  lemma LeftTotal()
    ensures Total(Left(), 7) == 64
  {
    LeftCarries();
    var mine, other := Left().sessions[0], Left().sessions[1];
    var inv := TenKnown();
    assert forall o: Id, i: nat :: inv.At(o, i) == 0;
    WorthNothing(inv, Some(7), inv.next);
    hide Carried, RestoredTo, TenKnown;
    assert Left().sessions[..1] == [mine] && [mine][..0] == [];
    assert CarriedByAll([], 7) == 0;
    assert CarriedByAll([mine], 7) == 64;
    assert Carried(inv, Some(7)) == CarriedBelow(inv, Some(7), inv.next);
  }

  /**
    Sixty-four and twenty restored, ten dropped by somebody else under the id of the twenty, and
    picked up: sixty-four are left, and nothing was destroyed or stranded. Thirty are gone.
   */
  lemma ThirtyAreLost()
    ensures var (start, events) := (Game(1, [], []), RestoreThenDrop(20));
      Sound(start) && MadeOver(start, events, 7) == 94 && StrandedOver(start, events, 7) == 0
      && DiscardedOver(start, events, 7) == 0 && !NoneClashes(start, events)
      && Ran(start, events) == Left() && Total(Left(), 7) == 64
  {
    var (start, events) := (Game(1, [], []), RestoreThenDrop(20));
    var after := Scene(RestoredTo(0, map[2 := Stack(Some(7), 64)], 5), []);
    MergedIntoItself();
    RestoredToIs(0, map[2 := Stack(Some(7), 64)], 5);
    hide RestoredTo, Ran, MadeOver, StrandedOver, DiscardedOver, Gathered, Hauled, RestoreThenDrop, TenKnown;
    PickedUp(20, after);
    LeftIsUnsound();
    LeftTotal();
    hide NoneClashes, Left;
    ClashedSomewhere(start, events);
  }

  lemma ClashedSomewhere(game: Game, events: seq<Event>)
    requires Sound(game) && !Sound(Ran(game, events))
    ensures !NoneClashes(game, events)
  {
    hide Sound, NoneClashes;
    if NoneClashes(game, events) {
      RanSound(game, events, 0);
    }
  }

  /** With two full stacks restored, the one entity ends up in two squares. */
  lemma OneStackTwice()
    ensures var (start, events) := (Game(1, [], []), RestoreThenDrop(64));
      Ran(start, events).sessions == [Session(1, RestoredTo(3, TwoStacks(64), 5)), Session(2, TenKnown())]
    ensures var inv := RestoredTo(3, TwoStacks(64), 5);
      inv.At(1, 10) == inv.At(1, 11) == 3 && inv.StackAt(1, 11) == Some(Stack(Some(7), 64))
  {
    PutTwice();
    RestoredToIs(3, TwoStacks(64), 5);
    hide RestoredTo, Ran, Gathered, RestoreThenDrop, TenKnown, MadeOver, StrandedOver, DiscardedOver, Hauled;
    PickedUp(64, Scene(RestoredTo(3, TwoStacks(64), 5), []));
  }

  /** The run up to the drop, for the twenty. */
  function UntilItFell(): seq<Event> { RestoreThenDrop(20)[..4] }

  lemma UntilItFellIs()
    ensures Reaches(UntilItFell(), TenFell(20), 94) && UntilItFell() != []
    ensures NoneClashes(Game(1, [], []), UntilItFell()[..|UntilItFell()| - 1])
  {
    UpToTheDrop(20);
    NoClashBefore();
    hide NoneClashes, Reaches;
    assert UntilItFell()[..|UntilItFell()| - 1] == RestoreThenDrop(20)[..3];
  }

  /** Before anybody picks the ten up two stacks share an id, and still everything is there. */
  lemma ClashAloneLosesNothing()
    ensures var (start, events) := (Game(1, [], []), UntilItFell());
      !NoneClashes(start, events) && Total(Ran(start, events), 7) == MadeOver(start, events, 7) == 94
  {
    hide Ran, MadeOver, StrandedOver, DiscardedOver, NoneClashes, TenFell, Sound, Total, UntilItFell;
    UntilItFellIs();
    TenFellIsUnsound();
    NothingAtFirst();
    ClashedSomewhere(Game(1, [], []), UntilItFell());
    FirstClashConserves(Game(1, [], []), UntilItFell(), 7);
  }

  lemma NothingAtFirst()
    ensures Sound(Game(1, [], [])) && Total(Game(1, [], []), 7) == 0
  {
  }

  lemma TenFellIsUnsound()
    ensures !Sound(TenFell(20))
  {
    RestoredToIs(0, TwoStacks(20), 4);
    PlacedAt(TenFell(20).sessions[0].inv, 1, 10);
    assert TenFell(20).sessions[0] in TenFell(20).sessions && TEN in TenFell(20).drops;
    assert !Agrees(TenFell(20).sessions[0].inv, TEN);
  }

  lemma NoClashBefore()
    ensures NoneClashes(Game(1, [], []), RestoreThenDrop(20)[..3])
  {
    var (start, events) := (Game(1, [], []), RestoreThenDrop(20)[..3]);
    UpToJoin();
    assert events[..1] == [Connected(map[])];
    assert Ran(start, events[..1]).drops == [];
    hide Ran, RestoredInv, StoredItems;
    assert !Clashes(Ran(start, events[..1]), events[1]);
  }
}
