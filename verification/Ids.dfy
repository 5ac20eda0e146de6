/** Entity ids: which ones the server hands out, and where the hand-over is missing. */
module Ids {
  import opened Wrappers
  import opened Numbers
  import opened Inventory
  import opened SharedWorld
  import SaveRestore
  import Stored

  /** The ids from `a` up to, not including, `b`. */
  function Range(a: Id, b: Id): (r: seq<Id>)
    ensures |r| == if a <= b then b - a else 0
    ensures forall i | 0 <= i < |r| :: r[i] == a + i
  {
    seq(if a <= b then b - a else 0, i requires i >= 0 => a + i)
  }

  /** The entities one action makes, in the order it makes them. */
  function MintedBy(player: Id, inv: Inv, a: Action): seq<Id> {
    match a
    case Mint => [inv.next]
    case Loot(_, _, _, stackKnown, _) => if stackKnown then [inv.next, inv.next + 1] else [inv.next]
    case Collect(_) => []
    case Arrange(op) => if Splits(inv, op) then [inv.next] else []
    case Give(slot, _, _) => if inv.Slot(player, slot) == Some(0) then [inv.next] else []
    case Destroy(_, _, _) => []
  }

  function MintedByAll(player: Id, scene: Scene, actions: seq<Action>): seq<Id> {
    if actions == [] then []
    else
      var before := actions[..|actions| - 1];
      MintedByAll(player, scene, before) + MintedBy(player, ActedAll(player, scene, before).inv, actions[|actions| - 1])
  }

  function MintedIn(game: Game, e: Event): seq<Id> {
    match e
    case Connected(_) => [game.next]
    case Packet(from, actions) =>
      if from >= |game.sessions| then []
      else MintedByAll(game.sessions[from].player, Lent(game, from), actions)
    case Restored(from, items) =>
      if from >= |game.sessions| then []
      else Range(game.sessions[from].inv.next, RestoredInv(game.sessions[from], items).next)
  }

  /** Every id handed out over a run, to whichever session. */
  function MintedOver(game: Game, events: seq<Event>): seq<Id> {
    if events == [] then []
    else
      var before := events[..|events| - 1];
      MintedOver(game, before) + MintedIn(Ran(game, before), events[|events| - 1])
  }

  lemma RangeSplits(a: Id, b: Id, c: Id)
    requires a <= b <= c
    ensures Range(a, b) + Range(b, c) == Range(a, c)
  {
  }

  lemma InRange(a: Id, b: Id, id: Id)
    ensures id in Range(a, b) <==> a <= id < b
  {
    if a <= id < b {
      assert Range(a, b)[id - a] == id;
    }
  }

  lemma ActedMints(player: Id, scene: Scene, a: Action)
    requires Below(scene.drops, scene.inv.next)
    ensures MintedBy(player, scene.inv, a) == Range(scene.inv.next, Acted(player, scene, a).inv.next)
    ensures scene.inv.next <= Acted(player, scene, a).inv.next
  {
    hide Gathered, Done, Destroyed, Given, Below;
    match a {
      case Mint =>
      case Loot(_, _, _, _, _) =>
      case Collect(pickup) => GatheredBelow(player, scene, pickup);
      case Arrange(op) => DoneNext(scene.inv, op);
      case Give(slot, item, count) => GivenNext(scene.inv, player, slot, item, count);
      case Destroy(owner, slot, count) => DestroyedNext(scene.inv, owner, slot, count);
    }
  }

  lemma {:induction false} ActedAllMints(player: Id, scene: Scene, actions: seq<Action>)
    requires Below(scene.drops, scene.inv.next)
    ensures MintedByAll(player, scene, actions) == Range(scene.inv.next, ActedAll(player, scene, actions).inv.next)
    ensures scene.inv.next <= ActedAll(player, scene, actions).inv.next
  {
    hide Acted, MintedBy, Below;
    if actions != [] {
      var before := actions[..|actions| - 1];
      var mid := ActedAll(player, scene, before);
      ActedAllMints(player, scene, before);
      ActedAllBelow(player, scene, before);
      ActedMints(player, mid, actions[|actions| - 1]);
      RangeSplits(scene.inv.next, mid.inv.next, ActedAll(player, scene, actions).inv.next);
    }
  }

  lemma {:induction false} GivenAllNext(inv: Inv, player: Id, items: seq<Stored.Item>, n: nat)
    requires n <= |items|
    ensures inv.next <= GivenAll(inv, player, items, n).next
  {
    if n > 0 {
      GivenAllNext(inv, player, items, n - 1);
    }
  }

  // --- counters ---

  /** The server's counter, and each connection's own. */
  datatype Counters = Counters(server: Id, own: seq<Id>)

  /** Somebody joins; somebody makes `n` entities with the counter borrowed, or restores `n` without. */
  datatype Turn = Joins | Makes(from: nat, n: nat) | Restores(from: nat, n: nat)

  /** The first id a turn hands out. */
  function StartOf(c: Counters, t: Turn): Id {
    match t
    case Joins => c.server
    case Makes(from, _) => if from < |c.own| then Max(c.server, c.own[from]) else c.server
    case Restores(from, _) => if from < |c.own| then c.own[from] else c.server
  }

  function CountOf(c: Counters, t: Turn): nat {
    match t
    case Joins => 1
    case Makes(from, n) => if from < |c.own| then n else 0
    case Restores(from, n) => if from < |c.own| then n else 0
  }

  function HandedOut(c: Counters, t: Turn): seq<Id> { Range(StartOf(c, t), StartOf(c, t) + CountOf(c, t)) }

  function Turned(c: Counters, t: Turn): Counters {
    var end := StartOf(c, t) + CountOf(c, t);
    match t
    case Joins => Counters(end, c.own + [end])
    case Makes(from, _) => if from < |c.own| then Counters(end, c.own[from := end]) else c
    case Restores(from, _) => if from < |c.own| then c.(own := c.own[from := end]) else c
  }

  function TurnedAll(c: Counters, turns: seq<Turn>): Counters {
    if turns == [] then c else Turned(TurnedAll(c, turns[..|turns| - 1]), turns[|turns| - 1])
  }

  function AllHandedOut(c: Counters, turns: seq<Turn>): seq<Id> {
    if turns == [] then []
    else
      var before := turns[..|turns| - 1];
      AllHandedOut(c, before) + HandedOut(TurnedAll(c, before), turns[|turns| - 1])
  }

  /** One past the last id anybody was handed. */
  function TopOf(c: Counters): (top: Id)
    ensures c.server <= top && forall k | 0 <= k < |c.own| :: c.own[k] <= top
    ensures top == c.server || top in c.own
  {
    assert forall k | 0 <= k < |c.own| :: c.own[k] in c.own;
    Max(c.server, MaxOf(c.own))
  }

  /** Whoever hands out ids in this turn has the counter that has gone furthest. */
  predicate AtTop(c: Counters, t: Turn) { CountOf(c, t) == 0 || StartOf(c, t) == TopOf(c) }

  ghost predicate AllAtTop(c: Counters, turns: seq<Turn>) {
    forall k | 0 <= k < |turns| :: AtTop(TurnedAll(c, turns[..k]), turns[k])
  }

  ghost predicate NoneTwice(ids: seq<Id>) {
    forall i, j | 0 <= i < j < |ids| :: ids[i] != ids[j]
  }

  ghost predicate NoneBelow(c: Counters, bound: Id) {
    bound <= c.server && forall k | 0 <= k < |c.own| :: bound <= c.own[k]
  }

  lemma TurnedTop(c: Counters, t: Turn, bound: Id)
    requires NoneBelow(c, bound)
    ensures NoneBelow(Turned(c, t), bound) && bound <= StartOf(c, t) <= TopOf(c)
    ensures AtTop(c, t) ==> TopOf(Turned(c, t)) == TopOf(c) + CountOf(c, t)
  {
    var after := Turned(c, t);
    hide MaxOf, Max;
    if AtTop(c, t) {
      TopIs(c);
      TopIs(after);
      MaxIs(c.server, if t.Makes? && t.from < |c.own| then c.own[t.from] else c.server);
      hide TopOf;
      if t.Joins? {
        assert after.own[|c.own|] == after.server;
      } else if t.from < |c.own| {
        var end := StartOf(c, t) + CountOf(c, t);
        assert after.own[t.from] == end <= TopOf(after);
        assert forall k | 0 <= k < |c.own| && k != t.from :: after.own[k] == c.own[k] <= TopOf(after);
        assert c.own[t.from] <= end;
      }
    } else {
      MaxIs(c.server, if t.Makes? && t.from < |c.own| then c.own[t.from] else c.server);
    }
  }

  lemma MaxIs(a: nat, b: nat)
    ensures Max(a, b) == if a < b then b else a
  {
  }

  /** The top is some counter, and no counter is above it. */
  lemma TopIs(c: Counters)
    ensures c.server <= TopOf(c) && forall k | 0 <= k < |c.own| :: c.own[k] <= TopOf(c)
    ensures TopOf(c) == c.server || exists k :: 0 <= k < |c.own| && c.own[k] == TopOf(c)
  {
  }

  lemma AtTopNext(c: Counters, turns: seq<Turn>)
    requires turns != []
    ensures AllAtTop(c, turns) <==>
      AllAtTop(c, turns[..|turns| - 1]) && AtTop(TurnedAll(c, turns[..|turns| - 1]), turns[|turns| - 1])
  {
    hide AtTop, TurnedAll;
    var n := |turns| - 1;
    forall k | 0 <= k < n ensures turns[..n][..k] == turns[..k] {
    }
  }

  lemma NoneTwiceJoined(before: seq<Id>, after: seq<Id>)
    ensures NoneTwice(before + after) ==> NoneTwice(before)
    ensures forall id | id in before && id in after :: !NoneTwice(before + after)
  {
    var all := before + after;
    forall i, j | 0 <= i < j < |before| && before[i] == before[j] ensures all[i] == all[j] {
    }
    forall id | id in before && id in after ensures !NoneTwice(all) {
      var i :| 0 <= i < |before| && before[i] == id;
      var j :| 0 <= j < |after| && after[j] == id;
      assert all[i] == all[|before| + j];
    }
  }

  /** The law of the counters: none is handed out twice exactly when every turn starts at the top. */
  lemma {:induction false} CountersApart(next: Id, turns: seq<Turn>)
    ensures NoneTwice(AllHandedOut(Counters(next, []), turns)) <==> AllAtTop(Counters(next, []), turns)
    ensures var end := TurnedAll(Counters(next, []), turns);
      NoneBelow(end, next)
      && (AllAtTop(Counters(next, []), turns) ==> AllHandedOut(Counters(next, []), turns) == Range(next, TopOf(end)))
  {
    hide AllAtTop, Turned, StartOf, CountOf, NoneTwice, NoneBelow, TopOf;
    var start := Counters(next, []);
    if turns == [] {
      NothingHandedOut(next);
    } else {
      var before, t := turns[..|turns| - 1], turns[|turns| - 1];
      var c := TurnedAll(start, before);
      var (ids, more) := (AllHandedOut(start, before), HandedOut(c, t));
      CountersApart(next, before);
      AtTopNext(start, turns);
      TurnedTop(c, t, next);
      NoneTwiceJoined(ids, more);
      if AllAtTop(start, before) {
        if AtTop(c, t) {
          hide AtTop;
          InRow(next, TopOf(c), StartOf(c, t), CountOf(c, t));
          AtTopStarts(c, t);
        } else {
          InRange(next, TopOf(c), StartOf(c, t));
          InRange(StartOf(c, t), StartOf(c, t) + CountOf(c, t), StartOf(c, t));
        }
      }
    }
  }

  lemma NothingHandedOut(next: Id)
    ensures AllAtTop(Counters(next, []), []) && NoneTwice([]) && NoneBelow(Counters(next, []), next)
    ensures Range(next, TopOf(Counters(next, []))) == []
  {
  }

  lemma AtTopStarts(c: Counters, t: Turn)
    requires AtTop(c, t)
    ensures CountOf(c, t) == 0 || StartOf(c, t) == TopOf(c)
  {
  }

  /** Ids handed out from the end of a row make a longer row. */
  lemma InRow(a: Id, b: Id, start: Id, n: nat)
    requires a <= b && (n == 0 || start == b)
    ensures Range(a, b) + Range(start, start + n) == Range(a, b + n) && NoneTwice(Range(a, b + n))
  {
  }

  // --- turns of the game ---

  function CountersOf(game: Game): (c: Counters)
    ensures |c.own| == |game.sessions|
  {
    Counters(game.next, seq(|game.sessions|, i requires 0 <= i < |game.sessions| => game.sessions[i].inv.next))
  }

  function TurnOf(game: Game, e: Event): Turn {
    match e
    case Connected(_) => Joins
    case Packet(from, _) => Makes(from, |MintedIn(game, e)|)
    case Restored(from, _) => Restores(from, |MintedIn(game, e)|)
  }

  /** What an event hands out, and what it leaves of the counters, is its turn, whatever the squares hold. */
  lemma EventIsTurn(game: Game, e: Event)
    requires Below(game.drops, game.next)
    ensures MintedIn(game, e) == HandedOut(CountersOf(game), TurnOf(game, e))
    ensures CountersOf(Stepped(game, e)) == Turned(CountersOf(game), TurnOf(game, e))
  {
    hide Below, RestoredInv, ActedAll, MintedByAll;
    match e {
      case Connected(_) =>
      case Packet(from, actions) =>
        if from < |game.sessions| {
          LentBelow(game, from);
          ActedAllMints(game.sessions[from].player, Lent(game, from), actions);
        }
      case Restored(from, items) =>
        if from < |game.sessions| {
          RestoredNext(game.sessions[from], items);
        }
    }
  }

  lemma LentBelow(game: Game, from: nat)
    requires Below(game.drops, game.next) && from < |game.sessions|
    ensures Below(Lent(game, from).drops, Lent(game, from).inv.next)
    ensures Lent(game, from).inv.next == Max(game.next, game.sessions[from].inv.next)
  {
  }

  lemma RestoredNext(s: Session, items: seq<Stored.Item>)
    ensures s.inv.next <= RestoredInv(s, items).next
  {
    hide GivenAll;
    GivenAllNext(s.inv, s.player, items, |items|);
  }

  function TurnsOf(game: Game, events: seq<Event>): (turns: seq<Turn>)
    ensures |turns| == |events|
  {
    if events == [] then []
    else
      var before := events[..|events| - 1];
      TurnsOf(game, before) + [TurnOf(Ran(game, before), events[|events| - 1])]
  }

  lemma {:induction false} RanBelow(game: Game, events: seq<Event>)
    requires Below(game.drops, game.next)
    ensures Below(Ran(game, events).drops, Ran(game, events).next) && game.next <= Ran(game, events).next
  {
    hide Stepped, Below;
    if events != [] {
      RanBelow(game, events[..|events| - 1]);
      SteppedBelow(Ran(game, events[..|events| - 1]), events[|events| - 1]);
    }
  }

  lemma {:induction false} RunIsTurns(game: Game, events: seq<Event>)
    requires Below(game.drops, game.next)
    ensures MintedOver(game, events) == AllHandedOut(CountersOf(game), TurnsOf(game, events))
    ensures CountersOf(Ran(game, events)) == TurnedAll(CountersOf(game), TurnsOf(game, events))
  {
    hide Below, Stepped, MintedIn, HandedOut, Turned, CountersOf, TurnOf;
    if events != [] {
      var before, turns := events[..|events| - 1], TurnsOf(game, events);
      RunIsTurns(game, before);
      RanBelow(game, before);
      EventIsTurn(Ran(game, before), events[|events| - 1]);
      assert turns[..|turns| - 1] == TurnsOf(game, before);
    }
  }

  /** An event that hands ids out does so from the counter that has gone furthest. */
  predicate EventAtTop(game: Game, e: Event) { AtTop(CountersOf(game), TurnOf(game, e)) }

  ghost predicate AllEventsAtTop(game: Game, events: seq<Event>) {
    forall k | 0 <= k < |events| :: EventAtTop(Ran(game, events[..k]), events[k])
  }

  lemma EventsAtTopNext(game: Game, events: seq<Event>)
    requires events != []
    ensures AllEventsAtTop(game, events) <==>
      AllEventsAtTop(game, events[..|events| - 1]) && EventAtTop(Ran(game, events[..|events| - 1]), events[|events| - 1])
  {
    hide EventAtTop, Ran;
    var n := |events| - 1;
    forall k | 0 <= k < n ensures events[..n][..k] == events[..k] {
    }
  }

  lemma {:induction false} EventsAreTurns(game: Game, events: seq<Event>)
    requires Below(game.drops, game.next)
    ensures AllEventsAtTop(game, events) <==> AllAtTop(CountersOf(game), TurnsOf(game, events))
  {
    hide Below, Ran, AtTop, CountersOf, TurnOf, AllAtTop, AllEventsAtTop, TurnedAll;
    if events == [] {
      NoEvents(game);
    } else {
      var before, turns := events[..|events| - 1], TurnsOf(game, events);
      EventsAreTurns(game, before);
      EventsAtTopNext(game, events);
      AtTopNext(CountersOf(game), turns);
      RunIsTurns(game, before);
      assert turns[..|turns| - 1] == TurnsOf(game, before);
    }
  }

  lemma NoEvents(game: Game)
    ensures AllEventsAtTop(game, []) && AllAtTop(CountersOf(game), [])
  {
  }

  /**
    Over any run of joins, packets and restores, no id is handed out twice if and only if whoever
    hands ids out always has the counter that has gone furthest; then they are consecutive.
   */
  lemma DistinctWhen(next: Id, events: seq<Event>)
    ensures var start := Game(next, [], []);
      (NoneTwice(MintedOver(start, events)) <==> AllEventsAtTop(start, events))
      && (AllEventsAtTop(start, events) ==>
            MintedOver(start, events) == Range(next, TopOf(CountersOf(Ran(start, events)))))
  {
    var start := Game(next, [], []);
    assert CountersOf(start) == Counters(next, []);
    RunIsTurns(start, events);
    EventsAreTurns(start, events);
    CountersApart(next, TurnsOf(start, events));
    hide MintedOver, Ran, NoneTwice, AllEventsAtTop, AllAtTop, NoneBelow, CountersOf, TurnsOf;
  }

  /** A second player who joins after the first has got a rucksack back is given the id of its first stack. */
  lemma SecondJoinCollides(next: Id, limits: map<nat, nat>, items: seq<Stored.Item>)
    requires items != [] && items[0].0 < MAX_INVENTORY_SLOTS
    ensures !NoneTwice(MintedOver(Game(next, [], []), [Connected(limits), Restored(0, items), Connected(limits)]))
  {
    var start := Game(next, [], []);
    var events := [Connected(limits), Restored(0, items), Connected(limits)];
    var joined := Game(next + 1, [Fresh(next, limits)], []);
    assert events[..1][..0] == [] && events[..2][..1] == events[..1];
    assert Ran(start, []) == start;
    assert Ran(start, events[..1]) == joined;
    var back := Ran(start, events[..2]);
    FreshRestores(next, limits, items);
    hide Fresh, RestoredInv, AtTop;
    assert back == Stepped(joined, Restored(0, items));
    assert back.sessions[0].inv.next > next + 1 && back.next == next + 1;
    BehindNotAtTop(back, limits);
    assert !EventAtTop(Ran(start, events[..2]), events[2]);
    DistinctWhen(next, events);
  }

  lemma BehindNotAtTop(game: Game, limits: map<nat, nat>)
    requires |game.sessions| > 0 && game.sessions[0].inv.next > game.next
    ensures !EventAtTop(game, Connected(limits))
  {
    TopIs(CountersOf(game));
    hide TopOf;
    assert CountersOf(game).own[0] > game.next;
  }

  lemma FreshRestores(player: Id, limits: map<nat, nat>, items: seq<Stored.Item>)
    requires items != [] && items[0].0 < MAX_INVENTORY_SLOTS
    ensures RestoredInv(Fresh(player, limits), items).next > player + 1
  {
    var s := Fresh(player, limits);
    SaveRestore.NothingCarried(Bare(s));
    var one := GivenAll(s.inv, player, items, 1);
    assert GivenAll(s.inv, player, items, 0) == s.inv;
    assert s.inv.Slot(player, items[0].0) == Some(0);
    assert one.next == player + 2;
    hide SaveRestore.CarriedItems, Fresh;
    GivenMore(s.inv, player, items, 1, |items|);
  }

  lemma {:induction false} GivenMore(inv: Inv, player: Id, items: seq<Stored.Item>, m: nat, n: nat)
    requires m <= n <= |items|
    ensures GivenAll(inv, player, items, m).next <= GivenAll(inv, player, items, n).next
  {
    if m < n {
      GivenMore(inv, player, items, m, n - 1);
    }
  }

  // --- runs without a restore ---

  /** No connection's counter is ahead of the server's. */
  ghost predicate Behind(game: Game) {
    Below(game.drops, game.next) && forall k | 0 <= k < |game.sessions| :: game.sessions[k].inv.next <= game.next
  }

  predicate Bracketed(events: seq<Event>) {
    forall k | 0 <= k < |events| :: !events[k].Restored?
  }

  lemma SteppedBehind(game: Game, e: Event)
    requires Behind(game) && !e.Restored?
    ensures Behind(Stepped(game, e)) && game.next <= Stepped(game, e).next
    ensures MintedIn(game, e) == Range(game.next, Stepped(game, e).next)
  {
    EventIsTurn(game, e);
    SteppedBelow(game, e);
    var (was, now) := (CountersOf(game), CountersOf(Stepped(game, e)));
    MaxIs(game.next, if e.Packet? && e.from < |was.own| then was.own[e.from] else 0);
    hide MintedIn, Stepped, Below, Max;
    assert forall k | 0 <= k < |was.own| :: was.own[k] <= game.next;
    assert forall k | 0 <= k < |now.own| :: now.own[k] == Stepped(game, e).sessions[k].inv.next;
  }

  /**
    Whoever asks and in whatever order, without a restore the ids handed out over a run are the
    consecutive ones from the counter it started with.
   */
  lemma {:induction false} IdsConsecutive(game: Game, events: seq<Event>)
    requires Behind(game) && Bracketed(events)
    ensures MintedOver(game, events) == Range(game.next, Ran(game, events).next)
    ensures game.next <= Ran(game, events).next && Behind(Ran(game, events))
  {
    hide Behind, Stepped, MintedIn;
    if events != [] {
      var before := events[..|events| - 1];
      IdsConsecutive(game, before);
      SteppedBehind(Ran(game, before), events[|events| - 1]);
      RangeSplits(game.next, Ran(game, before).next, Ran(game, events).next);
    }
  }

  /** So no id is handed out twice, and none that was in the world before. */
  lemma IdsNeverReused(game: Game, events: seq<Event>, i: nat, j: nat)
    requires Behind(game) && Bracketed(events) && i < j < |MintedOver(game, events)|
    ensures game.next <= MintedOver(game, events)[i] < MintedOver(game, events)[j]
  {
    IdsConsecutive(game, events);
  }

  // --- restoring a rucksack, which does not borrow the counter ---

  lemma RangesApart(a: Id, b: Id, c: Id, d: Id)
    requires a <= c <= b && c <= d
    ensures (forall id | id in Range(c, d) :: id !in Range(a, b)) <==> c == d || c == b
  {
    var (restored, minted) := (Range(c, d), Range(a, b));
    InRange(c, d, c);
    InRange(a, b, c);
    forall id | id in restored && id in minted ensures c < b && c < d {
      InRange(c, d, id);
      InRange(a, b, id);
    }
    hide Range;
  }

  /**
    The ids the first restore hands out are new exactly when it restores nothing, or no other
    connection has been handed an id since this one last was.
   */
  lemma RestoreCollides(next: Id, events: seq<Event>, from: nat, items: seq<Stored.Item>)
    requires Bracketed(events) && from < |Ran(Game(next, [], []), events).sessions|
    ensures var (start, game) := (Game(next, [], []), Ran(Game(next, [], []), events));
      (forall id | id in MintedIn(game, Restored(from, items)) :: id !in MintedOver(start, events))
      <==> MintedIn(game, Restored(from, items)) == [] || game.sessions[from].inv.next == game.next
  {
    var start := Game(next, [], []);
    var game := Ran(start, events);
    var s := game.sessions[from];
    IdsConsecutive(start, events);
    AllHandedAbove(next, events);
    RestoredNext(s, items);
    assert CountersOf(game).own[from] == s.inv.next;
    hide Ran, MintedOver, RestoredInv, CountersOf;
    RangesApart(next, game.next, s.inv.next, RestoredInv(s, items).next);
  }

  /** No counter, and no id handed out, is ever below where the run started. */
  lemma AllHandedAbove(next: Id, events: seq<Event>)
    ensures NoneBelow(CountersOf(Ran(Game(next, [], []), events)), next)
    ensures forall id | id in MintedOver(Game(next, [], []), events) :: next <= id
  {
    var start := Game(next, [], []);
    assert CountersOf(start) == Counters(next, []);
    RunIsTurns(start, events);
    CountersApart(next, TurnsOf(start, events));
    AboveStart(next, TurnsOf(start, events));
    hide Ran, MintedOver, AllHandedOut, NoneBelow;
  }

  lemma {:induction false} AboveStart(next: Id, turns: seq<Turn>)
    ensures forall id | id in AllHandedOut(Counters(next, []), turns) :: next <= id
  {
    hide Turned, StartOf, CountOf, NoneBelow, TopOf;
    if turns != [] {
      var before, t := turns[..|turns| - 1], turns[|turns| - 1];
      var c := TurnedAll(Counters(next, []), before);
      AboveStart(next, before);
      CountersApart(next, before);
      TurnedTop(c, t, next);
      forall id | id in HandedOut(c, t) ensures next <= id {
        InRange(StartOf(c, t), StartOf(c, t) + CountOf(c, t), id);
      }
    }
  }

  /** Even then, what the next other connection makes takes the id of the first restored stack. */
  lemma NextOneCollides(game: Game, from: nat, other: nat, items: seq<Stored.Item>)
    requires Behind(game) && from < |game.sessions| && other < |game.sessions| && from != other
    requires game.sessions[from].inv.next == game.next && MintedIn(game, Restored(from, items)) != []
    ensures MintedIn(Stepped(game, Restored(from, items)), Packet(other, [Mint])) == [MintedIn(game, Restored(from, items))[0]]
  {
    var after := Stepped(game, Restored(from, items));
    var actions := [Mint];
    var scene := Lent(after, other);
    hide RestoredInv;
    assert after.sessions[other] == game.sessions[other] && scene.inv.next == game.next;
    assert actions[..0] == [];
    assert MintedByAll(after.sessions[other].player, scene, actions[..0]) == [];
    assert ActedAll(after.sessions[other].player, scene, actions[..0]) == scene;
  }

  // --- ids that are apart keep the items apart ---

  /** An event that mints from the top gives no stack an id somebody uses. */
  lemma AtTopNeverClashes(game: Game, e: Event)
    requires Sound(game) && EventAtTop(game, e)
    ensures !Clashes(game, e)
  {
    SoundIsBelow(game);
    EventIsTurn(game, e);
    TopIs(CountersOf(game));
    match e {
      case Connected(_) =>
      case Packet(from, actions) =>
        if from < |game.sessions| {
          PacketNeverClashes(game, from, actions);
        }
      case Restored(from, items) =>
        hide Agrees, Valid, TopOf, RestoredInv;
        if from < |game.sessions| {
          RestoredNext(game.sessions[from], items);
        }
    }
  }

  lemma SoundIsBelow(game: Game)
    requires Sound(game)
    ensures Below(game.drops, game.next)
  {
    hide Valid, Agrees;
  }

  lemma PacketNeverClashes(game: Game, from: nat, actions: seq<Action>)
    requires Sound(game) && EventAtTop(game, Packet(from, actions)) && from < |game.sessions|
    ensures OthersAgree(game, from, Stepped(game, Packet(from, actions)).drops)
  {
    var e := Packet(from, actions);
    var (lent, player) := (Lent(game, from), game.sessions[from].player);
    var scene := ActedAll(player, lent, actions);
    SoundIsBelow(game);
    LentBelow(game, from);
    ActedAllBelow(player, lent, actions);
    ActedAllMints(player, lent, actions);
    TopIs(CountersOf(game));
    assert MintedIn(game, e) == Range(lent.inv.next, scene.inv.next);
    assert StartOf(CountersOf(game), TurnOf(game, e)) == lent.inv.next;
    hide ActedAll, MintedByAll, Valid, Agrees, TopOf, Lent;
    forall i, d | 0 <= i < |game.sessions| && i != from && d in scene.drops && d !in game.drops
      ensures Agrees(game.sessions[i].inv, d)
    {
      var inv := game.sessions[i].inv;
      assert game.sessions[i] in game.sessions;
      assert lent.inv.next <= d.stack < scene.inv.next;
      assert CountersOf(game).own[i] == inv.next;
      NewIsAgreed(inv, d);
    }
  }

  lemma NewIsAgreed(inv: Inv, d: Drop)
    requires Valid(inv) && inv.next <= d.stack && d.stack > 0
    ensures Agrees(inv, d)
  {
    NeverHeard(inv, d.stack);
  }

  lemma {:induction false} AtTopNoneClashes(game: Game, events: seq<Event>)
    requires Sound(game) && AllEventsAtTop(game, events)
    ensures NoneClashes(game, events)
  {
    hide Sound, Clashes, EventAtTop, Stepped, Ran;
    if events != [] {
      var before := events[..|events| - 1];
      EventsAtTopNext(game, events);
      NoneClashesNext(game, events);
      hide AllEventsAtTop, NoneClashes;
      AtTopNoneClashes(game, before);
      RanSound(game, before, 0);
      AtTopNeverClashes(Ran(game, before), events[|events| - 1]);
    }
  }

  /**
    In any run of joins, packets and restores that hands out no id twice, every item is accounted
    for, and the sessions and the floor agree about every stack.
   */
  lemma ApartConserves(next: Id, events: seq<Event>, name: nat)
    requires next > 0 && NoneTwice(MintedOver(Game(next, [], []), events))
    ensures var start := Game(next, [], []);
      Sound(Ran(start, events)) && NoneClashes(start, events)
      && Total(Ran(start, events), name) + StrandedOver(start, events, name) + DiscardedOver(start, events, name)
         == SharedWorld.MadeOver(start, events, name)
  {
    var start := Game(next, [], []);
    assert Sound(start) && Total(start, name) == 0;
    DistinctWhen(next, events);
    AtTopNoneClashes(start, events);
    RanSound(start, events, name);
    hide Sound, Total, NoneClashes, StrandedOver, DiscardedOver;
  }

  /** What a restore hands out is the next ids of its session's own counter, as many as were given back. */
  lemma RestoreIsTurn(c: SaveRestore.Carrier, p: SaveRestore.Pending, items: seq<Stored.Item>, e: Id)
    requires Valid(c.inv)
    ensures var after := SaveRestore.ReturnedAll(c, p, items, |items|).0;
      e in Range(c.inv.next, after.inv.next) <==> e in after.inv.items && e !in c.inv.items
  {
    SaveRestore.ReturnedMints(c, p, items, |items|);
    var after := SaveRestore.ReturnedAll(c, p, items, |items|).0;
    InRange(c.inv.next, after.inv.next, e);
    hide SaveRestore.ReturnedAll, Range;
  }

  // --- what the world itself uses ---

  /** Entities of the island by id: built in, placed, spawned, on the floor, and its title. */
  datatype WorldIds = WorldIds(props: seq<Id>, devices: seq<Id>, creatures: seq<Id>, drops: seq<Drop>, title: Option<Id>)

  function MaxOf(ids: seq<Id>): (m: Id)
    ensures forall id | id in ids :: id <= m
    ensures m == 0 || m in ids
  {
    if ids == [] then 0
    else
      assert ids == [ids[0]] + ids[1..];
      Max(ids[0], MaxOf(ids[1..]))
  }

  function DropIds(drops: seq<Drop>): seq<Id> {
    if drops == [] then [] else [drops[0].pickup, drops[0].stack] + DropIds(drops[1..])
  }

  function TitleIds(title: Option<Id>): seq<Id> {
    match title
    case None => []
    case Some(id) => [id]
  }

  function NextEntityId(w: WorldIds): Id {
    Max(Max(Max(Max(MaxOf(w.props), MaxOf(w.devices)), MaxOf(w.creatures)), MaxOf(DropIds(w.drops))), MaxOf(TitleIds(w.title))) + 1
  }

  predicate Used(w: WorldIds, id: Id) {
    id in w.props || id in w.devices || id in w.creatures || id in DropIds(w.drops) || id in TitleIds(w.title)
  }

  /** In use: props, devices and creatures, both ids of every drop, and the island's title. */
  lemma {:induction false} UsedIs(w: WorldIds, id: Id)
    ensures Used(w, id) <==>
      (id in w.props || id in w.devices || id in w.creatures || w.title == Some(id)
       || exists i :: 0 <= i < |w.drops| && (id == w.drops[i].pickup || id == w.drops[i].stack))
  {
    DropIdsAre(w.drops, id);
  }

  lemma {:induction false} DropIdsAre(drops: seq<Drop>, id: Id)
    ensures id in DropIds(drops) <==> exists i :: 0 <= i < |drops| && (id == drops[i].pickup || id == drops[i].stack)
  {
    if drops != [] {
      DropIdsAre(drops[1..], id);
      assert forall i | 0 <= i < |drops[1..]| :: drops[1..][i] == drops[i + 1];
      if i :| 1 <= i < |drops| && (id == drops[i].pickup || id == drops[i].stack) {
        assert drops[1..][i - 1] == drops[i];
      }
    }
  }

  /** The first id of the tail nobody uses: above every one in use, and only just. */
  lemma NextIsFree(w: WorldIds)
    ensures forall id: Id | Used(w, id) :: id < NextEntityId(w)
    ensures NextEntityId(w) == 1 || Used(w, NextEntityId(w) - 1)
  {
    hide MaxOf, DropIds, TitleIds;
  }

  /** Put stored devices back; a name nothing defines any more is passed over. */
  method RestoreDevices(w: WorldIds, stored: seq<nat>, definitions: set<nat>) returns (after: WorldIds)
    ensures after == w.(devices := after.devices)
    ensures after.devices == w.devices + Range(NextEntityId(w), NextEntityId(w) + Known(stored, definitions))
  {
    var next := NextEntityId(w);
    var devices := w.devices;
    hide NextEntityId, Range;
    for i := 0 to |stored|
      invariant next == NextEntityId(w) + Known(stored[..i], definitions)
      invariant devices == w.devices + Range(NextEntityId(w), next)
    {
      assert stored[..i + 1][..i] == stored[..i];
      if stored[i] in definitions {
        RangeSplits(NextEntityId(w), next, next + 1);
        devices := devices + [next];
        next := next + 1;
      }
    }
    assert stored[..|stored|] == stored;
    after := w.(devices := devices);
  }

  /** One id for each stored device whose name is defined, and none for the others. */
  lemma {:induction false} KnownIs(stored: seq<nat>, definitions: set<nat>)
    ensures Known(stored, definitions) == |set i | 0 <= i < |stored| && stored[i] in definitions|
  {
    var all := set i | 0 <= i < |stored| && stored[i] in definitions;
    if stored == [] {
      assert all == {};
    } else {
      var n := |stored| - 1;
      KnownIs(stored[..n], definitions);
      var before := set i | 0 <= i < |stored[..n]| && stored[..n][i] in definitions;
      assert all == if stored[n] in definitions then before + {n} else before;
    }
  }

  function Known(stored: seq<nat>, definitions: set<nat>): nat {
    if stored == [] then 0
    else Known(stored[..|stored| - 1], definitions) + if stored[|stored| - 1] in definitions then 1 else 0
  }

  /** Restored devices get ids no entity of the world had, and the next free id is past them. */
  lemma DevicesAreFresh(w: WorldIds, n: nat, id: Id)
    requires id in Range(NextEntityId(w), NextEntityId(w) + n)
    ensures !Used(w, id)
    ensures id < NextEntityId(w.(devices := w.devices + Range(NextEntityId(w), NextEntityId(w) + n)))
  {
    NextIsFree(w);
    var after := w.(devices := w.devices + Range(NextEntityId(w), NextEntityId(w) + n));
    NextIsFree(after);
    assert id in after.devices;
  }

  /** The server as it is bound to a world: nobody connected, nothing on the floor yet. */
  function Bound(w: WorldIds): Game { Game(NextEntityId(w), [], []) }

  /** No id handed out over any run, restores and all, is one the world had when the server was bound to it. */
  lemma MintedAboveWorld(w: WorldIds, events: seq<Event>, i: nat)
    requires i < |MintedOver(Bound(w), events)|
    ensures !Used(w, MintedOver(Bound(w), events)[i])
  {
    NextIsFree(w);
    AllHandedAbove(NextEntityId(w), events);
    hide MintedOver, Ran, Used, NextEntityId;
    assert MintedOver(Bound(w), events)[i] in MintedOver(Bound(w), events);
  }
}
