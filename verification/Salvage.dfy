/** What a repair costs and what a dismantle returns, and which components those are. */
module Salvage {
  import opened Wrappers

  // --- which components ---

  /** An ingredient by its place in the recipe, and how many of it. */
  type Lot = (nat, nat)

  /** What is still to be drawn, what has been, and the generator's state. */
  datatype Draws = Draws(available: seq<Lot>, drawn: seq<Lot>, seed: nat)

  function Turned(seed: nat): nat { (seed * 0x343fd + 0x269ec3) % 0x1_0000_0000 }

  /** Bits 16 to 30. */
  function Bits(seed: nat): nat { seed / 0x1_0000 % 0x8000 }

  function PlaceOf(lots: seq<Lot>, index: nat): (at: Option<nat>)
    ensures at.Some? ==> at.value < |lots| && lots[at.value].0 == index
    ensures at.None? ==> forall lot | lot in lots :: lot.0 != index
  {
    if lots == [] then None
    else
      var before := PlaceOf(lots[..|lots| - 1], index);
      if before.Some? then before
      else if lots[|lots| - 1].0 == index then Some(|lots| - 1)
      else
        assert lots == lots[..|lots| - 1] + [lots[|lots| - 1]];
        None
  }

  function Stocked(ingredients: seq<nat>, n: nat): seq<Lot>
    requires n <= |ingredients|
  {
    if n == 0 then []
    else Stocked(ingredients, n - 1) + if ingredients[n - 1] > 0 then [(n - 1, ingredients[n - 1])] else []
  }

  /** One more of `index`, joining what was drawn of it before. */
  function Tallied(drawn: seq<Lot>, index: nat): seq<Lot> {
    var at := PlaceOf(drawn, index);
    if at.None? then drawn + [(index, 1)] else drawn[at.value := (index, drawn[at.value].1 + 1)]
  }

  /** One fewer of the lot at `at`, which goes when it runs out. */
  function Depleted(available: seq<Lot>, at: nat): seq<Lot>
    requires at < |available|
  {
    var (index, quantity) := available[at];
    if quantity <= 1 then available[..at] + available[at + 1..] else available[at := (index, quantity - 1)]
  }

  /** The forced first draw, when it is asked for and there. */
  function Forced(available: seq<Lot>, turn: nat, first: Option<nat>): (at: Option<nat>)
    ensures at.Some? ==> at.value < |available|
  {
    if turn == 0 && first.Some? then PlaceOf(available, first.value) else None
  }

  function Drawn(d: Draws, turn: nat, first: Option<nat>): Draws {
    if d.available == [] then d
    else
      var forced := Forced(d.available, turn, first);
      var seed := if forced.Some? then d.seed else Turned(d.seed);
      var at := if forced.Some? then forced.value else Bits(seed) % |d.available|;
      Draws(Depleted(d.available, at), Tallied(d.drawn, d.available[at].0), seed)
  }

  function DrawnBy(seed: nat, ingredients: seq<nat>, turns: nat, first: Option<nat>): Draws {
    if turns == 0 then Draws(Stocked(ingredients, |ingredients|), [], seed)
    else Drawn(DrawnBy(seed, ingredients, turns - 1, first), turns - 1, first)
  }

  function Draw(seed: nat, ingredients: seq<nat>, count: nat, first: Option<nat>): seq<Lot> {
    DrawnBy(seed, ingredients, count, first).drawn
  }

  method DrawComponents(seed: nat, ingredients: seq<nat>, count: nat, first: Option<nat>) returns (drawn: seq<Lot>)
    ensures drawn == Draw(seed, ingredients, count, first)
  {
    var available: seq<Lot> := [];
    for i := 0 to |ingredients|
      invariant available == Stocked(ingredients, i)
    {
      if ingredients[i] > 0 {
        available := available + [(i, ingredients[i])];
      }
    }
    drawn := [];
    var state := seed;
    for turn := 0 to count
      invariant Draws(available, drawn, state) == DrawnBy(seed, ingredients, turn, first)
    {
      if available == [] {
        NothingLeft(seed, ingredients, turn, count, first);
        return;
      }
      var forced := Forced(available, turn, first);
      var at: nat;
      if forced.Some? {
        at := forced.value;
      } else {
        state := Turned(state);
        at := Bits(state) % |available|;
      }
      drawn := Tallied(drawn, available[at].0);
      available := Depleted(available, at);
    }
  }

  lemma {:induction false} NothingLeft(seed: nat, ingredients: seq<nat>, turn: nat, count: nat, first: Option<nat>)
    requires turn <= count && DrawnBy(seed, ingredients, turn, first).available == []
    ensures DrawnBy(seed, ingredients, count, first) == DrawnBy(seed, ingredients, turn, first)
  {
    hide Drawn;
    if turn < count {
      NothingLeft(seed, ingredients, turn, count - 1, first);
      NothingDrawn(DrawnBy(seed, ingredients, count - 1, first), count - 1, first);
    }
  }

  lemma NothingDrawn(d: Draws, turn: nat, first: Option<nat>)
    requires d.available == []
    ensures Drawn(d, turn, first) == d
  {
  }

  // --- what a draw keeps ---

  function Held(lots: seq<Lot>, index: nat): nat {
    if lots == [] then 0
    else Held(lots[..|lots| - 1], index) + if lots[|lots| - 1].0 == index then lots[|lots| - 1].1 else 0
  }

  function Sum(lots: seq<Lot>): nat { if lots == [] then 0 else Sum(lots[..|lots| - 1]) + lots[|lots| - 1].1 }

  function Total(ingredients: seq<nat>, n: nat): nat
    requires n <= |ingredients|
  {
    if n == 0 then 0 else Total(ingredients, n - 1) + ingredients[n - 1]
  }

  ghost predicate Apart(lots: seq<Lot>) {
    (forall i, j | 0 <= i < j < |lots| :: lots[i].0 != lots[j].0) && forall i | 0 <= i < |lots| :: lots[i].1 > 0
  }

  /** Changing one lot changes the sum and that ingredient's share, and no other's. */
  lemma {:induction false} ChangedLot(lots: seq<Lot>, at: nat, quantity: nat, other: nat)
    requires at < |lots|
    ensures Sum(lots[at := (lots[at].0, quantity)]) == Sum(lots) - lots[at].1 + quantity
    ensures Held(lots[at := (lots[at].0, quantity)], other)
         == Held(lots, other) - (if lots[at].0 == other then lots[at].1 else 0) + (if lots[at].0 == other then quantity else 0)
  {
    var n := |lots| - 1;
    var after := lots[at := (lots[at].0, quantity)];
    if at < n {
      assert after[..n] == lots[..n][at := (lots[at].0, quantity)];
      ChangedLot(lots[..n], at, quantity, other);
    } else {
      assert after[..n] == lots[..n];
    }
  }

  lemma {:induction false} RemovedLot(lots: seq<Lot>, at: nat, other: nat)
    requires at < |lots|
    ensures Sum(lots[..at] + lots[at + 1..]) == Sum(lots) - lots[at].1
    ensures Held(lots[..at] + lots[at + 1..], other) == Held(lots, other) - if lots[at].0 == other then lots[at].1 else 0
  {
    var n := |lots| - 1;
    var after := lots[..at] + lots[at + 1..];
    if at < n {
      assert after[..n - 1] == lots[..n][..at] + lots[..n][at + 1..] && after[n - 1] == lots[n];
      RemovedLot(lots[..n], at, other);
    } else {
      assert after == lots[..n];
    }
  }

  lemma AddedLot(lots: seq<Lot>, index: nat, quantity: nat, other: nat)
    requires Apart(lots) && quantity > 0 && forall lot | lot in lots :: lot.0 != index
    ensures Apart(lots + [(index, quantity)]) && Sum(lots + [(index, quantity)]) == Sum(lots) + quantity
    ensures Held(lots + [(index, quantity)], other) == Held(lots, other) + if other == index then quantity else 0
  {
    var after := lots + [(index, quantity)];
    assert after[..|lots|] == lots;
    assert forall i | 0 <= i < |lots| :: lots[i] in lots;
  }

  lemma TalliedIs(drawn: seq<Lot>, index: nat, other: nat)
    requires Apart(drawn)
    ensures Apart(Tallied(drawn, index)) && Sum(Tallied(drawn, index)) == Sum(drawn) + 1
    ensures Held(Tallied(drawn, index), other) == Held(drawn, other) + if index == other then 1 else 0
    ensures |drawn| <= |Tallied(drawn, index)|
    ensures forall i | 0 <= i < |drawn| :: Tallied(drawn, index)[i].0 == drawn[i].0 && drawn[i].1 <= Tallied(drawn, index)[i].1
  {
    hide Sum, Held;
    var at := PlaceOf(drawn, index);
    if at.Some? {
      ChangedLot(drawn, at.value, drawn[at.value].1 + 1, other);
    } else {
      AddedLot(drawn, index, 1, other);
      hide Apart;
    }
  }

  lemma RemovedApart(lots: seq<Lot>, at: nat)
    requires Apart(lots) && at < |lots|
    ensures Apart(lots[..at] + lots[at + 1..])
  {
    var after := lots[..at] + lots[at + 1..];
    assert forall i | 0 <= i < |after| :: after[i] == if i < at then lots[i] else lots[i + 1];
  }

  lemma DepletedIs(available: seq<Lot>, at: nat, other: nat)
    requires Apart(available) && at < |available|
    ensures Apart(Depleted(available, at)) && Sum(Depleted(available, at)) == Sum(available) - 1
    ensures Held(Depleted(available, at), other) == Held(available, other) - if available[at].0 == other then 1 else 0
  {
    var (index, quantity) := available[at];
    assert quantity > 0;
    if quantity <= 1 {
      RemovedLot(available, at, other);
      RemovedApart(available, at);
    } else {
      ChangedLot(available, at, quantity - 1, other);
      assert Apart(available[at := (index, quantity - 1)]);
    }
    hide Apart, Sum, Held;
  }

  lemma StockedNext(ingredients: seq<nat>, n: nat)
    requires n < |ingredients|
    ensures Stocked(ingredients, n + 1) == (if ingredients[n] > 0 then Stocked(ingredients, n) + [(n, ingredients[n])]
                                            else Stocked(ingredients, n))
  {
  }

  lemma NothingStocked(other: nat)
    ensures Apart([]) && Sum([]) == 0 && Held([], other) == 0
  {
  }

  lemma {:induction false} StockedIs(ingredients: seq<nat>, n: nat, other: nat)
    requires n <= |ingredients|
    ensures Apart(Stocked(ingredients, n)) && Sum(Stocked(ingredients, n)) == Total(ingredients, n)
    ensures Held(Stocked(ingredients, n), other) == if other < n then ingredients[other] else 0
    ensures forall lot | lot in Stocked(ingredients, n) :: lot.0 < n
  {
    hide Apart, Sum, Held;
    if n == 0 {
      NothingStocked(other);
    } else {
      var before := Stocked(ingredients, n - 1);
      StockedIs(ingredients, n - 1, other);
      StockedNext(ingredients, n - 1);
      if ingredients[n - 1] > 0 {
        AddedLot(before, n - 1, ingredients[n - 1], other);
      }
    }
  }

  lemma {:induction false} SumIsNothing(lots: seq<Lot>)
    requires Apart(lots)
    ensures Sum(lots) == 0 <==> lots == []
  {
  }

  /** Nothing is made or lost: of each ingredient, what is drawn and what is left make what there was. */
  lemma {:induction false} DrawnByIs(seed: nat, ingredients: seq<nat>, turns: nat, first: Option<nat>, index: nat)
    ensures var d := DrawnBy(seed, ingredients, turns, first);
      Apart(d.available) && Apart(d.drawn)
      && Held(d.available, index) + Held(d.drawn, index) == (if index < |ingredients| then ingredients[index] else 0)
      && Sum(d.available) + Sum(d.drawn) == Total(ingredients, |ingredients|)
      && Sum(d.drawn) == if turns < Total(ingredients, |ingredients|) then turns else Total(ingredients, |ingredients|)
  {
    hide Turned, Bits, Tallied, Depleted;
    if turns == 0 {
      StockedIs(ingredients, |ingredients|, index);
    } else {
      DrawnByIs(seed, ingredients, turns - 1, first, index);
      var d := DrawnBy(seed, ingredients, turns - 1, first);
      SumIsNothing(d.available);
      if d.available != [] {
        var forced := Forced(d.available, turns - 1, first);
        var state := if forced.Some? then d.seed else Turned(d.seed);
        var at := if forced.Some? then forced.value else Bits(state) % |d.available|;
        DepletedIs(d.available, at, index);
        TalliedIs(d.drawn, d.available[at].0, index);
      }
    }
  }

  lemma {:induction false} HeldAt(lots: seq<Lot>, i: nat)
    requires Apart(lots) && i < |lots|
    ensures Held(lots, lots[i].0) == lots[i].1
  {
    var n := |lots| - 1;
    if i < n {
      HeldAt(lots[..n], i);
    } else {
      NotHeld(lots[..n], lots[i].0);
    }
  }

  lemma {:induction false} NotHeld(lots: seq<Lot>, index: nat)
    requires forall i | 0 <= i < |lots| :: lots[i].0 != index
    ensures Held(lots, index) == 0
  {
    if lots != [] {
      NotHeld(lots[..|lots| - 1], index);
    }
  }

  /**
    A draw names each ingredient at most once, takes of each at least one and at most what there
    is, and takes as many in all as were asked for, or everything.
   */
  lemma DrawIs(seed: nat, ingredients: seq<nat>, count: nat, first: Option<nat>)
    ensures var drawn := Draw(seed, ingredients, count, first);
      (forall i, j | 0 <= i < j < |drawn| :: drawn[i].0 != drawn[j].0)
      && (forall i | 0 <= i < |drawn| :: drawn[i].0 < |ingredients| && 1 <= drawn[i].1 <= ingredients[drawn[i].0])
      && Sum(drawn) == if count < Total(ingredients, |ingredients|) then count else Total(ingredients, |ingredients|)
  {
    var drawn := Draw(seed, ingredients, count, first);
    DrawnByIs(seed, ingredients, count, first, 0);
    forall i | 0 <= i < |drawn| ensures drawn[i].0 < |ingredients| && 1 <= drawn[i].1 <= ingredients[drawn[i].0] {
      DrawnByIs(seed, ingredients, count, first, drawn[i].0);
      HeldAt(drawn, i);
    }
  }

  /** The draw for one more names the same components first, and takes of each at least as many. */
  lemma OneMoreDrawn(seed: nat, ingredients: seq<nat>, count: nat, first: Option<nat>, index: nat)
    ensures var fewer := Draw(seed, ingredients, count, first);
      var more := Draw(seed, ingredients, count + 1, first);
      |fewer| <= |more| && (forall i | 0 <= i < |fewer| :: more[i].0 == fewer[i].0 && fewer[i].1 <= more[i].1)
      && Held(fewer, index) <= Held(more, index)
  {
    hide Turned, Bits, Tallied;
    DrawnByIs(seed, ingredients, count, first, index);
    var d := DrawnBy(seed, ingredients, count, first);
    if d.available != [] {
      var forced := Forced(d.available, count, first);
      var state := if forced.Some? then d.seed else Turned(d.seed);
      var at := if forced.Some? then forced.value else Bits(state) % |d.available|;
      TalliedIs(d.drawn, d.available[at].0, index);
    }
  }

  lemma {:induction false} MoreDrawn(seed: nat, ingredients: seq<nat>, fewer: nat, more: nat, first: Option<nat>, index: nat)
    requires fewer <= more
    ensures Held(Draw(seed, ingredients, fewer, first), index) <= Held(Draw(seed, ingredients, more, first), index)
  {
    hide Draw;
    if fewer < more {
      MoreDrawn(seed, ingredients, fewer, more - 1, first, index);
      OneMoreDrawn(seed, ingredients, more - 1, first, index);
    }
  }

  /** An ingredient that is asked for first, and that the recipe has any of, is the first drawn. */
  lemma {:induction false} FirstIsFirst(seed: nat, ingredients: seq<nat>, count: nat, index: nat)
    requires count > 0 && index < |ingredients| && ingredients[index] > 0
    ensures var drawn := Draw(seed, ingredients, count, Some(index)); drawn != [] && drawn[0].0 == index
  {
    if count > 1 {
      FirstIsFirst(seed, ingredients, count - 1, index);
      OneMoreDrawn(seed, ingredients, count - 1, Some(index), 0);
    } else {
      StockedIs(ingredients, |ingredients|, index);
      var stocked := Stocked(ingredients, |ingredients|);
      if forall lot | lot in stocked :: lot.0 != index {
        NotHeld(stocked, index);
      }
      assert DrawnBy(seed, ingredients, 0, Some(index)) == Draws(stocked, [], seed);
      assert PlaceOf([], index).None?;
    }
  }

  // --- how many ---

  /** Any way of rounding that keeps the order and leaves 0 and 1 alone, as single precision does. */
  ghost predicate Rounds(fl: real -> real) {
    (forall a: real, b: real | a <= b :: fl(a) <= fl(b)) && fl(0.0) == 0.0 && fl(1.0) == 1.0
  }

  function Left(fl: real -> real, durability: nat, max: nat): real {
    var capped := if durability < max then durability else max;
    if max == 0 || fl(max as real) <= 0.0 then 1.0 else fl(fl(capped as real) / fl(max as real))
  }

  function Truncated(r: real): nat { if r > 0.0 then r.Floor else 0 }

  /** A rounded product, cut short. */
  function Share(fl: real -> real, size: real, part: real): nat { Truncated(fl(size * part)) }

  function Half(fl: real -> real, size: real): real { fl(size * 0.5) }

  function RepairCount(fl: real -> real, total: nat, durability: nat, max: nat): nat {
    var count := Share(fl, fl((total + 1) as real), fl(1.0 - Left(fl, durability, max)));
    if count < total then count else total
  }

  function DismantleCount(fl: real -> real, total: nat, durability: nat, max: nat): nat {
    var count := Share(fl, Half(fl, fl((total + 1) as real)), Left(fl, durability, max));
    var least := if count > 1 then count else 1;
    if least < total then least else total
  }

  lemma RatioInOrder(a: real, b: real, m: real)
    requires 0.0 <= a <= b <= m && m > 0.0
    ensures 0.0 <= a / m <= b / m <= 1.0
  {
  }

  /** The less durability is left, the smaller the fraction, which never leaves the unit interval. */
  lemma LeftInOrder(fl: real -> real, less: nat, more: nat, max: nat)
    requires Rounds(fl) && less <= more
    ensures 0.0 <= Left(fl, less, max) <= Left(fl, more, max) <= 1.0
  {
    if max > 0 {
      var a, b, m := if less < max then less else max, if more < max then more else max, max;
      assert fl(0.0) <= fl(a as real) <= fl(b as real) <= fl(m as real) && fl(1.0) <= fl(m as real);
      RatioInOrder(fl(a as real), fl(b as real), fl(m as real));
    }
  }

  lemma ScaledInOrder(s: real, a: real, b: real)
    requires 0.0 <= s && a <= b
    ensures s * a <= s * b
  {
  }

  lemma RoundedInOrder(fl: real -> real, a: real, b: real)
    requires Rounds(fl) && a <= b
    ensures fl(a) <= fl(b)
    ensures 0.0 <= a ==> 0.0 <= fl(a)
  {
  }

  lemma ShareInOrder(fl: real -> real, size: real, a: real, b: real)
    requires Rounds(fl) && 0.0 <= size && a <= b
    ensures Share(fl, size, a) <= Share(fl, size, b)
  {
    ScaledInOrder(size, a, b);
    RoundedInOrder(fl, size * a, size * b);
    hide Rounds;
  }

  lemma HalfIsPositive(fl: real -> real, size: real)
    requires Rounds(fl) && 0.0 <= size
    ensures 0.0 <= Half(fl, size)
  {
    RoundedInOrder(fl, 0.0, size * 0.5);
    hide Rounds;
  }

  /** A more worn item never costs less to repair. */
  lemma RepairInOrder(fl: real -> real, total: nat, less: nat, more: nat, max: nat)
    requires Rounds(fl) && less <= more
    ensures RepairCount(fl, total, more, max) <= RepairCount(fl, total, less, max) <= total
  {
    hide Left, Rounds, Share;
    LeftInOrder(fl, less, more, max);
    RoundedInOrder(fl, (total + 1) as real, (total + 1) as real);
    RoundedInOrder(fl, 1.0 - Left(fl, more, max), 1.0 - Left(fl, less, max));
    ShareInOrder(fl, fl((total + 1) as real), fl(1.0 - Left(fl, more, max)), fl(1.0 - Left(fl, less, max)));
  }

  /** Nor does it return more when it is taken apart. */
  lemma DismantleInOrder(fl: real -> real, total: nat, less: nat, more: nat, max: nat)
    requires Rounds(fl) && less <= more
    ensures DismantleCount(fl, total, less, max) <= DismantleCount(fl, total, more, max) <= total
    ensures total > 0 ==> DismantleCount(fl, total, less, max) >= 1
  {
    hide Left, Rounds, Share, Half;
    LeftInOrder(fl, less, more, max);
    RoundedInOrder(fl, (total + 1) as real, (total + 1) as real);
    HalfIsPositive(fl, fl((total + 1) as real));
    ShareInOrder(fl, Half(fl, fl((total + 1) as real)), Left(fl, less, max), Left(fl, more, max));
  }

  lemma Whole(r: real)
    requires r > 0.0
    ensures r / r == 1.0
  {
  }

  lemma LeftOfNew(fl: real -> real, durability: nat, max: nat)
    requires Rounds(fl) && max <= durability
    ensures Left(fl, durability, max) == 1.0
  {
    if max > 0 {
      assert fl(1.0) <= fl(max as real);
      Whole(fl(max as real));
    }
  }

  lemma NewCostsNothing(fl: real -> real, total: nat, durability: nat, max: nat)
    requires Rounds(fl) && max <= durability
    ensures RepairCount(fl, total, durability, max) == 0
  {
    LeftOfNew(fl, durability, max);
    hide Left;
    assert fl((total + 1) as real) * 0.0 == 0.0;
  }

  /** So a more worn item never costs less of any one component. */
  lemma WornCostsMore(fl: real -> real, seed: nat, ingredients: seq<nat>, less: nat, more: nat, max: nat, index: nat)
    requires Rounds(fl) && less <= more
    ensures var total := Total(ingredients, |ingredients|);
      Held(Draw(seed, ingredients, RepairCount(fl, total, more, max), None), index)
      <= Held(Draw(seed, ingredients, RepairCount(fl, total, less, max), None), index)
  {
    var total := Total(ingredients, |ingredients|);
    hide RepairCount, Draw;
    RepairInOrder(fl, total, less, more, max);
    MoreDrawn(seed, ingredients, RepairCount(fl, total, more, max), RepairCount(fl, total, less, max), None, index);
  }

  function Exact(): real -> real { (r: real) => r }

  /** Exact arithmetic asks two components of a pickaxe at 1200 of 1500, where the client shows one. */
  lemma ExactAsksTwo()
    ensures Rounds(Exact()) && RepairCount(Exact(), 9, 1200, 1500) == 2
  {
    FourFifths();
    hide Left, Rounds;
    assert Share(Exact(), 10.0, 0.2) == 2 by {
      assert 10.0 * 0.2 == 2.0;
    }
  }

  lemma FourFifths()
    ensures Left(Exact(), 1200, 1500) == 0.8 && Rounds(Exact())
  {
    assert 1200.0 / 1500.0 == 0.8;
  }

  /** One draw between two components, both drawn before: what is left, what is drawn, and the next seed. */
  lemma DrawsOneOfTwo(d: Draws, turn: nat, left: nat, right: nat, a: nat, b: nat, high: nat, low: nat)
    requires left > 1 && right > 0 && a > 0 && b > 0
    requires d.available == [(0, left), (1, right)] && d.drawn == [(0, a), (1, b)]
    requires d.seed * 0x343fd + 0x269ec3 == high * 0x1_0000_0000 + low && low < 0x1_0000_0000
    ensures low / 0x1_0000 % 2 == 0 ==> Drawn(d, turn, None) == Draws([(0, left - 1), (1, right)], [(0, a + 1), (1, b)], low)
    ensures low / 0x1_0000 % 2 == 1 && right > 1 ==>
      Drawn(d, turn, None) == Draws([(0, left), (1, right - 1)], [(0, a), (1, b + 1)], low)
    ensures low / 0x1_0000 % 2 == 1 && right == 1 ==> Drawn(d, turn, None) == Draws([(0, left)], [(0, a), (1, b + 1)], low)
  {
    TurnedTo(d.seed, high, low);
    hide Turned, Bits;
  }

  lemma TurnedTo(seed: nat, high: nat, low: nat)
    requires seed * 0x343fd + 0x269ec3 == high * 0x1_0000_0000 + low && low < 0x1_0000_0000
    ensures Turned(seed) == low && Bits(low) % 2 == low / 0x1_0000 % 2
  {
  }

  lemma FirstDraw()
    ensures DrawnBy(0, [6, 3], 1, None) == Draws([(0, 5), (1, 3)], [(0, 1)], 2531011)
  {
    assert Stocked([6, 3], 1) == [(0, 6)];
    assert DrawnBy(0, [6, 3], 0, None) == Draws([(0, 6), (1, 3)], [], 0);
  }

  lemma SecondDraw(d: Draws)
    requires d == Draws([(0, 5), (1, 3)], [(0, 1)], 2531011)
    ensures Drawn(d, 1, None) == Draws([(0, 5), (1, 2)], [(0, 1), (1, 1)], 505908858)
  {
    assert PlaceOf([(0, 1)], 1).None?;
  }

  /** A draw from the one component that is left. */
  lemma DrawsTheLast(d: Draws, turn: nat, left: nat, a: nat, b: nat)
    requires left > 1 && a > 0 && b > 0
    requires d.available == [(0, left)] && d.drawn == [(0, a), (1, b)]
    ensures Drawn(d, turn, None) == Draws([(0, left - 1)], [(0, a + 1), (1, b)], Turned(d.seed))
  {
    hide Turned, Bits;
  }

  lemma FiveDraws()
    ensures DrawnBy(0, [6, 3], 5, None) == Draws([(0, 4)], [(0, 2), (1, 3)], 2727824503)
  {
    FirstDraw();
    hide Drawn;
    SecondDraw(DrawnBy(0, [6, 3], 1, None));
    assert DrawnBy(0, [6, 3], 2, None) == Drawn(DrawnBy(0, [6, 3], 1, None), 1, None);
    assert DrawnBy(0, [6, 3], 3, None) == Drawn(DrawnBy(0, [6, 3], 2, None), 2, None);
    assert DrawnBy(0, [6, 3], 4, None) == Drawn(DrawnBy(0, [6, 3], 3, None), 3, None);
    assert DrawnBy(0, [6, 3], 5, None) == Drawn(DrawnBy(0, [6, 3], 4, None), 4, None);
    hide DrawnBy;
    DrawsOneOfTwo(DrawnBy(0, [6, 3], 2, None), 2, 5, 2, 1, 1, 25208, 3539360597);
    DrawsOneOfTwo(DrawnBy(0, [6, 3], 3, None), 3, 4, 2, 2, 1, 176362, 159719620);
    DrawsOneOfTwo(DrawnBy(0, [6, 3], 4, None), 4, 4, 1, 2, 2, 7958, 2727824503);
  }

  /** With seed 0, of six plates and three rods, what the client's panel was seen to draw for one, five and eight. */
  lemma PanelDraws()
    ensures Draw(0, [6, 3], 1, None) == [(0, 1)]
    ensures Draw(0, [6, 3], 5, None) == [(0, 2), (1, 3)]
    ensures Draw(0, [6, 3], 8, None) == [(0, 5), (1, 3)]
  {
    FirstDraw();
    FiveDraws();
    hide Drawn, Turned;
    assert DrawnBy(0, [6, 3], 6, None) == Drawn(DrawnBy(0, [6, 3], 5, None), 5, None);
    assert DrawnBy(0, [6, 3], 7, None) == Drawn(DrawnBy(0, [6, 3], 6, None), 6, None);
    assert DrawnBy(0, [6, 3], 8, None) == Drawn(DrawnBy(0, [6, 3], 7, None), 7, None);
    hide DrawnBy;
    DrawsTheLast(DrawnBy(0, [6, 3], 5, None), 5, 4, 2, 3);
    DrawsTheLast(DrawnBy(0, [6, 3], 6, None), 6, 3, 3, 3);
    DrawsTheLast(DrawnBy(0, [6, 3], 7, None), 7, 2, 4, 3);
  }

  // --- sizes, in exact arithmetic ---

  lemma FloorOfQuotient(a: nat, b: nat, q: nat)
    requires b > 0 && q * b <= a < (q + 1) * b
    ensures (a as real / b as real).Floor == q
  {
    var r := a as real / b as real;
    assert r * b as real == a as real;
    OrderByProduct(q as real, r, b as real);
    StrictByProduct(r, (q + 1) as real, b as real);
  }

  lemma OrderByProduct(x: real, y: real, b: real)
    requires b > 0.0 && x * b <= y * b
    ensures x <= y
  {
  }

  lemma StrictByProduct(x: real, y: real, b: real)
    requires b > 0.0 && x * b < y * b
    ensures x < y
  {
  }

  lemma Complement(left: nat, max: nat)
    requires max > 0 && left <= max
    ensures 1.0 - left as real / max as real == (max - left) as real / max as real
  {
    Whole(max as real);
    Difference(max as real, left as real, max as real);
  }

  lemma Difference(a: real, b: real, m: real)
    requires m > 0.0
    ensures (a - b) / m == a / m - b / m
  {
  }

  lemma Combined(size: nat, part: nat, max: nat)
    requires max > 0
    ensures size as real * (part as real / max as real) == (size * part) as real / max as real
  {
  }

  lemma ShareIs(size: nat, part: nat, max: nat, count: nat)
    requires max > 0 && count * max <= size * part < (count + 1) * max
    ensures Share(Exact(), size as real, part as real / max as real) == count
  {
    Combined(size, part, max);
    FloorOfQuotient(size * part, max, count);
  }

  lemma LeftIs(durability: nat, max: nat)
    requires max > 0
    ensures Left(Exact(), durability, max) == (if durability < max then durability else max) as real / max as real
  {
  }

  /** In exact arithmetic a repair takes the worn share of one more than the total, cut short, and never more than the total. */
  lemma RepairCountIs(total: nat, durability: nat, max: nat, count: nat)
    requires max > 0
    requires var worn := if durability < max then max - durability else 0;
      count * max <= (total + 1) * worn < (count + 1) * max
    ensures RepairCount(Exact(), total, durability, max) == if count < total then count else total
  {
    hide Left, Share;
    var left := if durability < max then durability else max;
    LeftIs(durability, max);
    Complement(left, max);
    ShareIs(total + 1, max - left, max, count);
  }

  /** A dismantle returns half of that share, at least one and never more than the total. */
  lemma DismantleCountIs(total: nat, durability: nat, max: nat, count: nat)
    requires max > 0
    requires var left := if durability < max then durability else max;
      count * (2 * max) <= (total + 1) * left < (count + 1) * (2 * max)
    ensures DismantleCount(Exact(), total, durability, max)
         == var least := if count > 1 then count else 1; if least < total then least else total
  {
    hide Left, Share;
    var left := if durability < max then durability else max;
    LeftIs(durability, max);
    HalfShareIs(total + 1, left, max, count);
  }

  lemma HalfShareIs(size: nat, part: nat, max: nat, count: nat)
    requires max > 0 && count * (2 * max) <= size * part < (count + 1) * (2 * max)
    ensures Share(Exact(), size as real * 0.5, part as real / max as real) == count
  {
    Halved(size as real, part, max);
    Combined(size, part, 2 * max);
    FloorOfQuotient(size * part, 2 * max, count);
  }

  lemma Halved(size: real, left: nat, max: nat)
    requires max > 0
    ensures size * 0.5 * (left as real / max as real) == size * (left as real / (2 * max) as real)
  {
    assert left as real / (2 * max) as real == (left as real / max as real) * 0.5;
  }

  lemma ForcedDraw()
    ensures DrawnBy(0, [6, 3], 1, Some(1)) == Draws([(0, 6), (1, 2)], [(1, 1)], 0)
  {
    assert Stocked([6, 3], 1) == [(0, 6)];
    assert DrawnBy(0, [6, 3], 0, Some(1)) == Draws([(0, 6), (1, 3)], [], 0);
    assert PlaceOf([(0, 6)], 1).None? && PlaceOf([(0, 6), (1, 3)], 1) == Some(1);
    hide DrawnBy, Stocked;
  }

  lemma DrawAfterForced(d: Draws)
    requires d == Draws([(0, 6), (1, 2)], [(1, 1)], 0)
    ensures Drawn(d, 1, Some(1)) == Draws([(0, 5), (1, 2)], [(1, 1), (0, 1)], 2531011)
  {
    assert PlaceOf([(1, 1)], 0).None?;
  }

  /** Forced to take the second component first, the draw turns no generator for it and takes the first one next. */
  lemma ForcedOnce()
    ensures Draw(0, [6, 3], 2, Some(1)) == [(1, 1), (0, 1)]
  {
    hide Drawn;
    ForcedDraw();
    DrawAfterForced(DrawnBy(0, [6, 3], 1, Some(1)));
  }
}
