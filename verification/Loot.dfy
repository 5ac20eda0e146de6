/** Rolling a loot table: the generator, the weighted pick, and one drop for each entry that yields. */
module Loots {
  import opened Wrappers

  // --- the generator ---

  function Left13(s: bv64): bv64 { s ^ (s << 13) }

  function Right7(s: bv64): bv64 { s ^ (s >> 7) }

  function Left17(s: bv64): bv64 { s ^ (s << 17) }

  function Shifted(s: bv64): bv64 { Left17(Right7(Left13(s))) }

  function High(s: bv64): nat { ((s * 0x2545_F491_4F6C_DD1D) >> 33) as nat }

  /** A number below the bound; a bound of zero is taken as one. */
  function Below(s: bv64, bound: nat): (r: (nat, bv64))
    ensures bound > 0 ==> r.0 < bound
    ensures r.1 == Shifted(s)
  {
    hide High;
    var next := Shifted(s);
    (High(next) % (if bound > 0 then bound else 1), next)
  }

  lemma Left13Keeps(s: bv64)
    ensures Left13(s) == 0 <==> s == 0
  {
  }

  lemma Right7Keeps(s: bv64)
    ensures Right7(s) == 0 <==> s == 0
  {
  }

  lemma Left17Keeps(s: bv64)
    ensures Left17(s) == 0 <==> s == 0
  {
  }

  /** Zero is the one state it cannot leave, and the one it never enters. */
  lemma NeverZero(s: bv64)
    ensures Shifted(s) == 0 <==> s == 0
  {
    hide Left13, Right7, Left17;
    Left13Keeps(s);
    Right7Keeps(Left13(s));
    Left17Keeps(Right7(Left13(s)));
  }

  function Turned(s: bv64, n: nat): bv64 { if n == 0 then s else Shifted(Turned(s, n - 1)) }

  lemma {:induction false} NeverZeroAgain(s: bv64, n: nat)
    requires s != 0
    ensures Turned(s, n) != 0
  {
    hide Shifted;
    if n > 0 {
      NeverZeroAgain(s, n - 1);
      NeverZero(Turned(s, n - 1));
    }
  }

  class Seeded {
    var state: bv64

    constructor (seed: bv64)
      ensures state == if seed == 0 then 0x9E37_79B9_7F4A_7C15 else seed
    {
      state := if seed == 0 then 0x9E37_79B9_7F4A_7C15 else seed;
    }

    method RollBelow(bound: nat) returns (r: nat)
      modifies this
      ensures (r, state) == Below(old(state), bound)
      ensures old(state) != 0 ==> state != 0
    {
      hide Left13, Right7, Left17, High;
      NeverZero(state);
      state := Left13(state);
      state := Right7(state);
      state := Left17(state);
      r := High(state) % (if bound > 0 then bound else 1);
    }
  }

  // --- the tables ---

  /** A candidate; its frequency is a weight. */
  datatype Resource = Resource(name: string, frequency: nat, quantity: nat)

  datatype Entry = Entry(list: string, quantity: nat, chance: nat)

  type Lists = map<string, seq<Resource>>

  /** A source of randomness over any state: a number below a bound, and the next state. */
  type Source<!S> = (S, nat) -> (nat, S)

  type Drop = (string, nat)

  function Weight(resources: seq<Resource>, n: nat): nat
    requires n <= |resources|
  {
    if n == 0 then 0 else Weight(resources, n - 1) + resources[n - 1].frequency
  }

  function TotalOf(resources: seq<Resource>): nat { Weight(resources, |resources|) }

  /** Which candidate a roll picks, counting weights down from the `k`th on. */
  function PickedFrom(resources: seq<Resource>, pick: int, k: nat): Option<nat>
    decreases |resources| - k
  {
    if k >= |resources| then None
    else if pick - resources[k].frequency < 0 then Some(k)
    else PickedFrom(resources, pick - resources[k].frequency, k + 1)
  }

  function Picked(resources: seq<Resource>, pick: int): Option<nat> { PickedFrom(resources, pick, 0) }

  lemma {:induction false} WeightGrows(resources: seq<Resource>, i: nat, j: nat)
    requires i <= j <= |resources|
    ensures Weight(resources, i) <= Weight(resources, j)
  {
    if i < j {
      WeightGrows(resources, i, j - 1);
    }
  }

  lemma {:induction false} PickedFromIs(resources: seq<Resource>, pick: int, k: nat)
    requires k <= |resources| && 0 <= pick
    ensures PickedFrom(resources, pick, k).None? <==> pick + Weight(resources, k) >= TotalOf(resources)
    ensures PickedFrom(resources, pick, k).Some? ==>
      (var i := PickedFrom(resources, pick, k).value;
       k <= i < |resources| && Weight(resources, i) <= pick + Weight(resources, k) < Weight(resources, i + 1))
    decreases |resources| - k
  {
    if k < |resources| {
      if pick - resources[k].frequency < 0 {
        WeightGrows(resources, k + 1, |resources|);
      } else {
        PickedFromIs(resources, pick - resources[k].frequency, k + 1);
      }
    }
  }

  /** A roll picks a candidate exactly when it falls in that candidate's share of the total. */
  lemma PickedIs(resources: seq<Resource>, pick: nat, i: nat)
    requires i < |resources|
    ensures Picked(resources, pick) == Some(i) <==> Weight(resources, i) <= pick < Weight(resources, i + 1)
    ensures Picked(resources, pick).Some? <==> pick < TotalOf(resources)
  {
    PickedFromIs(resources, pick, 0);
    var r := Picked(resources, pick);
    if r.Some? {
      if r.value < i {
        WeightGrows(resources, r.value + 1, i);
      }
      if i < r.value {
        WeightGrows(resources, i + 1, r.value);
      }
    } else {
      WeightGrows(resources, i + 1, |resources|);
    }
  }

  /** The rolls below `n` that pick one candidate. */
  ghost function RollsFor(resources: seq<Resource>, i: nat, n: nat): set<nat> {
    set pick: nat | 0 <= pick < n && Picked(resources, pick) == Some(i)
  }

  lemma {:induction false} RollsCount(resources: seq<Resource>, i: nat, n: nat)
    requires i < |resources|
    ensures |RollsFor(resources, i, n)|
      == if n <= Weight(resources, i) then 0
         else if n <= Weight(resources, i + 1) then n - Weight(resources, i)
         else resources[i].frequency
  {
    if n == 0 {
      assert RollsFor(resources, i, 0) == {};
    } else {
      RollsCount(resources, i, n - 1);
      PickedIs(resources, n - 1, i);
      var before := RollsFor(resources, i, n - 1);
      assert RollsFor(resources, i, n) == if Picked(resources, n - 1) == Some(i) then before + {n - 1} else before;
    }
  }

  /** Over all the rolls there are, each candidate is picked by exactly as many as its weight. */
  lemma WeightsAreExact(resources: seq<Resource>, i: nat)
    requires i < |resources|
    ensures |RollsFor(resources, i, TotalOf(resources))| == resources[i].frequency
  {
    RollsCount(resources, i, TotalOf(resources));
    WeightGrows(resources, i + 1, |resources|);
  }

  // --- a whole table ---

  /** One entry: what it drops, if anything, and the state its rolls leave. */
  function EntryRolled<S>(e: Entry, lists: Lists, below: Source<S>, s: S): (Option<Drop>, S) {
    var (chance, after) := if e.chance < 100 then below(s, 100) else (0, s);
    if e.chance < 100 && chance >= e.chance then (None, after)
    else if e.list !in lists || TotalOf(lists[e.list]) == 0 then (None, after)
    else
      var (pick, last) := below(after, TotalOf(lists[e.list]));
      var at := Picked(lists[e.list], pick);
      if at.None? || at.value >= |lists[e.list]| then (None, last)
      else
        var resource := lists[e.list][at.value];
        (Some((resource.name, resource.quantity * e.quantity)), last)
  }

  function TableRolled<S>(entries: seq<Entry>, lists: Lists, below: Source<S>, s: S, n: nat): (seq<Drop>, S)
    requires n <= |entries|
  {
    if n == 0 then ([], s)
    else
      var (drops, mid) := TableRolled(entries, lists, below, s, n - 1);
      var (drop, after) := EntryRolled(entries[n - 1], lists, below, mid);
      (if drop.Some? then drops + [drop.value] else drops, after)
  }

  function Seed(): Source<bv64> { (s: bv64, bound: nat) => Below(s, bound) }

  method RollEntry(e: Entry, lists: Lists, roll: Seeded) returns (drop: Option<Drop>)
    modifies roll
    ensures (drop, roll.state) == EntryRolled(e, lists, Seed(), old(roll.state))
  {
    hide Below, Shifted, High;
    if e.chance < 100 {
      var chance := roll.RollBelow(100);
      if chance >= e.chance {
        return None;
      }
    }
    if e.list !in lists {
      return None;
    }
    var resources := lists[e.list];
    var total := SumFrequencies(resources);
    if total == 0 {
      return None;
    }
    var rolled := roll.RollBelow(total);
    var pick: int := rolled;
    for k := 0 to |resources|
      invariant Picked(resources, rolled) == PickedFrom(resources, pick, k)
    {
      pick := pick - resources[k].frequency;
      if pick < 0 {
        return Some((resources[k].name, resources[k].quantity * e.quantity));
      }
    }
    return None;
  }

  method SumFrequencies(resources: seq<Resource>) returns (total: nat)
    ensures total == TotalOf(resources)
  {
    total := 0;
    for i := 0 to |resources|
      invariant total == Weight(resources, i)
    {
      total := total + resources[i].frequency;
    }
  }

  /** A source never answers its bound or more. */
  ghost predicate Fair<S(!new)>(below: Source<S>) {
    forall s: S, bound: nat | bound > 0 :: below(s, bound).0 < bound
  }

  lemma SeedIsFair()
    ensures Fair(Seed())
  {
    hide Shifted, High;
  }

  /** Whether an entry gets past its chance, in the state its roll is made in. */
  predicate Survives<S>(e: Entry, below: Source<S>, s: S) { e.chance >= 100 || below(s, 100).0 < e.chance }

  predicate Drawable(e: Entry, lists: Lists) { e.list in lists && TotalOf(lists[e.list]) > 0 }

  /** The entries that survive and have something to pick from, in order. */
  function Yielding<S>(entries: seq<Entry>, lists: Lists, below: Source<S>, s: S, n: nat): (r: seq<nat>)
    requires n <= |entries|
    ensures forall i | 0 <= i < |r| :: r[i] < n
    ensures forall i, j | 0 <= i < j < |r| :: r[i] < r[j]
  {
    if n == 0 then []
    else
      var mid := TableRolled(entries, lists, below, s, n - 1).1;
      Yielding(entries, lists, below, s, n - 1)
      + if Survives(entries[n - 1], below, mid) && Drawable(entries[n - 1], lists) then [n - 1] else []
  }

  /** A drop is some candidate of the entry's list with a weight, as many times as the entry says. */
  ghost predicate DropOf(drop: Drop, e: Entry, lists: Lists) {
    e.list in lists &&
    exists resource ::
      resource in lists[e.list] && resource.frequency > 0 && drop == (resource.name, resource.quantity * e.quantity)
  }

  lemma EntryYields<S(!new)>(e: Entry, lists: Lists, below: Source<S>, s: S)
    requires Fair(below)
    ensures EntryRolled(e, lists, below, s).0.Some? <==> Survives(e, below, s) && Drawable(e, lists)
    ensures EntryRolled(e, lists, below, s).0.Some? ==> DropOf(EntryRolled(e, lists, below, s).0.value, e, lists)
  {
    if Survives(e, below, s) && Drawable(e, lists) {
      var resources := lists[e.list];
      var after := if e.chance < 100 then below(s, 100).1 else s;
      var pick := below(after, TotalOf(resources)).0;
      PickedFromIs(resources, pick, 0);
      var at := Picked(resources, pick).value;
      assert resources[at] in resources && resources[at].frequency > 0;
    }
  }

  /** Every entry that survives with something to pick from drops exactly one thing, in entry order. */
  lemma {:induction false} TableYields<S(!new)>(entries: seq<Entry>, lists: Lists, below: Source<S>, s: S, n: nat)
    requires n <= |entries| && Fair(below)
    ensures |TableRolled(entries, lists, below, s, n).0| == |Yielding(entries, lists, below, s, n)|
    ensures forall j | 0 <= j < |TableRolled(entries, lists, below, s, n).0| ::
      DropOf(TableRolled(entries, lists, below, s, n).0[j], entries[Yielding(entries, lists, below, s, n)[j]], lists)
  {
    hide EntryRolled, DropOf, Survives, Drawable, Fair;
    if n > 0 {
      TableYields(entries, lists, below, s, n - 1);
      EntryYields(entries[n - 1], lists, below, TableRolled(entries, lists, below, s, n - 1).1);
    }
  }

  /** The whole table, from the generator itself: one drop for every entry that yields, in entry order. */
  method RollTable(entries: seq<Entry>, lists: Lists, roll: Seeded) returns (drops: seq<Drop>)
    modifies roll
    ensures (drops, roll.state) == TableRolled(entries, lists, Seed(), old(roll.state), |entries|)
    ensures |drops| == |Yielding(entries, lists, Seed(), old(roll.state), |entries|)|
    ensures forall j | 0 <= j < |drops| ::
      DropOf(drops[j], entries[Yielding(entries, lists, Seed(), old(roll.state), |entries|)[j]], lists)
  {
    hide Below, Shifted, High, Yielding, DropOf, Fair;
    drops := [];
    for i := 0 to |entries|
      invariant (drops, roll.state) == TableRolled(entries, lists, Seed(), old(roll.state), i)
    {
      var drop := RollEntry(entries[i], lists, roll);
      if drop.Some? {
        drops := drops + [drop.value];
      }
    }
    SeedIsFair();
    TableYields(entries, lists, Seed(), old(roll.state), |entries|);
  }

  // --- how much randomness a table takes ---

  /** A source that counts the rolls made. */
  function Counting(below: nat -> nat): Source<nat> { (made: nat, bound: nat) => (below(bound), made + 1) }

  /** An entry rolls for its chance unless it is certain, and again for its pick if it gets that far. */
  lemma RollsOfEntry(e: Entry, lists: Lists, below: nat -> nat, made: nat)
    ensures EntryRolled(e, lists, Counting(below), made).1
      == made + (if e.chance < 100 then 1 else 0)
         + (if Survives(e, Counting(below), made) && Drawable(e, lists) then 1 else 0)
  {
  }

  /** So a certain entry takes no randomness if and only if there is nothing for it to pick. */
  lemma CertainStillPicks(e: Entry, lists: Lists, below: nat -> nat, made: nat)
    requires e.chance >= 100
    ensures EntryRolled(e, lists, Counting(below), made).1 == made <==> !Drawable(e, lists)
  {
    RollsOfEntry(e, lists, below, made);
    hide EntryRolled;
  }

  // --- values ---

  /** From a state of one: the first two words of the 64-bit xorshift by 13, 7 and 17, and what is rolled from them. */
  lemma FirstTurns()
    ensures Shifted(1) == 0x4082_2041 && Shifted(0x4082_2041) == 0x1000_4106_0C01_1441
    ensures Turned(1, 2) == 0x1000_4106_0C01_1441
    ensures High(0x4082_2041) == 1568499633 && High(0x1000_4106_0C01_1441) == 23934024
  {
    assert Turned(1, 1) == Shifted(1);
    assert Left13(1) == 0x2001 && Right7(0x2001) == 0x2041 && Left17(0x2041) == 0x4082_2041;
  }

  /** The rolls an entry is given in turn: this one, every time. */
  function Always(roll: nat): Source<()> { (s: (), bound: nat) => (roll, s) }

  /** The rolls below `n` that an entry survives. */
  ghost function SurvivedRolls(e: Entry, n: nat): set<nat> {
    set roll: nat | 0 <= roll < n && Survives(e, Always(roll), ())
  }

  lemma {:induction false} SurvivedBelow(e: Entry, n: nat)
    requires n <= 100
    ensures |SurvivedRolls(e, n)| == if n < e.chance then n else e.chance
  {
    if n == 0 {
      assert SurvivedRolls(e, 0) == {};
    } else {
      SurvivedBelow(e, n - 1);
      var before := SurvivedRolls(e, n - 1);
      assert SurvivedRolls(e, n) == if n - 1 < e.chance then before + {n - 1} else before;
    }
  }

  /** Of the hundred rolls there are an entry survives as many as its chance says, all of them from 100 on. */
  lemma ChanceIsPercent(e: Entry)
    ensures |SurvivedRolls(e, 100)| == if e.chance < 100 then e.chance else 100
  {
    SurvivedBelow(e, 100);
  }
}
