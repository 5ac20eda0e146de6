/**
  Writing down what a player carries, square by square, and giving it back to a session in which
  every stack is a new entity.
 */
module SaveRestore {
  import opened Wrappers
  import opened Numbers
  import opened Inventory
  import opened Stored
  import Tables

  /** What a session keeps about a player's things, by item entity. */
  datatype Carrier = Carrier(
    player: Id, inv: Inv, parked: seq<Id>, wear: map<Id, nat>, taught: map<Id, nat>,
    madeOf: map<Id, Materials>, minted: map<Id, nat>, recipes: seq<nat>)

  /** Details held by square until the rucksack restore asks for them. */
  datatype Pending = Pending(details: map<nat, Detail>, materials: map<nat, Materials>, minted: map<nat, nat>)

  /** The items that teach, each with the lessons a stack's id picks from when none is recorded. */
  type Lessons = map<nat, seq<nat>>

  type Layout = seq<(nat, Id)>

  // --- which square each stack is written down under ---

  function Squares(c: Carrier): seq<Id> { if c.player in c.inv.slots then c.inv.slots[c.player] else [] }

  function Occupied(squares: seq<Id>, n: nat): Layout
    requires n <= |squares|
  {
    if n == 0 then [] else Occupied(squares, n - 1) + if squares[n - 1] != 0 then [(n - 1, squares[n - 1])] else []
  }

  /** Parked stacks take the free squares at and after `k`, in order, while there are any. */
  function Parked(squares: seq<Id>, parked: seq<Id>, k: nat): Layout
    decreases |squares| - k, |parked|
  {
    if parked == [] || k >= |squares| then []
    else if parked[0] == 0 then Parked(squares, parked[1..], k)
    else if squares[k] != 0 then Parked(squares, parked, k + 1)
    else [(k, parked[0])] + Parked(squares, parked[1..], k + 1)
  }

  function Inserted(x: (nat, Id), sorted: Layout): Layout {
    if sorted == [] then [x]
    else if x.0 < sorted[0].0 || (x.0 == sorted[0].0 && x.1 <= sorted[0].1) then [x] + sorted
    else [sorted[0]] + Inserted(x, sorted[1..])
  }

  function Sorted(layout: Layout): Layout {
    if layout == [] then [] else Inserted(layout[0], Sorted(layout[1..]))
  }

  function StoredLayout(c: Carrier): Layout {
    var squares := Squares(c);
    Sorted(Occupied(squares, |squares|) + Parked(squares, c.parked, FIRST_RUCKSACK_SLOT))
  }

  ghost predicate Increasing(layout: Layout) {
    forall i, j | 0 <= i < j < |layout| :: layout[i].0 < layout[j].0
  }

  ghost predicate DistinctSlots(layout: Layout) {
    forall i, j | 0 <= i < j < |layout| :: layout[i].0 != layout[j].0
  }

  lemma {:induction false} InsertedIs(x: (nat, Id), sorted: Layout)
    ensures forall y :: y in Inserted(x, sorted) <==> y == x || y in sorted
  {
    if sorted != [] {
      InsertedIs(x, sorted[1..]);
      assert sorted == [sorted[0]] + sorted[1..];
    }
  }

  lemma ConsIncreasing(x: (nat, Id), rest: Layout)
    requires Increasing(rest) && forall y | y in rest :: x.0 < y.0
    ensures Increasing([x] + rest)
  {
    assert forall i | 0 <= i < |rest| :: rest[i] in rest;
  }

  lemma SnocIncreasing(before: Layout, x: (nat, Id))
    requires Increasing(before) && forall y | y in before :: y.0 < x.0
    ensures Increasing(before + [x])
  {
    assert forall i | 0 <= i < |before| :: before[i] in before;
  }

  lemma {:induction false} InsertedIncreasing(x: (nat, Id), sorted: Layout)
    requires Increasing(sorted) && forall y | y in sorted :: y.0 != x.0
    ensures Increasing(Inserted(x, sorted))
  {
    if sorted != [] && x.0 > sorted[0].0 {
      var rest := Inserted(x, sorted[1..]);
      InsertedIncreasing(x, sorted[1..]);
      InsertedIs(x, sorted[1..]);
      forall y | y in rest ensures sorted[0].0 < y.0 {
        if y != x {
          var j :| 0 <= j < |sorted[1..]| && sorted[1..][j] == y;
          assert sorted[j + 1] == y;
        }
      }
      ConsIncreasing(sorted[0], rest);
    }
  }

  /** Sorting a list of distinct squares puts them in increasing order and keeps every entry. */
  lemma {:induction false} SortedIs(layout: Layout)
    requires DistinctSlots(layout)
    ensures Increasing(Sorted(layout))
    ensures forall y :: y in Sorted(layout) <==> y in layout
  {
    if layout != [] {
      SortedIs(layout[1..]);
      assert layout == [layout[0]] + layout[1..];
      InsertedIs(layout[0], Sorted(layout[1..]));
      forall y | y in Sorted(layout[1..]) ensures y.0 != layout[0].0 {
        var j :| 0 <= j < |layout[1..]| && layout[1..][j] == y;
        assert layout[j + 1] == y;
      }
      InsertedIncreasing(layout[0], Sorted(layout[1..]));
    }
  }

  lemma {:induction false} OccupiedIs(squares: seq<Id>, n: nat)
    requires n <= |squares|
    ensures forall x: (nat, Id) :: x in Occupied(squares, n) <==> x.0 < n && squares[x.0] == x.1 != 0
  {
    if n > 0 {
      OccupiedIs(squares, n - 1);
    }
  }

  lemma {:induction false} OccupiedIncreases(squares: seq<Id>, n: nat)
    requires n <= |squares|
    ensures Increasing(Occupied(squares, n))
  {
    if n > 0 {
      OccupiedIncreases(squares, n - 1);
      OccupiedIs(squares, n - 1);
      SnocIncreasing(Occupied(squares, n - 1), (n - 1, squares[n - 1]));
      hide Increasing;
    }
  }

  /** How many squares are free from `k` on. */
  function FreeSquares(squares: seq<Id>, k: nat): nat
    decreases |squares| - k
  {
    if k >= |squares| then 0 else FreeSquares(squares, k + 1) + if squares[k] == 0 then 1 else 0
  }

  function Nonzero(parked: seq<Id>): seq<Id> {
    if parked == [] then [] else (if parked[0] != 0 then [parked[0]] else []) + Nonzero(parked[1..])
  }

  function Entities(layout: Layout): seq<Id> {
    if layout == [] then [] else [layout[0].1] + Entities(layout[1..])
  }

  lemma {:induction false} ParkedIs(squares: seq<Id>, parked: seq<Id>, k: nat)
    ensures Increasing(Parked(squares, parked, k))
    ensures forall x | x in Parked(squares, parked, k) :: k <= x.0 < |squares| && squares[x.0] == 0 && x.1 != 0
    decreases |squares| - k, |parked|
  {
    if parked != [] && k < |squares| {
      if parked[0] == 0 {
        ParkedIs(squares, parked[1..], k);
      } else if squares[k] != 0 {
        ParkedIs(squares, parked, k + 1);
      } else {
        ParkedIs(squares, parked[1..], k + 1);
        ConsIncreasing((k, parked[0]), Parked(squares, parked[1..], k + 1));
        hide Increasing;
      }
    }
  }

  /** Parked stacks are written down in order, each once, as far as free squares go. */
  lemma {:induction false} ParkedFit(squares: seq<Id>, parked: seq<Id>, k: nat)
    ensures Entities(Parked(squares, parked, k)) == Nonzero(parked)[..Min(|Nonzero(parked)|, FreeSquares(squares, k))]
    decreases |squares| - k, |parked|
  {
    if parked != [] && k < |squares| {
      if parked[0] == 0 {
        ParkedFit(squares, parked[1..], k);
        assert Nonzero(parked) == Nonzero(parked[1..]);
      } else if squares[k] != 0 {
        ParkedFit(squares, parked, k + 1);
      } else {
        var rest := Parked(squares, parked[1..], k + 1);
        ParkedFit(squares, parked[1..], k + 1);
        assert ([(k, parked[0])] + rest)[1..] == rest;
      }
    }
  }

  /** A parked stack is written down under a free square only when the free squares before it are used. */
  lemma {:induction false} ParkedFromTheFirst(squares: seq<Id>, parked: seq<Id>, k: nat, x: (nat, Id), j: nat)
    requires x in Parked(squares, parked, k) && k <= j < x.0 && x.0 < |squares| && squares[j] == 0
    ensures exists y :: y in Parked(squares, parked, k) && y.0 == j
    decreases |squares| - k, |parked|
  {
    if parked[0] == 0 {
      ParkedFromTheFirst(squares, parked[1..], k, x, j);
    } else if squares[k] != 0 {
      ParkedFromTheFirst(squares, parked, k + 1, x, j);
    } else if j == k {
      assert Parked(squares, parked, k)[0].0 == j;
    } else {
      var rest := Parked(squares, parked[1..], k + 1);
      assert x in rest;
      ParkedFromTheFirst(squares, parked[1..], k + 1, x, j);
      var y :| y in rest && y.0 == j;
      assert y in [(k, parked[0])] + rest;
    }
  }

  lemma AllParked(c: Carrier)
    requires |Nonzero(c.parked)| <= FreeSquares(Squares(c), 9)
    ensures Entities(Parked(Squares(c), c.parked, 9)) == Nonzero(c.parked)
  {
    ParkedFit(Squares(c), c.parked, 9);
  }

  lemma Apart(mine: Layout, parked: Layout)
    requires Increasing(mine) && Increasing(parked)
    requires forall x, y | x in mine && y in parked :: x.0 != y.0
    ensures DistinctSlots(mine + parked)
  {
    var all := mine + parked;
    forall i, j | 0 <= i < j < |all| ensures all[i].0 != all[j].0 {
      assert all[i] == if i < |mine| then mine[i] else parked[i - |mine|];
      assert all[j] == if j < |mine| then mine[j] else parked[j - |mine|];
      if i < |mine| <= j {
        assert mine[i] in mine && parked[j - |mine|] in parked;
      }
    }
  }

  /**
    The layout is in strictly increasing squares; every stack of the rucksack is in it once, under
    its own square, and every parked stack that has a free square to go to.
   */
  lemma LayoutIs(c: Carrier)
    ensures Increasing(StoredLayout(c))
    ensures forall x: (nat, Id) :: x in StoredLayout(c) <==>
      (x.0 < |Squares(c)| && Squares(c)[x.0] == x.1 != 0) || x in Parked(Squares(c), c.parked, 9)
    ensures Squares(c) == if c.player in c.inv.slots then c.inv.slots[c.player] else []
    ensures forall x | x in StoredLayout(c) :: x.0 < |Squares(c)| && x.1 != 0
  {
    var squares := Squares(c);
    var mine, parked := Occupied(squares, |squares|), Parked(squares, c.parked, FIRST_RUCKSACK_SLOT);
    OccupiedIs(squares, |squares|);
    OccupiedIncreases(squares, |squares|);
    ParkedIs(squares, c.parked, FIRST_RUCKSACK_SLOT);
    hide Occupied, Parked, Sorted, Increasing;
    Apart(mine, parked);
    SortedIs(mine + parked);
  }

  lemma Inhabited(a: Layout)
    ensures a == [] || exists x :: x in a
  {
    if a != [] {
      assert a[0] in a;
    }
  }

  /** Two layouts with the same entries, both in increasing squares, are the same. */
  lemma IncreasingUnique(a: Layout, b: Layout)
    requires Increasing(a) && Increasing(b) && forall x: (nat, Id) :: x in a <==> x in b
    ensures a == b
  {
    Tables.OrdersAreStrict();
    Tables.ListingUnique(a, b, Tables.NatOrder());
  }

  // --- writing down ---

  function Get<K, V>(m: map<K, V>, k: K): Option<V> { if k in m then Some(m[k]) else None }

  /** The entries of a layout that `f` has something to say about, by square. */
  function Listed<T>(layout: Layout, f: Id -> Option<T>, n: nat): seq<(nat, T)>
    requires n <= |layout|
  {
    if n == 0 then []
    else
      var found := f(layout[n - 1].1);
      Listed(layout, f, n - 1) + if found.Some? then [(layout[n - 1].0, found.value)] else []
  }

  function Teaches(c: Carrier, lessons: Lessons, e: Id): Option<nat> {
    if e !in c.inv.items || c.inv.items[e].name.None? || c.inv.items[e].name.value !in lessons then None
    else if e in c.taught then Some(c.taught[e])
    else
      var all := lessons[c.inv.items[e].name.value];
      if all == [] then None else Some(all[e % |all|])
  }

  function ItemOf(c: Carrier): Id -> Option<(nat, nat)> {
    (e: Id) => if e in c.inv.items && c.inv.items[e].name.Some? then Some((c.inv.items[e].name.value, c.inv.items[e].count)) else None
  }

  function DetailOf(c: Carrier, lessons: Lessons): Id -> Option<Detail> {
    (e: Id) =>
      var d := Detail(Get<Id, nat>(c.wear, e), Teaches(c, lessons, e));
      if d.durability.Some? || d.teaches.Some? then Some(d) else None
  }

  function CarriedItems(c: Carrier): seq<Item> {
    var layout := StoredLayout(c);
    Listed(layout, ItemOf(c), |layout|)
  }

  function ProgressOf(c: Carrier, lessons: Lessons): Progress {
    var layout := StoredLayout(c);
    Progress(
      Listed(layout, DetailOf(c, lessons), |layout|),
      Listed(layout, (e: Id) => Get(c.madeOf, e), |layout|),
      Listed(layout, (e: Id) => Get(c.minted, e), |layout|),
      c.recipes)
  }

  lemma {:induction false} ListedIs<T>(layout: Layout, f: Id -> Option<T>, n: nat, slot: nat, v: T)
    requires n <= |layout|
    ensures (slot, v) in Listed(layout, f, n) <==> exists e: Id :: (slot, e) in layout[..n] && f(e) == Some(v)
  {
    if n > 0 {
      ListedIs(layout, f, n - 1, slot, v);
      assert layout[..n] == layout[..n - 1] + [layout[n - 1]];
      if layout[n - 1].0 == slot && f(layout[n - 1].1) == Some(v) {
        assert (slot, layout[n - 1].1) in layout[..n];
      }
    }
  }

  /** A stack is written down by its name and count under the square the layout gives it. */
  lemma CarriedAre(c: Carrier, slot: nat, name: nat, count: nat)
    ensures (slot, (name, count)) in CarriedItems(c)
       <==> exists e: Id :: (slot, e) in StoredLayout(c) && e in c.inv.items && c.inv.items[e] == Stack(Some(name), count)
  {
    var layout := StoredLayout(c);
    hide StoredLayout;
    ListedIs(layout, ItemOf(c), |layout|, slot, (name, count));
    assert layout[..|layout|] == layout;
  }

  /** What a stack teaches: what was recorded for it, or else the lesson its id picks from the item's. */
  ghost predicate TaughtBy(c: Carrier, lessons: Lessons, e: Id, lesson: Option<nat>) {
    lesson == if e in c.inv.items && c.inv.items[e].name.Some? && c.inv.items[e].name.value in lessons then
                var all := lessons[c.inv.items[e].name.value];
                if e in c.taught then Some(c.taught[e]) else if |all| == 0 then None else Some(all[e % |all|])
              else None
  }

  /** A stack's detail is its wear and its lesson, written down when there is either. */
  lemma DetailsAre(c: Carrier, lessons: Lessons, slot: nat, wear: Option<nat>, lesson: Option<nat>)
    ensures (slot, Detail(wear, lesson)) in ProgressOf(c, lessons).details
       <==> (wear.Some? || lesson.Some?) && exists e: Id ::
            (slot, e) in StoredLayout(c) && TaughtBy(c, lessons, e, lesson)
            && wear == if e in c.wear then Some(c.wear[e]) else None
  {
    var layout := StoredLayout(c);
    hide StoredLayout;
    ListedIs(layout, DetailOf(c, lessons), |layout|, slot, Detail(wear, lesson));
    assert layout[..|layout|] == layout;
  }

  /** Materials and serial numbers are written down under the square of their stack. */
  lemma RecordsAre(c: Carrier, lessons: Lessons, slot: nat, materials: Materials, serial: nat)
    ensures (slot, materials) in ProgressOf(c, lessons).materials
       <==> exists e: Id :: (slot, e) in StoredLayout(c) && e in c.madeOf && c.madeOf[e] == materials
    ensures (slot, serial) in ProgressOf(c, lessons).minted
       <==> exists e: Id :: (slot, e) in StoredLayout(c) && e in c.minted && c.minted[e] == serial
    ensures ProgressOf(c, lessons).recipes == c.recipes
  {
    var layout := StoredLayout(c);
    hide StoredLayout;
    ListedIs(layout, (e: Id) => Get(c.madeOf, e), |layout|, slot, materials);
    ListedIs(layout, (e: Id) => Get(c.minted, e), |layout|, slot, serial);
    assert layout[..|layout|] == layout;
  }

  // --- giving back ---

  function ByKey<T>(list: seq<(nat, T)>): map<nat, T> {
    if list == [] then map[] else ByKey(list[..|list| - 1])[list[|list| - 1].0 := list[|list| - 1].1]
  }

  function Held(p: Progress): Pending { Pending(ByKey(p.details), ByKey(p.materials), ByKey(p.minted)) }

  function Recalled(c: Carrier, p: Progress): Carrier {
    if p.recipes == [] || c.recipes != [] then c else c.(recipes := p.recipes)
  }

  /** A map with `v` under `k`, when there is one. */
  function With<V>(m: map<Id, V>, k: Id, v: Option<V>): map<Id, V> { if v.Some? then m[k := v.value] else m }

  /** One stored stack back into its square, with whatever was held for that square. */
  function Returned(c: Carrier, p: Pending, item: Item): (Carrier, Pending) {
    var (slot, stack) := item;
    var given := Given(c.inv, c.player, slot, stack.0, stack.1);
    if given.None? then (c, p)
    else
      var e, detail := c.inv.next, Get(p.details, slot);
      (c.(inv := given.value,
          wear := With(c.wear, e, if detail.Some? then detail.value.durability else None),
          taught := With(c.taught, e, if detail.Some? then detail.value.teaches else None),
          madeOf := With(c.madeOf, e, Get(p.materials, slot)),
          minted := With(c.minted, e, Get(p.minted, slot))),
       Pending(p.details - {slot}, p.materials - {slot}, p.minted - {slot}))
  }

  function ReturnedAll(c: Carrier, p: Pending, items: seq<Item>, n: nat): (Carrier, Pending)
    requires n <= |items|
  {
    if n == 0 then (c, p)
    else
      var (before, held) := ReturnedAll(c, p, items, n - 1);
      Returned(before, held, items[n - 1])
  }

  function Restored(c: Carrier, p: Progress, items: seq<Item>): Carrier {
    var recalled := Recalled(c, p);
    if items == [] || CarriedItems(recalled) != [] then recalled
    else ReturnedAll(recalled, Held(p), items, |items|).0
  }

  /** A session that has just joined: nothing carried, parked, worn or learned. */
  function Joined(player: Id, squares: nat, limits: map<nat, nat>, next: Id): Carrier {
    Carrier(player, Inv(map[player := seq(squares, _ => 0)], map[], limits, next), [0, 0], map[], map[], map[], map[], [])
  }

  // --- it comes back the same ---

  lemma {:induction false} ListedSame<T>(a: Layout, b: Layout, f: Id -> Option<T>, g: Id -> Option<T>, n: nat)
    requires n <= |a| && n <= |b|
    requires forall i | 0 <= i < n :: a[i].0 == b[i].0 && f(a[i].1) == g(b[i].1)
    ensures Listed(a, f, n) == Listed(b, g, n)
  {
    if n > 0 {
      ListedSame(a, b, f, g, n - 1);
    }
  }

  /** Only squares of the layout are listed. */
  lemma {:induction false} ListedSlots<T>(layout: Layout, f: Id -> Option<T>, n: nat, slot: nat)
    requires Increasing(layout) && n < |layout| && slot >= layout[n].0
    ensures slot !in ByKey(Listed(layout, f, n))
  {
    if n > 0 {
      ListedSlots(layout, f, n - 1, slot);
      ListedNext(layout, f, n - 1);
    }
  }

  lemma ListedNext<T>(layout: Layout, f: Id -> Option<T>, n: nat)
    requires n < |layout|
    ensures ByKey(Listed(layout, f, n + 1)) == (var known := ByKey(Listed(layout, f, n));
      if f(layout[n].1).Some? then known[layout[n].0 := f(layout[n].1).value] else known)
  {
    var all, before := Listed(layout, f, n + 1), Listed(layout, f, n);
    if f(layout[n].1).Some? {
      assert all == before + [(layout[n].0, f(layout[n].1).value)];
      assert all[..|all| - 1] == before;
    } else {
      assert all == before;
    }
  }

  /** What was listed under a square is what is looked up there. */
  lemma {:induction false} LookedUp<T>(layout: Layout, f: Id -> Option<T>, n: nat, i: nat)
    requires Increasing(layout) && i < n <= |layout|
    ensures Get(ByKey(Listed(layout, f, n)), layout[i].0) == f(layout[i].1)
  {
    ListedNext(layout, f, n - 1);
    if i < n - 1 {
      LookedUp(layout, f, n - 1, i);
    } else {
      ListedSlots(layout, f, i, layout[i].0);
    }
  }

  predicate HasName(c: Carrier, e: Id) { e in c.inv.items && c.inv.items[e].name.Some? }

  /** The stacks of a layout that have a name: one without is not written down. */
  function Named(c: Carrier, layout: Layout): Layout {
    if layout == [] then []
    else
      var last := layout[|layout| - 1];
      Named(c, layout[..|layout| - 1]) + if HasName(c, last.1) then [last] else []
  }

  /** What is written down beside the stacks that have a name. */
  function NamedProgress(c: Carrier, lessons: Lessons): Progress {
    var layout := Named(c, StoredLayout(c));
    Progress(
      Listed(layout, DetailOf(c, lessons), |layout|),
      Listed(layout, (e: Id) => Get(c.madeOf, e), |layout|),
      Listed(layout, (e: Id) => Get(c.minted, e), |layout|),
      c.recipes)
  }

  /** Every stack the layout names has a name, as every stack the server makes has. */
  ghost predicate AllNamed(c: Carrier) {
    forall x | x in StoredLayout(c) :: HasName(c, x.1)
  }

  lemma InitIncreasing(layout: Layout)
    requires Increasing(layout) && layout != []
    ensures var before, last := layout[..|layout| - 1], layout[|layout| - 1];
      layout == before + [last] && Increasing(before) && forall y | y in before :: y.0 < last.0
  {
  }

  lemma {:induction false} NamedIs(c: Carrier, layout: Layout)
    requires Increasing(layout)
    ensures Increasing(Named(c, layout))
    ensures forall x :: x in Named(c, layout) <==> x in layout && HasName(c, x.1)
  {
    if layout != [] {
      var before, last := layout[..|layout| - 1], layout[|layout| - 1];
      InitIncreasing(layout);
      NamedIs(c, before);
      hide Increasing, HasName;
      if HasName(c, last.1) {
        SnocIncreasing(Named(c, before), last);
      }
    }
  }

  lemma {:induction false} AllNamedIs(c: Carrier, layout: Layout)
    requires forall x | x in layout :: HasName(c, x.1)
    ensures Named(c, layout) == layout
  {
    hide HasName;
    if layout != [] {
      var before, last := layout[..|layout| - 1], layout[|layout| - 1];
      assert layout == before + [last];
      AllNamedIs(c, before);
    }
  }

  lemma {:induction false} ListedPrefix<T>(a: Layout, b: Layout, f: Id -> Option<T>, n: nat)
    requires n <= |a| && n <= |b| && a[..n] == b[..n]
    ensures Listed(a, f, n) == Listed(b, f, n)
  {
    if n > 0 {
      assert a[..n][n - 1] == b[..n][n - 1] && a[..n][..n - 1] == a[..n - 1] && b[..n][..n - 1] == b[..n - 1];
      ListedPrefix(a, b, f, n - 1);
    }
  }

  /** Only stacks with a name are written down. */
  lemma {:induction false} NamedListed(c: Carrier, layout: Layout)
    ensures Listed(layout, ItemOf(c), |layout|) == Listed(Named(c, layout), ItemOf(c), |Named(c, layout)|)
  {
    if layout != [] {
      var n := |layout| - 1;
      var before, part := Named(c, layout[..n]), Named(c, layout);
      NamedListed(c, layout[..n]);
      ListedPrefix(layout, layout[..n], ItemOf(c), n);
      if HasName(c, layout[n].1) {
        assert part[..|before|] == before;
        ListedPrefix(part, before, ItemOf(c), |before|);
      } else {
        assert part == before;
      }
    }
  }

  /** The entry of square `layout[i]` in the session that gets it back, `i` stacks after `next`. */
  ghost predicate Recovers(c: Carrier, lessons: Lessons, r: Carrier, was: Id, e: Id) {
    e in r.inv.items && was in c.inv.items && r.inv.items[e] == c.inv.items[was] &&
    Get(r.wear, e) == Get(c.wear, was) && Get(r.taught, e) == Teaches(c, lessons, was) &&
    Get(r.madeOf, e) == Get(c.madeOf, was) && Get(r.minted, e) == Get(c.minted, was)
  }

  /** What is still to be given back for a stack is held under its square. */
  ghost predicate Waits(c: Carrier, lessons: Lessons, p: Pending, x: (nat, Id)) {
    Get(p.details, x.0) == DetailOf(c, lessons)(x.1) &&
    Get(p.materials, x.0) == Get(c.madeOf, x.1) && Get(p.minted, x.0) == Get(c.minted, x.1)
  }

  /** Nothing is recorded for ids not handed out yet. */
  ghost predicate Blank(r: Carrier) {
    forall e: Id | e >= r.inv.next ::
      e !in r.inv.items && e !in r.wear && e !in r.taught && e !in r.madeOf && e !in r.minted
  }

  /** The squares once the first `k` stacks are back, as new entities from `next` on. */
  function SquaresAfter(layout: Layout, next: Id, size: nat, k: nat): (squares: seq<Id>)
    requires k <= |layout| && forall x | x in layout :: x.0 < size
    ensures |squares| == size
  {
    if k == 0 then seq(size, _ => 0)
    else
      assert layout[k - 1] in layout;
      SquaresAfter(layout, next, size, k - 1)[layout[k - 1].0 := next + k - 1]
  }

  lemma {:induction false} SeatedAt(layout: Layout, next: Id, size: nat, k: nat, slot: nat)
    requires k <= |layout| && (forall x | x in layout :: x.0 < size) && slot < size && Increasing(layout)
    ensures SquaresAfter(layout, next, size, k)[slot] == 0 ==> forall i | 0 <= i < k :: layout[i].0 != slot || next + i == 0
    ensures SquaresAfter(layout, next, size, k)[slot] != 0
      ==> exists i :: 0 <= i < k && layout[i].0 == slot && SquaresAfter(layout, next, size, k)[slot] == next + i
    ensures forall i | 0 <= i < k && layout[i].0 == slot :: SquaresAfter(layout, next, size, k)[slot] == next + i
  {
    if k > 0 {
      SeatedAt(layout, next, size, k - 1, slot);
    }
  }

  /** The state after giving back the first `k` stacks. */
  ghost predicate Follows(c: Carrier, lessons: Lessons, layout: Layout, r: Carrier, p: Pending, next: Id, k: nat)
    requires k <= |layout| && forall x | x in layout :: x.0 < |Squares(c)|
  {
    r.inv.next == next + k && Squares(r) == SquaresAfter(layout, next, |Squares(c)|, k) && Blank(r) && r.parked == [0, 0] &&
    (forall i | 0 <= i < k :: Recovers(c, lessons, r, layout[i].1, next + i)) &&
    (forall i | k <= i < |layout| :: Waits(c, lessons, p, layout[i])) &&
    (forall e | e in r.inv.items :: next <= e)
  }

  /** What giving back one stack changes, when its square is there and free. */
  lemma ReturnedIs(r: Carrier, p: Pending, item: Item)
    requires item.0 < |Squares(r)| && Squares(r)[item.0] == 0
    ensures var (after, left) := Returned(r, p, item);
      after.inv.next == r.inv.next + 1 && Squares(after) == Squares(r)[item.0 := r.inv.next] && after.parked == r.parked
      && after.recipes == r.recipes
      && after.inv.items == r.inv.items[r.inv.next := Stack(Some(item.1.0), item.1.1)]
      && left == Pending(p.details - {item.0}, p.materials - {item.0}, p.minted - {item.0})
      && after.madeOf == With(r.madeOf, r.inv.next, Get(p.materials, item.0))
      && after.minted == With(r.minted, r.inv.next, Get(p.minted, item.0))
      && var detail := Get(p.details, item.0);
         after.wear == With(r.wear, r.inv.next, if detail.Some? then detail.value.durability else None)
         && after.taught == With(r.taught, r.inv.next, if detail.Some? then detail.value.teaches else None)
  {
    assert r.inv.Slot(r.player, item.0) == Some(0);
  }

  lemma GetWith<V>(m: map<Id, V>, k: Id, v: Option<V>, j: Id)
    requires k !in m
    ensures Get(With(m, k, v), j) == if j == k then v else Get(m, j)
  {
  }

  /** The record of the new stack is what was held for its square; others' records stay. */
  lemma ReturnedAt(r: Carrier, p: Pending, item: Item, e: Id)
    requires item.0 < |Squares(r)| && Squares(r)[item.0] == 0 && Blank(r)
    ensures var after := Returned(r, p, item).0;
      var mine, detail := e == r.inv.next, Get(p.details, item.0);
      Get(after.wear, e) == (if !mine then Get(r.wear, e) else if detail.Some? then detail.value.durability else None)
      && Get(after.taught, e) == (if !mine then Get(r.taught, e) else if detail.Some? then detail.value.teaches else None)
      && Get(after.madeOf, e) == (if mine then Get(p.materials, item.0) else Get(r.madeOf, e))
      && Get(after.minted, e) == (if mine then Get(p.minted, item.0) else Get(r.minted, e))
      && Get(after.inv.items, e) == if mine then Some(Stack(Some(item.1.0), item.1.1)) else Get(r.inv.items, e)
  {
    ReturnedIs(r, p, item);
    var k, detail := r.inv.next, Get(p.details, item.0);
    GetWith(r.wear, k, if detail.Some? then detail.value.durability else None, e);
    GetWith(r.taught, k, if detail.Some? then detail.value.teaches else None, e);
    GetWith(r.madeOf, k, Get(p.materials, item.0), e);
    GetWith(r.minted, k, Get(p.minted, item.0), e);
    hide Returned, With, Squares, Blank;
  }

  lemma ReturnedRecovers(c: Carrier, lessons: Lessons, r: Carrier, p: Pending, x: (nat, Id), item: Item)
    requires item.0 == x.0 < |Squares(r)| && Squares(r)[x.0] == 0 && Blank(r) && Waits(c, lessons, p, x)
    requires x.1 in c.inv.items && c.inv.items[x.1] == Stack(Some(item.1.0), item.1.1)
    ensures Recovers(c, lessons, Returned(r, p, item).0, x.1, r.inv.next)
  {
    ReturnedAt(r, p, item, r.inv.next);
    hide Returned, Squares, Teaches, Blank;
  }

  lemma ReturnedBlank(r: Carrier, p: Pending, item: Item)
    requires item.0 < |Squares(r)| && Squares(r)[item.0] == 0 && Blank(r)
    ensures Blank(Returned(r, p, item).0)
  {
    ReturnedIs(r, p, item);
    hide Returned, Squares;
  }

  lemma ReturnedKeeps(c: Carrier, lessons: Lessons, r: Carrier, p: Pending, item: Item, was: Id, e: Id)
    requires item.0 < |Squares(r)| && Squares(r)[item.0] == 0 && Blank(r)
    requires Recovers(c, lessons, r, was, e) && e < r.inv.next
    ensures Recovers(c, lessons, Returned(r, p, item).0, was, e)
  {
    ReturnedAt(r, p, item, e);
    hide Returned, Squares, Teaches, Blank;
  }

  lemma ReturnedWaits(c: Carrier, lessons: Lessons, r: Carrier, p: Pending, item: Item, x: (nat, Id))
    requires item.0 < |Squares(r)| && Squares(r)[item.0] == 0
    requires Waits(c, lessons, p, x) && x.0 != item.0
    ensures Waits(c, lessons, Returned(r, p, item).1, x)
  {
    ReturnedIs(r, p, item);
    hide Returned, Squares;
  }

  lemma SeatIsFree(layout: Layout, next: Id, size: nat, k: nat)
    requires k < |layout| && Increasing(layout) && forall x | x in layout :: x.0 < size
    ensures layout[k].0 < size && SquaresAfter(layout, next, size, k)[layout[k].0] == 0
    ensures SquaresAfter(layout, next, size, k + 1) == SquaresAfter(layout, next, size, k)[layout[k].0 := next + k]
  {
    assert layout[k] in layout;
    SeatedAt(layout, next, size, k, layout[k].0);
  }

  lemma Ordered(layout: Layout, i: nat, j: nat)
    requires Increasing(layout) && i < j < |layout|
    ensures layout[i].0 != layout[j].0
  {
  }

  lemma ReturnedFollows(
    c: Carrier, lessons: Lessons, layout: Layout, r: Carrier, p: Pending, next: Id, k: nat, item: Item)
    requires k < |layout| && Increasing(layout) && forall x | x in layout :: x.0 < |Squares(c)|
    requires Follows(c, lessons, layout, r, p, next, k)
    requires layout[k].1 in c.inv.items && c.inv.items[layout[k].1] == Stack(Some(item.1.0), item.1.1) && item.0 == layout[k].0
    ensures Follows(c, lessons, layout, Returned(r, p, item).0, Returned(r, p, item).1, next, k + 1)
  {
    hide Recovers, Waits, Returned, Squares, Blank, SquaresAfter, Increasing;
    var (after, left) := Returned(r, p, item);
    SeatIsFree(layout, next, |Squares(c)|, k);
    ReturnedIs(r, p, item);
    ReturnedRecovers(c, lessons, r, p, layout[k], item);
    ReturnedBlank(r, p, item);
    forall i | 0 <= i < k + 1 ensures Recovers(c, lessons, after, layout[i].1, next + i) {
      if i < k {
        ReturnedKeeps(c, lessons, r, p, item, layout[i].1, next + i);
      }
    }
    forall i | k < i < |layout| ensures Waits(c, lessons, left, layout[i]) {
      Ordered(layout, k, i);
      ReturnedWaits(c, lessons, r, p, item, layout[i]);
    }
  }

  /** What a stack is written down as. */
  lemma {:induction false} ItemsListed(c: Carrier, layout: Layout, n: nat)
    requires n <= |layout| && forall x | x in layout :: x.1 in c.inv.items && c.inv.items[x.1].name.Some?
    ensures |Listed(layout, ItemOf(c), n)| == n
    ensures forall i | 0 <= i < n ::
      Listed(layout, ItemOf(c), n)[i] == (layout[i].0, (c.inv.items[layout[i].1].name.value, c.inv.items[layout[i].1].count))
  {
    if n > 0 {
      ItemsListed(c, layout, n - 1);
      assert layout[n - 1] in layout;
    }
  }

  lemma {:induction false} AllFollow(
    c: Carrier, lessons: Lessons, layout: Layout, r: Carrier, p: Pending, next: Id, items: seq<Item>, k: nat)
    requires k <= |layout| && Increasing(layout) && forall x | x in layout :: x.0 < |Squares(c)|
    requires forall x | x in layout :: x.1 in c.inv.items && c.inv.items[x.1].name.Some?
    requires items == Listed(layout, ItemOf(c), |layout|) && |items| == |layout|
    requires Follows(c, lessons, layout, r, p, next, 0)
    ensures Follows(c, lessons, layout, ReturnedAll(r, p, items, k).0, ReturnedAll(r, p, items, k).1, next, k)
    ensures ReturnedAll(r, p, items, k).0.recipes == r.recipes
  {
    hide Follows, Returned, Increasing;
    if k > 0 {
      AllFollow(c, lessons, layout, r, p, next, items, k - 1);
      var (before, held) := ReturnedAll(r, p, items, k - 1);
      ItemsListed(c, layout, |layout|);
      assert layout[k - 1] in layout;
      ReturnedFollows(c, lessons, layout, before, held, next, k - 1, items[k - 1]);
      RecipesKept(before, held, items[k - 1]);
    }
  }

  lemma RecipesKept(r: Carrier, p: Pending, item: Item)
    ensures Returned(r, p, item).0.recipes == r.recipes
  {
  }

  lemma JoinedFollows(c: Carrier, lessons: Lessons, part: Layout, player: Id, limits: map<nat, nat>, next: Id)
    requires Increasing(StoredLayout(c)) && forall x | x in part :: x in StoredLayout(c) && x.0 < |Squares(c)|
    ensures Follows(c, lessons, part, Recalled(Joined(player, |Squares(c)|, limits, next), ProgressOf(c, lessons)),
                    Held(ProgressOf(c, lessons)), next, 0)
  {
    forall k | 0 <= k < |part| ensures Waits(c, lessons, Held(ProgressOf(c, lessons)), part[k]) {
      assert part[k] in part;
      WaitsFor(c, lessons, part[k]);
    }
    hide StoredLayout, Increasing, Held, ProgressOf, Waits, Recovers;
  }

  /** What is written down beside a stack waits under its square. */
  lemma WaitsFor(c: Carrier, lessons: Lessons, x: (nat, Id))
    requires Increasing(StoredLayout(c)) && x in StoredLayout(c)
    ensures Waits(c, lessons, Held(ProgressOf(c, lessons)), x)
  {
    var layout := StoredLayout(c);
    var i :| 0 <= i < |layout| && layout[i] == x;
    hide StoredLayout, Increasing, Teaches, Listed, ByKey;
    LookedUp(layout, DetailOf(c, lessons), |layout|, i);
    LookedUp(layout, (e: Id) => Get(c.madeOf, e), |layout|, i);
    LookedUp(layout, (e: Id) => Get(c.minted, e), |layout|, i);
  }

  lemma NoneParked(squares: seq<Id>, k: nat)
    ensures Parked(squares, [0, 0], k) == []
  {
    var one: seq<Id>, two: seq<Id> := [0], [0, 0];
    assert two[1..] == one && one[1..] == [];
    assert Parked(squares, one, k) == [];
  }

  /** The layout with the new ids in place of the old. */
  function Renumbered(layout: Layout, next: Id): (again: Layout)
    ensures |again| == |layout|
  {
    seq(|layout|, i requires 0 <= i < |layout| => (layout[i].0, next + i))
  }

  lemma RenumberedHas(layout: Layout, next: Id, size: nat, x: (nat, Id))
    requires Increasing(layout) && next > 0 && forall y | y in layout :: y.0 < size
    ensures x in Renumbered(layout, next) <==> x.0 < size && SquaresAfter(layout, next, size, |layout|)[x.0] == x.1 != 0
  {
    var again := Renumbered(layout, next);
    if x.0 < size {
      SeatedAt(layout, next, size, |layout|, x.0);
    }
    hide SquaresAfter, Increasing;
    if x in again {
      var i :| 0 <= i < |again| && again[i] == x;
      assert layout[i] in layout;
    }
    if x.0 < size && SquaresAfter(layout, next, size, |layout|)[x.0] == x.1 != 0 {
      var i :| 0 <= i < |layout| && layout[i].0 == x.0 && x.1 == next + i;
      assert again[i] == x;
    }
  }

  lemma RenumberedIncreases(layout: Layout, next: Id)
    requires Increasing(layout)
    ensures Increasing(Renumbered(layout, next))
  {
  }

  /** The restored stacks are written down in the same squares. */
  lemma SameSquaresAgain(c: Carrier, lessons: Lessons, layout: Layout, r: Carrier, p: Pending, next: Id)
    requires next > 0 && Increasing(layout) && forall x | x in layout :: x.0 < |Squares(c)|
    requires Follows(c, lessons, layout, r, p, next, |layout|)
    ensures StoredLayout(r) == Renumbered(layout, next)
  {
    hide StoredLayout, Recovers, Waits, Parked, Blank, Renumbered, Increasing, SquaresAfter;
    LayoutIs(r);
    NoneParked(Squares(r), FIRST_RUCKSACK_SLOT);
    forall x: (nat, Id) ensures x in StoredLayout(r) <==> x in Renumbered(layout, next) {
      RenumberedHas(layout, next, |Squares(c)|, x);
    }
    RenumberedIncreases(layout, next);
    IncreasingUnique(StoredLayout(r), Renumbered(layout, next));
  }

  lemma SameTeaching(c: Carrier, lessons: Lessons, r: Carrier, was: Id, e: Id)
    requires Recovers(c, lessons, r, was, e)
    ensures ItemOf(r)(e) == ItemOf(c)(was) && DetailOf(r, lessons)(e) == DetailOf(c, lessons)(was)
  {
  }

  /**
    Saving and restoring into a session that has just joined gives back what was written down: every
    stack that has a name, in its square, with its wear, lesson, materials and mint time, and the
    recipes learned, though every stack is a new entity. When every stack has a name that is everything.
   */
  lemma SaveAndRestore(c: Carrier, lessons: Lessons, player: Id, limits: map<nat, nat>, next: Id)
    requires next > 0
    ensures var r := Restored(Joined(player, |Squares(c)|, limits, next), ProgressOf(c, lessons), CarriedItems(c));
      CarriedItems(r) == CarriedItems(c) && ProgressOf(r, lessons) == NamedProgress(c, lessons)
      && (AllNamed(c) ==> ProgressOf(r, lessons) == ProgressOf(c, lessons))
      && forall e | e in r.inv.items :: e >= next
  {
    var part := Named(c, StoredLayout(c));
    LayoutIs(c);
    NamedIs(c, StoredLayout(c));
    NamedListed(c, StoredLayout(c));
    if AllNamed(c) {
      AllNamedIs(c, StoredLayout(c));
      assert NamedProgress(c, lessons) == ProgressOf(c, lessons);
    }
    assert CarriedItems(c) == Listed(part, ItemOf(c), |part|);
    hide StoredLayout, Named, Increasing, Squares, Follows;
    var p := RestoredFollows(c, lessons, part, player, limits, next);
    var r := Restored(Joined(player, |Squares(c)|, limits, next), ProgressOf(c, lessons), CarriedItems(c));
    SameSquaresAgain(c, lessons, part, r, p, next);
    SameRecords(c, lessons, part, r, p, next);
    FollowersAreNew(c, lessons, part, r, p, next);
    SameRecipes(r, lessons);
    hide ProgressOf, CarriedItems, Restored, Listed, AllNamed;
    assert ProgressOf(r, lessons) == NamedProgress(c, lessons);
  }

  lemma FollowersAreNew(c: Carrier, lessons: Lessons, part: Layout, r: Carrier, p: Pending, next: Id)
    requires forall x | x in part :: x.0 < |Squares(c)|
    requires Follows(c, lessons, part, r, p, next, |part|)
    ensures forall e | e in r.inv.items :: e >= next
  {
    hide Recovers, Waits, Blank, SquaresAfter;
  }

  /** A restore into a session that has just joined gives back every stack that was written down. */
  lemma RestoredFollows(c: Carrier, lessons: Lessons, part: Layout, player: Id, limits: map<nat, nat>, next: Id) returns (p: Pending)
    requires Increasing(StoredLayout(c)) && Increasing(part)
    requires forall x | x in part :: x in StoredLayout(c) && x.0 < |Squares(c)| && HasName(c, x.1)
    requires CarriedItems(c) == Listed(part, ItemOf(c), |part|)
    ensures var r := Restored(Joined(player, |Squares(c)|, limits, next), ProgressOf(c, lessons), CarriedItems(c));
      Follows(c, lessons, part, r, p, next, |part|) && r.recipes == c.recipes
  {
    hide StoredLayout, Increasing, Follows, ProgressOf, Squares, HasName, CarriedItems, Listed, Held, ItemOf, Joined;
    var items, progress := CarriedItems(c), ProgressOf(c, lessons);
    var joined := Joined(player, |Squares(c)|, limits, next);
    var recalled := Recalled(joined, progress);
    JoinedFollows(c, lessons, part, player, limits, next);
    JoinedCarriesNothing(player, |Squares(c)|, limits, next, progress);
    RestoredIs(joined, progress, items);
    SameRecipes(c, lessons);
    ItemsNamed(c, part);
    hide ReturnedAll, Restored;
    AllFollow(c, lessons, part, recalled, Held(progress), next, items, |part|);
    p := ReturnedAll(recalled, Held(progress), items, |part|).1;
  }

  lemma RestoredIs(c: Carrier, p: Progress, items: seq<Item>)
    requires CarriedItems(Recalled(c, p)) == []
    ensures Restored(c, p, items) == ReturnedAll(Recalled(c, p), Held(p), items, |items|).0
  {
    hide CarriedItems, Recalled, Held;
  }

  lemma ItemsNamed(c: Carrier, part: Layout)
    requires forall x | x in part :: HasName(c, x.1)
    ensures |Listed(part, ItemOf(c), |part|)| == |part|
    ensures forall x | x in part :: x.1 in c.inv.items && c.inv.items[x.1].name.Some?
  {
    ItemsListed(c, part, |part|);
  }

  lemma JoinedCarriesNothing(player: Id, squares: nat, limits: map<nat, nat>, next: Id, progress: Progress)
    ensures CarriedItems(Recalled(Joined(player, squares, limits, next), progress)) == []
    ensures Joined(player, squares, limits, next).recipes == []
  {
    NothingCarried(Recalled(Joined(player, squares, limits, next), progress));
  }

  lemma NothingCarried(c: Carrier)
    requires c.parked == [0, 0] && forall i | 0 <= i < |Squares(c)| :: Squares(c)[i] == 0
    ensures CarriedItems(c) == []
  {
    hide Parked, Increasing;
    LayoutIs(c);
    NoneParked(Squares(c), FIRST_RUCKSACK_SLOT);
    Inhabited(StoredLayout(c));
  }

  lemma SameRecords(c: Carrier, lessons: Lessons, part: Layout, r: Carrier, p: Pending, next: Id)
    requires forall x | x in part :: x.0 < |Squares(c)|
    requires Follows(c, lessons, part, r, p, next, |part|)
    requires StoredLayout(r) == Renumbered(part, next)
    ensures CarriedItems(r) == Listed(part, ItemOf(c), |part|)
    ensures ProgressOf(r, lessons).details == Listed(part, DetailOf(c, lessons), |part|)
    ensures ProgressOf(r, lessons).materials == Listed(part, (e: Id) => Get(c.madeOf, e), |part|)
    ensures ProgressOf(r, lessons).minted == Listed(part, (e: Id) => Get(c.minted, e), |part|)
  {
    var a := StoredLayout(r);
    var n := |a|;
    forall i | 0 <= i < n
      ensures a[i].0 == part[i].0 && ItemOf(r)(a[i].1) == ItemOf(c)(part[i].1)
      ensures DetailOf(r, lessons)(a[i].1) == DetailOf(c, lessons)(part[i].1)
      ensures Get(r.madeOf, a[i].1) == Get(c.madeOf, part[i].1) && Get(r.minted, a[i].1) == Get(c.minted, part[i].1)
    {
      SameRecord(c, lessons, part, r, p, next, i);
    }
    hide StoredLayout, Follows, ItemOf, DetailOf, Renumbered;
    ListedSame(a, part, ItemOf(r), ItemOf(c), n);
    ListedSame(a, part, DetailOf(r, lessons), DetailOf(c, lessons), n);
    ListedSame(a, part, (e: Id) => Get(r.madeOf, e), (e: Id) => Get(c.madeOf, e), n);
    ListedSame(a, part, (e: Id) => Get(r.minted, e), (e: Id) => Get(c.minted, e), n);
  }

  lemma SameRecord(c: Carrier, lessons: Lessons, part: Layout, r: Carrier, p: Pending, next: Id, i: nat)
    requires i < |part| && forall x | x in part :: x.0 < |Squares(c)|
    requires Follows(c, lessons, part, r, p, next, |part|)
    ensures var (now, was) := (Renumbered(part, next)[i], part[i]);
      now.0 == was.0 && ItemOf(r)(now.1) == ItemOf(c)(was.1) && DetailOf(r, lessons)(now.1) == DetailOf(c, lessons)(was.1)
      && Get(r.madeOf, now.1) == Get(c.madeOf, was.1) && Get(r.minted, now.1) == Get(c.minted, was.1)
  {
    assert Recovers(c, lessons, r, part[i].1, next + i) by {
      hide Recovers, Waits, Blank, SquaresAfter, Squares;
    }
    hide Waits, Blank, SquaresAfter, Squares, Follows;
    SameTeaching(c, lessons, r, part[i].1, next + i);
    hide ItemOf, DetailOf, Teaches;
  }

  /** A second restore finds the player carrying something, and doubles nothing. */
  lemma RestoreTwice(c: Carrier, lessons: Lessons, player: Id, limits: map<nat, nat>, next: Id)
    requires next > 0
    ensures var (items, progress) := (CarriedItems(c), ProgressOf(c, lessons));
      var r := Restored(Joined(player, |Squares(c)|, limits, next), progress, items);
      Restored(r, progress, items) == r
  {
    hide CarriedItems, ProgressOf, Joined, Squares, ReturnedAll, AllNamed, Named;
    SaveAndRestore(c, lessons, player, limits, next);
    SameRecipes(c, lessons);
    var r := Restored(Joined(player, |Squares(c)|, limits, next), ProgressOf(c, lessons), CarriedItems(c));
    SameRecipes(r, lessons);
    assert Recalled(r, ProgressOf(c, lessons)) == r;
  }

  lemma SameRecipes(c: Carrier, lessons: Lessons)
    ensures ProgressOf(c, lessons).recipes == c.recipes
  {
  }

  // --- the ids of a restore ---

  /** Each stack that is given back is the next entity of the session's own counter. */
  lemma {:induction false} ReturnedMints(c: Carrier, p: Pending, items: seq<Item>, n: nat)
    requires n <= |items| && forall e | e in c.inv.items :: e < c.inv.next
    ensures var after := ReturnedAll(c, p, items, n).0;
      c.inv.next <= after.inv.next <= c.inv.next + n
      && forall e: Id :: e in after.inv.items <==> e in c.inv.items || c.inv.next <= e < after.inv.next
  {
    if n > 0 {
      ReturnedMints(c, p, items, n - 1);
    }
  }

  /** What is carried is a matter of the squares and the parked stacks only. */
  lemma CarriesTheSame(c: Carrier, d: Carrier)
    requires c.player == d.player && c.inv == d.inv && c.parked == d.parked
    ensures CarriedItems(c) == CarriedItems(d)
  {
    hide Sorted, Occupied, Parked;
    ListedSame(StoredLayout(c), StoredLayout(d), ItemOf(c), ItemOf(d), |StoredLayout(c)|);
  }
}
