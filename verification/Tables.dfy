/**
  Account-keyed tables: saving replaces an account's rows, loading reads all rows in order and
  groups them back by account in one pass.
 */
module Tables {
  import opened Wrappers

  type Account = string

  /** Rows by primary key: an account, and a key within it. */
  type Table<K(==), V> = map<(Account, K), V>

  type Row<K, V> = (Account, K, V)

  type Entries<K, V> = seq<(K, V)>

  type Order<-T> = (T, T) -> bool

  ghost predicate StrictOrder<T(!new)>(lt: Order<T>) {
    (forall x :: !lt(x, x)) && (forall x, y, z :: lt(x, y) && lt(y, z) ==> lt(x, z))
    && forall x, y :: x == y || lt(x, y) || lt(y, x)
  }

  function NatOrder(): Order<nat> { (a: nat, b: nat) => a < b }

  function PairOrder(): Order<(nat, nat)> {
    (a: (nat, nat), b: (nat, nat)) => a.0 < b.0 || (a.0 == b.0 && a.1 < b.1)
  }

  lemma OrdersAreStrict()
    ensures StrictOrder(NatOrder()) && StrictOrder(PairOrder())
  {
  }

  /** The orders a table is read in: of accounts, and of keys within one. */
  ghost predicate Orders<K(!new)>(la: Order<Account>, lt: Order<K>) {
    StrictOrder(la) && StrictOrder(lt)
  }

  predicate Before<K, V>(la: Order<Account>, lt: Order<K>, r: Row<K, V>, s: Row<K, V>) {
    la(r.0, s.0) || (r.0 == s.0 && lt(r.1, s.1))
  }

  ghost predicate InOrder<K, V>(rows: seq<Row<K, V>>, la: Order<Account>, lt: Order<K>) {
    forall i, j | 0 <= i < j < |rows| :: Before(la, lt, rows[i], rows[j])
  }

  /** `rows` is what a query for the whole table, ordered by its key, answers. */
  ghost predicate Answers<K(!new), V(!new)>(rows: seq<Row<K, V>>, t: Table<K, V>, la: Order<Account>, lt: Order<K>) {
    InOrder(rows, la, lt)
    && forall a: Account, k: K, v: V :: (a, k, v) in rows <==> (a, k) in t && t[(a, k)] == v
  }

  ghost predicate Increasing<K, V>(entries: Entries<K, V>, lt: Order<K>) {
    forall i, j | 0 <= i < j < |entries| :: lt(entries[i].0, entries[j].0)
  }

  // --- loading ---

  /** One pass over the rows: a row joins the last group, or starts one. */
  function Grouped<K, V>(rows: seq<Row<K, V>>): seq<(Account, Entries<K, V>)> {
    if rows == [] then []
    else
      var (groups, row) := (Grouped(rows[..|rows| - 1]), rows[|rows| - 1]);
      var n := |groups|;
      if n > 0 && groups[n - 1].0 == row.0
      then groups[n - 1 := (row.0, groups[n - 1].1 + [(row.1, row.2)])]
      else groups + [(row.0, [(row.1, row.2)])]
  }

  method Load<K, V>(rows: seq<Row<K, V>>) returns (groups: seq<(Account, Entries<K, V>)>)
    ensures groups == Grouped(rows)
  {
    groups := [];
    for i := 0 to |rows|
      invariant groups == Grouped(rows[..i])
    {
      assert rows[..i + 1][..i] == rows[..i];
      var row, n := rows[i], |groups|;
      if n > 0 && groups[n - 1].0 == row.0 {
        groups := groups[n - 1 := (row.0, groups[n - 1].1 + [(row.1, row.2)])];
      } else {
        groups := groups + [(row.0, [(row.1, row.2)])];
      }
    }
    assert rows[..|rows|] == rows;
  }

  /** An account's entries among the groups; none when it has no group. */
  function Found<K, V>(groups: seq<(Account, Entries<K, V>)>, account: Account): Entries<K, V> {
    if groups == [] then []
    else if groups[|groups| - 1].0 == account then groups[|groups| - 1].1
    else Found(groups[..|groups| - 1], account)
  }

  /** The rows of one account, in the order they were read. */
  function RowsOf<K, V>(rows: seq<Row<K, V>>, account: Account): Entries<K, V> {
    if rows == [] then []
    else
      var row := rows[|rows| - 1];
      RowsOf(rows[..|rows| - 1], account) + if row.0 == account then [(row.1, row.2)] else []
  }

  /** Accounts of the groups are apart and in order, the last being that of the last row. */
  ghost predicate GroupsInOrder<K, V>(groups: seq<(Account, Entries<K, V>)>, la: Order<Account>) {
    forall i, j | 0 <= i < j < |groups| :: la(groups[i].0, groups[j].0)
  }

  lemma NotFound<K, V>(groups: seq<(Account, Entries<K, V>)>, account: Account)
    requires forall g | g in groups :: g.0 != account
    ensures Found(groups, account) == []
  {
    if groups != [] {
      NotFound(groups[..|groups| - 1], account);
    }
  }

  /** Grouping rows that come in order puts each account's rows in one group, as they were read. */
  lemma {:induction false} GroupedIs<K(!new), V(!new)>(rows: seq<Row<K, V>>, la: Order<Account>, lt: Order<K>, account: Account)
    requires Orders(la, lt) && InOrder(rows, la, lt)
    ensures GroupsInOrder(Grouped(rows), la) && (rows == [] <==> Grouped(rows) == [])
    ensures rows != [] ==> Grouped(rows)[|Grouped(rows)| - 1].0 == rows[|rows| - 1].0
    ensures Found(Grouped(rows), account) == RowsOf(rows, account)
  {
    if rows != [] {
      var n := |rows| - 1;
      GroupedIs(rows[..n], la, lt, account);
      var before, after, row := Grouped(rows[..n]), Grouped(rows), rows[n];
      var m := |before|;
      if m > 0 && before[m - 1].0 == row.0 {
        assert after[..m - 1] == before[..m - 1];
      } else {
        assert after[..m] == before;
        if m > 0 {
          LastBefore(rows, la, lt);
          Above(before, la, row.0);
        }
        if account == row.0 {
          NotFound(before, account);
        }
      }
    }
  }

  lemma LastBefore<K, V>(rows: seq<Row<K, V>>, la: Order<Account>, lt: Order<K>)
    requires InOrder(rows, la, lt) && |rows| > 1
    ensures Before(la, lt, rows[|rows| - 2], rows[|rows| - 1])
  {
  }

  /** An account above the last group's is above them all. */
  lemma Above<K(!new), V(!new)>(groups: seq<(Account, Entries<K, V>)>, la: Order<Account>, account: Account)
    requires StrictOrder(la) && GroupsInOrder(groups, la) && groups != [] && la(groups[|groups| - 1].0, account)
    ensures forall i | 0 <= i < |groups| :: la(groups[i].0, account) && groups[i].0 != account
  {
    var n := |groups| - 1;
    forall i | 0 <= i < |groups| ensures la(groups[i].0, account) && groups[i].0 != account {
      assert i < n ==> la(groups[i].0, groups[n].0);
    }
  }

  lemma {:induction false} RowsOfIs<K(!new), V(!new)>(rows: seq<Row<K, V>>, la: Order<Account>, lt: Order<K>, account: Account)
    requires Orders(la, lt) && InOrder(rows, la, lt)
    ensures Increasing(RowsOf(rows, account), lt)
    ensures forall k: K, v: V :: (k, v) in RowsOf(rows, account) <==> (account, k, v) in rows
  {
    if rows != [] {
      var n := |rows| - 1;
      RowsOfIs(rows[..n], la, lt, account);
      var before, row := RowsOf(rows[..n], account), rows[n];
      assert rows == rows[..n] + [row];
      forall e | e in before && row.0 == account ensures lt(e.0, row.1) {
        var i :| 0 <= i < n && rows[i] == (account, e.0, e.1);
        assert Before(la, lt, rows[i], rows[n]);
      }
    }
  }

  // --- saving ---

  function Cleared<K, V>(t: Table<K, V>, account: Account): Table<K, V> {
    map key | key in t && key.0 != account :: t[key]
  }

  /** Insert the first `n` entries; a key that is already there refuses them all. */
  function Inserted<K, V>(t: Table<K, V>, account: Account, entries: Entries<K, V>, n: nat): Option<Table<K, V>>
    requires n <= |entries|
  {
    if n == 0 then Some(t)
    else
      var before := Inserted(t, account, entries, n - 1);
      var (key, value) := entries[n - 1];
      if before.None? || (account, key) in before.value then None
      else Some(before.value[(account, key) := value])
  }

  /** Replace all of an account's rows; rows of an account that does not exist are refused. */
  function Saved<K, V>(t: Table<K, V>, accounts: set<Account>, account: Account, entries: Entries<K, V>): Option<Table<K, V>> {
    if entries != [] && account !in accounts then None else Inserted(Cleared(t, account), account, entries, |entries|)
  }

  method Save<K(==), V>(t: Table<K, V>, accounts: set<Account>, account: Account, entries: Entries<K, V>)
    returns (after: Option<Table<K, V>>)
    ensures after == Saved(t, accounts, account, entries)
  {
    var rows := Cleared(t, account);
    for i := 0 to |entries|
      invariant i > 0 ==> account in accounts
      invariant Inserted(Cleared(t, account), account, entries, i) == Some(rows)
    {
      var (key, value) := entries[i];
      if account !in accounts || (account, key) in rows {
        InsertStops(Cleared(t, account), account, entries, i + 1, |entries|);
        return None;
      }
      rows := rows[(account, key) := value];
    }
    return Some(rows);
  }

  lemma {:induction false} InsertStops<K, V>(t: Table<K, V>, account: Account, entries: Entries<K, V>, n: nat, m: nat)
    requires n <= m <= |entries|
    ensures Inserted(t, account, entries, n).None? ==> Inserted(t, account, entries, m).None?
  {
    if n < m {
      InsertStops(t, account, entries, n, m - 1);
    }
  }

  ghost predicate DistinctKeys<K, V>(entries: Entries<K, V>, n: nat)
    requires n <= |entries|
  {
    forall i, j | 0 <= i < j < n :: entries[i].0 != entries[j].0
  }

  /** Inserting succeeds exactly when no key comes twice, and then holds the old rows and the new. */
  lemma {:induction false} InsertedIs<K, V>(t: Table<K, V>, account: Account, entries: Entries<K, V>, n: nat)
    requires n <= |entries| && forall key | key in t :: key.0 != account
    ensures Inserted(t, account, entries, n).Some? <==> DistinctKeys(entries, n)
    ensures Inserted(t, account, entries, n).Some? ==>
      (forall i | 0 <= i < n ::
         (account, entries[i].0) in Inserted(t, account, entries, n).value
         && Inserted(t, account, entries, n).value[(account, entries[i].0)] == entries[i].1)
    ensures Inserted(t, account, entries, n).Some? ==>
      forall key | key in Inserted(t, account, entries, n).value ::
        if key.0 == account then exists i :: 0 <= i < n && entries[i].0 == key.1
        else key in t && Inserted(t, account, entries, n).value[key] == t[key]
    ensures Inserted(t, account, entries, n).Some? ==>
      forall key | key in t :: key in Inserted(t, account, entries, n).value && Inserted(t, account, entries, n).value[key] == t[key]
  {
    if n > 0 {
      InsertedIs(t, account, entries, n - 1);
    }
  }

  // --- one account's listing, and that there is only one ---

  /** Two lists in key order with the same entries are the same list. */
  lemma {:induction false} ListingUnique<K(!new), V(!new)>(a: Entries<K, V>, b: Entries<K, V>, lt: Order<K>)
    requires StrictOrder(lt) && Increasing(a, lt) && Increasing(b, lt)
    requires forall k: K, v: V :: (k, v) in a <==> (k, v) in b
    ensures a == b
  {
    if a == [] || b == [] {
      Inhabited(a);
      Inhabited(b);
    } else {
      var m, n := |a| - 1, |b| - 1;
      LastHas(a, lt);
      LastHas(b, lt);
      assert (a[m].0, a[m].1) in b && (b[n].0, b[n].1) in a;
      assert a[m] == b[n];
      forall k: K, v: V ensures (k, v) in a[..m] <==> (k, v) in b[..n] {
        assert (k, v) in a <==> (k, v) in b;
      }
      ListingUnique(a[..m], b[..n], lt);
      assert a == a[..m] + [a[m]] && b == b[..n] + [b[n]];
    }
  }

  lemma Inhabited<K, V>(a: Entries<K, V>)
    ensures a == [] || exists k: K, v: V :: (k, v) in a
  {
    if a != [] {
      assert (a[0].0, a[0].1) in a;
    }
  }

  lemma LastHas<K(!new), V(!new)>(a: Entries<K, V>, lt: Order<K>)
    requires StrictOrder(lt) && Increasing(a, lt) && a != []
    ensures a[|a| - 1] in a
    ensures forall k: K, v: V | (k, v) in a && (k, v) != a[|a| - 1] :: lt(k, a[|a| - 1].0)
    ensures forall k: K, v: V :: (k, v) in a[..|a| - 1] <==> (k, v) in a && (k, v) != a[|a| - 1]
  {
    var m := |a| - 1;
    assert a == a[..m] + [a[m]];
    forall k: K, v: V | (k, v) in a[..m] ensures lt(k, a[m].0) {
      var i :| 0 <= i < m && a[i] == (k, v);
    }
  }

  /** Saving stores exactly these entries under the account, and leaves the other accounts' alone. */
  lemma SavedIs<K(!new), V(!new)>(t: Table<K, V>, accounts: set<Account>, account: Account, entries: Entries<K, V>)
    ensures Saved(t, accounts, account, entries).Some?
       <==> DistinctKeys(entries, |entries|) && (entries == [] || account in accounts)
    ensures Saved(t, accounts, account, entries).Some? ==>
      (forall k: K, v: V ::
        (k, v) in entries <==> (account, k) in Saved(t, accounts, account, entries).value
                               && Saved(t, accounts, account, entries).value[(account, k)] == v)
    ensures Saved(t, accounts, account, entries).Some? ==>
      forall a: Account, k: K | a != account ::
        ((a, k) in Saved(t, accounts, account, entries).value <==> (a, k) in t)
        && ((a, k) in t ==> Saved(t, accounts, account, entries).value[(a, k)] == t[(a, k)])
  {
    InsertedIs(Cleared(t, account), account, entries, |entries|);
  }

  /** The rows of one account after a save are the entries, in key order. */
  lemma RowsAfterSave<K(!new), V(!new)>(
    t: Table<K, V>, rows: seq<Row<K, V>>, accounts: set<Account>, account: Account, entries: Entries<K, V>,
    after: seq<Row<K, V>>, la: Order<Account>, lt: Order<K>)
    requires Orders(la, lt) && Answers(rows, t, la, lt) && Saved(t, accounts, account, entries).Some?
    requires Answers(after, Saved(t, accounts, account, entries).value, la, lt)
    ensures RowsOf(after, account) == entries <==> Increasing(entries, lt)
    ensures Increasing(RowsOf(after, account), lt)
    ensures forall k: K, v: V :: (k, v) in RowsOf(after, account) <==> (k, v) in entries
    ensures forall a: Account | a != account :: RowsOf(after, a) == RowsOf(rows, a)
  {
    SavedIs(t, accounts, account, entries);
    RowsOfIs(after, la, lt, account);
    hide RowsOf, Saved, Increasing, InOrder;
    if Increasing(entries, lt) {
      ListingUnique(RowsOf(after, account), entries, lt);
    }
    forall a: Account | a != account ensures RowsOf(after, a) == RowsOf(rows, a) {
      RowsOfIs(after, la, lt, a);
      RowsOfIs(rows, la, lt, a);
      ListingUnique(RowsOf(after, a), RowsOf(rows, a), lt);
    }
  }

  /**
    Loading after saving gives back what was saved if and only if it was saved in key order, and
    every other account finds what it found before.
   */
  lemma LoadAfterSave<K(!new), V(!new)>(
    t: Table<K, V>, rows: seq<Row<K, V>>, accounts: set<Account>, account: Account, entries: Entries<K, V>,
    after: seq<Row<K, V>>, la: Order<Account>, lt: Order<K>)
    requires Orders(la, lt) && Answers(rows, t, la, lt) && Saved(t, accounts, account, entries).Some?
    requires Answers(after, Saved(t, accounts, account, entries).value, la, lt)
    ensures Found(Grouped(after), account) == entries <==> Increasing(entries, lt)
    ensures forall a: Account | a != account :: Found(Grouped(after), a) == Found(Grouped(rows), a)
  {
    RowsAfterSave(t, rows, accounts, account, entries, after, la, lt);
    hide Grouped, Found, Saved, Increasing, RowsOf;
    forall a: Account ensures Found(Grouped(after), a) == RowsOf(after, a) && Found(Grouped(rows), a) == RowsOf(rows, a) {
      GroupedIs(after, la, lt, a);
      GroupedIs(rows, la, lt, a);
    }
  }
}
