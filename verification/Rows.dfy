/** Progress and mail, which take several tables each: flattened into rows and grouped back. */
module StoredRows {
  import opened Wrappers
  import opened Stored
  import opened Tables

  // --- lists flattened by position, and regrouped in one pass ---

  type Lists<T> = seq<(nat, seq<T>)>

  /** The first `n` members of one list as rows under its key and their positions. */
  function Positions<T>(key: nat, list: seq<T>, n: nat): Entries<(nat, nat), T>
    requires n <= |list|
  {
    if n == 0 then [] else Positions(key, list, n - 1) + [((key, n - 1), list[n - 1])]
  }

  function Flattened<T>(lists: Lists<T>): Entries<(nat, nat), T> {
    if lists == [] then []
    else
      var (key, list) := lists[|lists| - 1];
      Flattened(lists[..|lists| - 1]) + Positions(key, list, |list|)
  }

  /** A row joins the last list when it has its key, and starts one otherwise. */
  function Joined<T>(lists: Lists<T>, key: nat, value: T): Lists<T> {
    var n := |lists|;
    if n > 0 && lists[n - 1].0 == key then lists[n - 1 := (key, lists[n - 1].1 + [value])]
    else lists + [(key, [value])]
  }

  function Regrouped<T>(rows: Entries<(nat, nat), T>): Lists<T> {
    if rows == [] then []
    else
      var last := rows[|rows| - 1];
      Joined(Regrouped(rows[..|rows| - 1]), last.0.0, last.1)
  }

  /** No list is empty, and no two in a row have the same key. */
  ghost predicate Separate<T>(lists: Lists<T>) {
    (forall i | 0 <= i < |lists| :: lists[i].1 != []) && forall i | 0 < i < |lists| :: lists[i - 1].0 != lists[i].0
  }

  lemma {:induction false} RegroupedSeparate<T>(rows: Entries<(nat, nat), T>)
    ensures Separate(Regrouped(rows))
  {
    if rows != [] {
      RegroupedSeparate(rows[..|rows| - 1]);
    }
  }

  lemma RegroupedAppend<T>(rows: Entries<(nat, nat), T>, key: nat, at: nat, value: T)
    ensures Regrouped(rows + [((key, at), value)]) == Joined(Regrouped(rows), key, value)
  {
    assert (rows + [((key, at), value)])[..|rows|] == rows;
  }

  lemma JoinedSame<T>(lists: Lists<T>, key: nat, list: seq<T>, value: T)
    ensures Joined(lists + [(key, list)], key, value) == lists + [(key, list + [value])]
  {
  }

  lemma {:induction false} RegroupedPositions<T>(before: Entries<(nat, nat), T>, key: nat, list: seq<T>, n: nat)
    requires n <= |list|
    requires var lists := Regrouped(before); lists == [] || lists[|lists| - 1].0 != key
    ensures Regrouped(before + Positions(key, list, n))
         == if n == 0 then Regrouped(before) else Regrouped(before) + [(key, list[..n])]
  {
    hide Regrouped;
    if n == 0 {
      assert before + [] == before;
    } else {
      RegroupedPositions(before, key, list, n - 1);
      var rows := before + Positions(key, list, n - 1);
      RegroupedAppend(rows, key, n - 1, list[n - 1]);
      assert before + Positions(key, list, n) == rows + [((key, n - 1), list[n - 1])];
      assert list[..n] == list[..n - 1] + [list[n - 1]];
      if n > 1 {
        JoinedSame(Regrouped(before), key, list[..n - 1], list[n - 1]);
      } else {
        assert list[..n] == [list[0]];
        assert Joined(Regrouped(before), key, list[0]) == Regrouped(before) + [(key, [list[0]])];
      }
    }
  }

  lemma {:induction false} RegroupedFlattened<T>(lists: Lists<T>)
    requires Separate(lists)
    ensures Regrouped(Flattened(lists)) == lists
  {
    if lists != [] {
      var n := |lists| - 1;
      RegroupedFlattened(lists[..n]);
      RegroupedPositions(Flattened(lists[..n]), lists[n].0, lists[n].1, |lists[n].1|);
      assert lists[n].1[..|lists[n].1|] == lists[n].1;
    }
  }

  /** Regrouping undoes flattening exactly when no list is empty and neighbours have different keys. */
  lemma RegroupUndoesFlatten<T>(lists: Lists<T>)
    ensures Regrouped(Flattened(lists)) == lists <==> Separate(lists)
  {
    RegroupedSeparate(Flattened(lists));
    if Separate(lists) {
      RegroupedFlattened(lists);
    }
  }

  lemma {:induction false} PositionsIn<T>(key: nat, list: seq<T>, n: nat)
    requires n <= |list|
    ensures Increasing(Positions(key, list, n), PairOrder())
    ensures forall e | e in Positions(key, list, n) :: e.0.0 == key && e.0.1 < n
  {
    if n > 0 {
      PositionsIn(key, list, n - 1);
      Appends(Positions(key, list, n - 1), ((key, n - 1), list[n - 1]));
    }
  }

  lemma Appends<T>(before: Entries<(nat, nat), T>, e: ((nat, nat), T))
    requires Increasing(before, PairOrder()) && forall x | x in before :: PairOrder()(x.0, e.0)
    ensures Increasing(before + [e], PairOrder())
  {
    assert forall i | 0 <= i < |before| :: before[i] in before;
  }

  lemma Concatenates<T>(a: Entries<(nat, nat), T>, b: Entries<(nat, nat), T>)
    requires Increasing(a, PairOrder()) && Increasing(b, PairOrder())
    requires forall x, y | x in a && y in b :: PairOrder()(x.0, y.0)
    ensures Increasing(a + b, PairOrder())
  {
    forall i, j | 0 <= i < j < |a + b| ensures PairOrder()((a + b)[i].0, (a + b)[j].0) {
      if i < |a| <= j {
        assert a[i] in a && b[j - |a|] in b;
      }
    }
  }

  /** Lists in increasing keys flatten into rows in key order. */
  lemma {:induction false} FlattenedIncreases<T>(lists: Lists<T>)
    requires Increasing(lists, NatOrder())
    ensures Increasing(Flattened(lists), PairOrder())
    ensures forall e | e in Flattened(lists) :: lists != [] && e.0.0 <= lists[|lists| - 1].0
  {
    if lists != [] {
      var n := |lists| - 1;
      var (key, list) := lists[n];
      FlattenedIncreases(lists[..n]);
      PositionsIn(key, list, |list|);
      forall x, y | x in Flattened(lists[..n]) && y in Positions(key, list, |list|) ensures PairOrder()(x.0, y.0) {
        assert x.0.0 <= lists[n - 1].0 < key;
      }
      Concatenates(Flattened(lists[..n]), Positions(key, list, |list|));
    }
  }

  lemma {:induction false} RegroupedIncreases<T>(rows: Entries<(nat, nat), T>)
    requires Increasing(rows, PairOrder())
    ensures Increasing(Regrouped(rows), NatOrder())
    ensures rows != [] ==> Regrouped(rows) != [] && Regrouped(rows)[|Regrouped(rows)| - 1].0 == rows[|rows| - 1].0.0
  {
    if rows != [] {
      var n := |rows| - 1;
      RegroupedIncreases(rows[..n]);
      var lists := Regrouped(rows[..n]);
      if n > 0 && lists[|lists| - 1].0 != rows[n].0.0 {
        assert PairOrder()(rows[n - 1].0, rows[n].0);
        forall i | 0 <= i < |lists| ensures lists[i].0 < rows[n].0.0 {
          assert i < |lists| - 1 ==> NatOrder()(lists[i].0, lists[|lists| - 1].0);
        }
      }
    }
  }

  // --- progress ---

  datatype ProgressTables = ProgressTables(
    details: Table<nat, Detail>, materials: Table<(nat, nat), Option<nat>>, minted: Table<nat, nat>, recipes: Table<nat, nat>)

  datatype ProgressRows = ProgressRows(
    details: seq<Row<nat, Detail>>, materials: seq<Row<(nat, nat), Option<nat>>>,
    minted: seq<Row<nat, nat>>, recipes: seq<Row<nat, nat>>)

  function Numbered(list: seq<nat>): (r: Entries<nat, nat>)
    ensures |r| == |list|
  {
    seq(|list|, i requires 0 <= i < |list| => (i, list[i]))
  }

  function Values(entries: Entries<nat, nat>): (r: seq<nat>)
    ensures |r| == |entries|
  {
    seq(|entries|, i requires 0 <= i < |entries| => entries[i].1)
  }

  /** All four tables, or none of them: the saves share a transaction. */
  function SavedProgress(t: ProgressTables, accounts: set<Account>, account: Account, p: Progress): Option<ProgressTables> {
    var details := Saved(t.details, accounts, account, p.details);
    var materials := Saved(t.materials, accounts, account, Flattened(p.materials));
    var minted := Saved(t.minted, accounts, account, p.minted);
    var recipes := Saved(t.recipes, accounts, account, Numbered(p.recipes));
    if details.None? || materials.None? || minted.None? || recipes.None? then None
    else Some(ProgressTables(details.value, materials.value, minted.value, recipes.value))
  }

  ghost predicate ProgressAnswers(rows: ProgressRows, t: ProgressTables, la: Order<Account>) {
    Answers(rows.details, t.details, la, NatOrder()) && Answers(rows.materials, t.materials, la, PairOrder())
    && Answers(rows.minted, t.minted, la, NatOrder()) && Answers(rows.recipes, t.recipes, la, NatOrder())
  }

  function LoadedProgress(rows: ProgressRows, account: Account): Progress {
    Progress(RowsOf(rows.details, account), Regrouped(RowsOf(rows.materials, account)),
             RowsOf(rows.minted, account), Values(RowsOf(rows.recipes, account)))
  }

  const NOTHING: Progress := Progress([], [], [], [])

  function ProgressIn(loaded: map<Account, Progress>, account: Account): Progress {
    if account in loaded then loaded[account] else NOTHING
  }

  /** Each row of details goes to its account's entry, which is there or is made. */
  method AddDetails(before: map<Account, Progress>, rows: seq<Row<nat, Detail>>) returns (loaded: map<Account, Progress>)
    ensures forall a: Account ::
      ProgressIn(loaded, a) == ProgressIn(before, a).(details := ProgressIn(before, a).details + RowsOf(rows, a))
  {
    loaded := before;
    for i := 0 to |rows|
      invariant forall a: Account ::
        ProgressIn(loaded, a) == ProgressIn(before, a).(details := ProgressIn(before, a).details + RowsOf(rows[..i], a))
    {
      var (account, slot, detail) := rows[i];
      var held := ProgressIn(loaded, account);
      loaded := loaded[account := held.(details := held.details + [(slot, detail)])];
      assert rows[..i + 1][..i] == rows[..i];
    }
    assert rows[..|rows|] == rows;
  }

  /** Reading one more row adds it to its own account's rows, and to no other's. */
  lemma RowsOfNext<K, V>(rows: seq<Row<K, V>>, i: nat)
    requires i < |rows|
    ensures RowsOf(rows[..i + 1], rows[i].0) == RowsOf(rows[..i], rows[i].0) + [(rows[i].1, rows[i].2)]
    ensures forall a: Account | a != rows[i].0 :: RowsOf(rows[..i + 1], a) == RowsOf(rows[..i], a)
  {
    assert rows[..i + 1][..i] == rows[..i];
  }

  lemma NoRows<K, V>(rows: seq<Row<K, V>>)
    ensures forall a: Account :: RowsOf(rows[..0], a) == []
  {
  }

  lemma NothingRegrouped()
    ensures Regrouped<Option<nat>>([]) == []
  {
  }

  /** A row of materials joins its stack's list when that is the last one read, or starts another. */
  method AddMaterials(before: map<Account, Progress>, rows: seq<Row<(nat, nat), Option<nat>>>)
    returns (loaded: map<Account, Progress>)
    requires forall a: Account :: ProgressIn(before, a).materials == []
    ensures forall a: Account ::
      ProgressIn(loaded, a) == ProgressIn(before, a).(materials := Regrouped(RowsOf(rows, a)))
  {
    hide Regrouped, Joined;
    NothingRegrouped();
    loaded := before;
    for i := 0 to |rows|
      invariant forall a: Account ::
        ProgressIn(loaded, a) == ProgressIn(before, a).(materials := Regrouped(RowsOf(rows[..i], a)))
    {
      var (account, key, material) := rows[i];
      var held := ProgressIn(loaded, account);
      RegroupedAppend(RowsOf(rows[..i], account), key.0, key.1, material);
      loaded := loaded[account := held.(materials := Joined(held.materials, key.0, material))];
      RowsOfNext(rows, i);
    }
    assert rows[..|rows|] == rows;
  }

  method AddMinted(before: map<Account, Progress>, rows: seq<Row<nat, nat>>) returns (loaded: map<Account, Progress>)
    ensures forall a: Account ::
      ProgressIn(loaded, a) == ProgressIn(before, a).(minted := ProgressIn(before, a).minted + RowsOf(rows, a))
  {
    loaded := before;
    for i := 0 to |rows|
      invariant forall a: Account ::
        ProgressIn(loaded, a) == ProgressIn(before, a).(minted := ProgressIn(before, a).minted + RowsOf(rows[..i], a))
    {
      var (account, slot, minted) := rows[i];
      var held := ProgressIn(loaded, account);
      loaded := loaded[account := held.(minted := held.minted + [(slot, minted)])];
      assert rows[..i + 1][..i] == rows[..i];
    }
    assert rows[..|rows|] == rows;
  }

  method AddRecipes(before: map<Account, Progress>, rows: seq<Row<nat, nat>>) returns (loaded: map<Account, Progress>)
    ensures forall a: Account ::
      ProgressIn(loaded, a) == ProgressIn(before, a).(recipes := ProgressIn(before, a).recipes + Values(RowsOf(rows, a)))
  {
    NoRows(rows);
    hide RowsOf;
    loaded := before;
    for i := 0 to |rows|
      invariant forall a: Account ::
        ProgressIn(loaded, a) == ProgressIn(before, a).(recipes := ProgressIn(before, a).recipes + Values(RowsOf(rows[..i], a)))
    {
      var (account, position, recipe) := rows[i];
      var held := ProgressIn(loaded, account);
      loaded := loaded[account := held.(recipes := held.recipes + [recipe])];
      RowsOfNext(rows, i);
      assert Values(RowsOf(rows[..i + 1], account)) == Values(RowsOf(rows[..i], account)) + [recipe];
    }
    assert rows[..|rows|] == rows;
  }

  /** Read the four tables in order, each row going to its account's entry. */
  method LoadProgress(rows: ProgressRows) returns (loaded: map<Account, Progress>)
    ensures forall a: Account :: ProgressIn(loaded, a) == LoadedProgress(rows, a)
  {
    hide Regrouped, RowsOf;
    loaded := AddDetails(map[], rows.details);
    loaded := AddMaterials(loaded, rows.materials);
    loaded := AddMinted(loaded, rows.minted);
    loaded := AddRecipes(loaded, rows.recipes);
  }

  /** Lists in the order they are read in, with something in each list of materials. */
  ghost predicate Restorable(p: Progress) {
    Increasing(p.details, NatOrder()) && Increasing(p.minted, NatOrder()) && Full(p.materials)
  }

  ghost predicate Full(materials: seq<(nat, Materials)>) {
    Increasing(materials, NatOrder()) && forall i | 0 <= i < |materials| :: materials[i].1 != []
  }

  lemma RegroupedFull(listed: Entries<(nat, nat), Option<nat>>)
    requires Increasing(listed, PairOrder())
    ensures Full(Regrouped(listed))
  {
    RegroupedIncreases(listed);
    RegroupedSeparate(listed);
    hide Regrouped, Increasing;
  }

  lemma FullFlattens(materials: seq<(nat, Materials)>)
    requires Full(materials)
    ensures Increasing(Flattened(materials), PairOrder()) && Regrouped(Flattened(materials)) == materials
  {
    FlattenedIncreases(materials);
    assert forall i | 0 < i < |materials| :: NatOrder()(materials[i - 1].0, materials[i].0);
    RegroupedFlattened(materials);
    hide Regrouped, Flattened;
  }

  lemma MaterialsBack(p: Progress, listed: Entries<(nat, nat), Option<nat>>)
    requires Increasing(listed, PairOrder())
    requires listed == Flattened(p.materials) <==> Increasing(Flattened(p.materials), PairOrder())
    ensures Regrouped(listed) == p.materials <==> Full(p.materials)
  {
    hide Regrouped, Flattened, Increasing, Full;
    RegroupedFull(listed);
    if Full(p.materials) {
      FullFlattens(p.materials);
    }
  }

  lemma NumbersBack(list: seq<nat>)
    ensures Values(Numbered(list)) == list && Increasing(Numbered(list), NatOrder())
  {
  }

  /**
    What is loaded after saving an account's progress is that progress if and only if its lists are
    in square order and no list of materials is empty; other accounts load as they did.
   */
  lemma ProgressRoundTrip(
    t: ProgressTables, rows: ProgressRows, accounts: set<Account>, account: Account, p: Progress, after: ProgressRows,
    la: Order<Account>, other: Account)
    requires StrictOrder(la) && ProgressAnswers(rows, t, la) && SavedProgress(t, accounts, account, p).Some?
    requires ProgressAnswers(after, SavedProgress(t, accounts, account, p).value, la)
    ensures LoadedProgress(after, account) == p <==> Restorable(p)
    ensures other != account ==> LoadedProgress(after, other) == LoadedProgress(rows, other)
  {
    hide RowsOf, Regrouped, Flattened, Saved, Answers, StrictOrder, Increasing, Full, Numbered, Values;
    OrdersAreStrict();
    RowsAfterSave(t.details, rows.details, accounts, account, p.details, after.details, la, NatOrder());
    RowsAfterSave(t.materials, rows.materials, accounts, account, Flattened(p.materials), after.materials, la, PairOrder());
    RowsAfterSave(t.minted, rows.minted, accounts, account, p.minted, after.minted, la, NatOrder());
    RowsAfterSave(t.recipes, rows.recipes, accounts, account, Numbered(p.recipes), after.recipes, la, NatOrder());
    MaterialsBack(p, RowsOf(after.materials, account));
    NumbersBack(p.recipes);
  }

  lemma IncreasingDistinct<K(!new), V>(entries: Entries<K, V>, lt: Order<K>)
    requires StrictOrder(lt) && Increasing(entries, lt)
    ensures DistinctKeys(entries, |entries|)
  {
  }

  /** Progress that can be restored is refused only for an account the store has never heard of. */
  lemma ProgressRefused(t: ProgressTables, accounts: set<Account>, account: Account, p: Progress)
    requires Restorable(p)
    ensures SavedProgress(t, accounts, account, p).None? <==> account !in accounts && p != NOTHING
  {
    OrdersAreStrict();
    IncreasingDistinct(p.details, NatOrder());
    IncreasingDistinct(p.minted, NatOrder());
    FullFlattens(p.materials);
    IncreasingDistinct(Flattened(p.materials), PairOrder());
    NumbersBack(p.recipes);
    IncreasingDistinct(Numbered(p.recipes), NatOrder());
    hide Saved, Increasing, DistinctKeys, Regrouped, Flattened, Numbered, StrictOrder;
    SavedIs(t.details, accounts, account, p.details);
    SavedIs(t.materials, accounts, account, Flattened(p.materials));
    SavedIs(t.minted, accounts, account, p.minted);
    SavedIs(t.recipes, accounts, account, Numbered(p.recipes));
    NothingRegroups();
    NoNumbers(p.recipes);
  }

  // --- mail ---

  /** A message without its attachments; its place in the inbox is its key. */
  datatype Header = Header(uuid: string, subject: string, body: string, flags: nat)

  datatype MailTables = MailTables(mail: Table<nat, Header>, attachments: Table<(string, nat), (nat, nat)>)

  datatype MailRows = MailRows(mail: seq<Row<nat, Header>>, attachments: seq<Row<(string, nat), (nat, nat)>>)

  function HeaderOf(m: Mail): Header { Header(m.uuid, m.subject, m.body, m.flags) }

  function Headers(mail: seq<Mail>): (r: Entries<nat, Header>)
    ensures |r| == |mail|
  {
    seq(|mail|, i requires 0 <= i < |mail| => (i, HeaderOf(mail[i])))
  }

  function UnderUuid(uuid: string, items: seq<Item>): (r: Entries<(string, nat), (nat, nat)>)
    ensures |r| == |items|
  {
    seq(|items|, i requires 0 <= i < |items| => ((uuid, items[i].0), items[i].1))
  }

  function AllAttachments(mail: seq<Mail>): Entries<(string, nat), (nat, nat)> {
    if mail == [] then []
    else
      var last := mail[|mail| - 1];
      AllAttachments(mail[..|mail| - 1]) + UnderUuid(last.uuid, last.attachments)
  }

  /** A message's uuid is part of its key, so none may come twice. */
  predicate DistinctUuids(mail: seq<Mail>) {
    forall i, j | 0 <= i < j < |mail| :: mail[i].uuid != mail[j].uuid
  }

  function SavedMail(t: MailTables, accounts: set<Account>, account: Account, mail: seq<Mail>): Option<MailTables> {
    var headers := Saved(t.mail, accounts, account, Headers(mail));
    var attachments := Saved(t.attachments, accounts, account, AllAttachments(mail));
    if !DistinctUuids(mail) || headers.None? || attachments.None? then None
    else Some(MailTables(headers.value, attachments.value))
  }

  ghost predicate MailAnswers(rows: MailRows, t: MailTables, la: Order<Account>, lu: Order<(string, nat)>) {
    Answers(rows.mail, t.mail, la, NatOrder()) && Answers(rows.attachments, t.attachments, la, lu)
  }

  /** The attachments read for one message, in the order they were read. */
  function AttachedTo(entries: Entries<(string, nat), (nat, nat)>, uuid: string): seq<Item> {
    if entries == [] then []
    else
      var last := entries[|entries| - 1];
      AttachedTo(entries[..|entries| - 1], uuid) + if last.0.0 == uuid then [(last.0.1, last.1)] else []
  }

  function WithAttachments(header: Header, entries: Entries<(string, nat), (nat, nat)>): Mail {
    Mail(header.uuid, header.subject, header.body, header.flags, AttachedTo(entries, header.uuid))
  }

  function LoadedMail(rows: MailRows, account: Account): (r: seq<Mail>)
    ensures |r| == |RowsOf(rows.mail, account)|
  {
    var headers, entries := RowsOf(rows.mail, account), RowsOf(rows.attachments, account);
    seq(|headers|, i requires 0 <= i < |headers| => WithAttachments(headers[i].1, entries))
  }

  /** No two of an account's messages have one uuid: it is part of their table's key. */
  predicate UuidsApart(headers: Entries<nat, Header>) {
    forall i, j | 0 <= i < j < |headers| :: headers[i].1.uuid != headers[j].1.uuid
  }

  /** The messages while their attachments are being read. */
  ghost predicate PartlyRead(mail: seq<Mail>, headers: Entries<nat, Header>, entries: Entries<(string, nat), (nat, nat)>) {
    |mail| == |headers| && forall k | 0 <= k < |mail| :: mail[k] == WithAttachments(headers[k].1, entries)
  }

  /** Give one attachment row to the message it names, if there is one. */
  method Attach(mail: seq<Mail>, ghost headers: Entries<nat, Header>, ghost entries: Entries<(string, nat), (nat, nat)>,
                key: (string, nat), value: (nat, nat)) returns (after: seq<Mail>)
    requires PartlyRead(mail, headers, entries) && UuidsApart(headers)
    ensures PartlyRead(after, headers, entries + [(key, value)])
  {
    AttachedNext(entries, key, value);
    var at := FirstWith(mail, key.0);
    if at.None? {
      return mail;
    }
    var m := mail[at.value];
    after := mail[at.value := m.(attachments := m.attachments + [(key.1, value)])];
  }

  type Inboxes = seq<(Account, seq<Mail>)>

  /** The first inbox of an account, if it has one. */
  function InboxAt<T>(inboxes: seq<(Account, T)>, account: Account): (at: Option<nat>)
    ensures at.Some? ==> at.value < |inboxes| && inboxes[at.value].0 == account
    ensures at.None? ==> forall k | 0 <= k < |inboxes| :: inboxes[k].0 != account
  {
    if inboxes == [] then None
    else
      var before := InboxAt(inboxes[..|inboxes| - 1], account);
      if before.Some? then before
      else if inboxes[|inboxes| - 1].0 == account then Some(|inboxes| - 1)
      else None
  }

  /** The inboxes while their attachments are being read: one for each group of headers, in order. */
  ghost predicate PartlyLoaded(inboxes: Inboxes, groups: seq<(Account, Entries<nat, Header>)>, read: seq<Row<(string, nat), (nat, nat)>>) {
    |inboxes| == |groups| && forall g | 0 <= g < |groups| ::
      inboxes[g].0 == groups[g].0 && PartlyRead(inboxes[g].1, groups[g].1, RowsOf(read, groups[g].0))
  }

  ghost predicate OneGroupEach(groups: seq<(Account, Entries<nat, Header>)>) {
    forall g, h | 0 <= g < h < |groups| :: groups[g].0 != groups[h].0
  }

  ghost predicate AllApart(groups: seq<(Account, Entries<nat, Header>)>) {
    forall g | 0 <= g < |groups| :: UuidsApart(groups[g].1)
  }

  /** One attachment row goes to the message it names in its account's inbox, if both are there. */
  method AttachRow(inboxes: Inboxes, ghost groups: seq<(Account, Entries<nat, Header>)>,
                   rows: seq<Row<(string, nat), (nat, nat)>>, i: nat) returns (after: Inboxes)
    requires i < |rows| && PartlyLoaded(inboxes, groups, rows[..i]) && OneGroupEach(groups) && AllApart(groups)
    ensures PartlyLoaded(after, groups, rows[..i + 1])
  {
    hide RowsOf, PartlyRead, UuidsApart;
    RowsOfNext(rows, i);
    var (account, key, value) := rows[i];
    var at := InboxAt(inboxes, account);
    if at.None? {
      return inboxes;
    }
    var mail := Attach(inboxes[at.value].1, groups[at.value].1, RowsOf(rows[..i], account), key, value);
    after := inboxes[at.value := (account, mail)];
  }

  /** Read every message into its account's inbox, in one pass. */
  method LoadHeaders(rows: seq<Row<nat, Header>>) returns (inboxes: Inboxes)
    ensures PartlyLoaded(inboxes, Grouped(rows), [])
  {
    inboxes := [];
    for i := 0 to |rows|
      invariant PartlyLoaded(inboxes, Grouped(rows[..i]), [])
    {
      assert rows[..i + 1][..i] == rows[..i];
      var (account, ordinal, header) := rows[i];
      var message, n := WithAttachments(header, []), |inboxes|;
      if n > 0 && inboxes[n - 1].0 == account {
        inboxes := inboxes[n - 1 := (account, inboxes[n - 1].1 + [message])];
      } else {
        inboxes := inboxes + [(account, [message])];
      }
    }
    assert rows[..|rows|] == rows;
  }

  /** Every account's inbox: its messages in order, then each attachment row given to the message it names. */
  method LoadMail(rows: MailRows, ghost t: MailTables, ghost la: Order<Account>, ghost lu: Order<(string, nat)>)
    returns (inboxes: Inboxes)
    requires StrictOrder(la) && MailAnswers(rows, t, la, lu) && forall a: Account :: UuidsApart(RowsOf(rows.mail, a))
    ensures forall a: Account ::
      (match InboxAt(inboxes, a) case Some(at) => inboxes[at].1 case None => []) == LoadedMail(rows, a)
  {
    ghost var groups := Grouped(rows.mail);
    GroupsAreApart(rows.mail, la);
    inboxes := LoadHeaders(rows.mail);
    for i := 0 to |rows.attachments|
      invariant PartlyLoaded(inboxes, groups, rows.attachments[..i])
    {
      inboxes := AttachRow(inboxes, groups, rows.attachments, i);
    }
    assert rows.attachments[..|rows.attachments|] == rows.attachments;
    forall a: Account
      ensures (match InboxAt(inboxes, a) case Some(at) => inboxes[at].1 case None => []) == LoadedMail(rows, a)
    {
      InboxIsLoaded(inboxes, rows, la, a);
    }
  }

  lemma GroupsAreApart(rows: seq<Row<nat, Header>>, la: Order<Account>)
    requires StrictOrder(la) && InOrder(rows, la, NatOrder()) && forall a: Account :: UuidsApart(RowsOf(rows, a))
    ensures OneGroupEach(Grouped(rows)) && AllApart(Grouped(rows))
    ensures forall g | 0 <= g < |Grouped(rows)| :: Grouped(rows)[g].1 == RowsOf(rows, Grouped(rows)[g].0)
  {
    OrdersAreStrict();
    var groups := Grouped(rows);
    GroupedIs(rows, la, NatOrder(), "");
    hide InOrder;
    assert OneGroupEach(groups);
    forall g | 0 <= g < |groups| ensures groups[g].1 == RowsOf(rows, groups[g].0) {
      GroupedIs(rows, la, NatOrder(), groups[g].0);
      FoundAt(groups, g);
    }
    hide Grouped, RowsOf, UuidsApart;
  }

  /** A group is what is found for its account, when no other group is that account's. */
  lemma {:induction false} FoundAt(groups: seq<(Account, Entries<nat, Header>)>, g: nat)
    requires g < |groups| && OneGroupEach(groups)
    ensures Found(groups, groups[g].0) == groups[g].1
  {
    if g < |groups| - 1 {
      FoundAt(groups[..|groups| - 1], g);
    }
  }

  lemma NoInbox(inboxes: Inboxes, rows: MailRows, la: Order<Account>, a: Account)
    requires StrictOrder(la) && InOrder(rows.mail, la, NatOrder())
    requires PartlyLoaded(inboxes, Grouped(rows.mail), rows.attachments) && InboxAt(inboxes, a).None?
    ensures LoadedMail(rows, a) == []
  {
    var groups := Grouped(rows.mail);
    OrdersAreStrict();
    GroupedIs(rows.mail, la, NatOrder(), a);
    hide Grouped, RowsOf, InOrder, Found, PartlyRead, StrictOrder;
    forall g | g in groups ensures g.0 != a {
      var k :| 0 <= k < |groups| && groups[k] == g;
      assert inboxes[k].0 == g.0;
    }
    NotFound(groups, a);
  }

  lemma InboxIsLoaded(inboxes: Inboxes, rows: MailRows, la: Order<Account>, a: Account)
    requires StrictOrder(la) && InOrder(rows.mail, la, NatOrder()) && forall a: Account :: UuidsApart(RowsOf(rows.mail, a))
    requires PartlyLoaded(inboxes, Grouped(rows.mail), rows.attachments)
    ensures (match InboxAt(inboxes, a) case Some(at) => inboxes[at].1 case None => []) == LoadedMail(rows, a)
  {
    if InboxAt(inboxes, a).None? {
      NoInbox(inboxes, rows, la, a);
    } else {
      GroupsAreApart(rows.mail, la);
      hide Grouped, RowsOf, InOrder, StrictOrder, AttachedTo, UuidsApart, OneGroupEach, AllApart;
    }
  }

  function FirstWith(mail: seq<Mail>, uuid: string): (at: Option<nat>)
    ensures at.Some? ==> at.value < |mail| && mail[at.value].uuid == uuid
    ensures at.None? ==> forall k | 0 <= k < |mail| :: mail[k].uuid != uuid
  {
    if mail == [] then None
    else
      var before := FirstWith(mail[..|mail| - 1], uuid);
      if before.Some? then before
      else if mail[|mail| - 1].uuid == uuid then Some(|mail| - 1)
      else None
  }

  lemma AttachedNext(entries: Entries<(string, nat), (nat, nat)>, key: (string, nat), value: (nat, nat))
    ensures AttachedTo(entries + [(key, value)], key.0) == AttachedTo(entries, key.0) + [(key.1, value)]
    ensures forall uuid: string | uuid != key.0 :: AttachedTo(entries + [(key, value)], uuid) == AttachedTo(entries, uuid)
  {
    assert (entries + [(key, value)])[..|entries|] == entries;
  }

  /** Attachments are read by message, and by slot within one. */
  ghost predicate BySlot(lu: Order<(string, nat)>) {
    StrictOrder(lu) && forall uuid: string, a: nat, b: nat :: lu((uuid, a), (uuid, b)) <==> a < b
  }

  lemma {:induction false} AttachedIs(entries: Entries<(string, nat), (nat, nat)>, lu: Order<(string, nat)>, uuid: string)
    requires BySlot(lu) && Increasing(entries, lu)
    ensures Increasing(AttachedTo(entries, uuid), NatOrder())
    ensures forall slot: nat, v: (nat, nat) :: (slot, v) in AttachedTo(entries, uuid) <==> ((uuid, slot), v) in entries
  {
    if entries != [] {
      var n := |entries| - 1;
      AttachedIs(entries[..n], lu, uuid);
      var before, last := AttachedTo(entries[..n], uuid), entries[n];
      assert entries == entries[..n] + [last];
      if last.0.0 == uuid {
        forall i | 0 <= i < |before| ensures before[i].0 < last.0.1 {
          assert before[i] in before;
          var j :| 0 <= j < n && entries[j] == ((uuid, before[i].0), before[i].1);
          assert lu(entries[j].0, last.0);
        }
      }
    }
  }

  lemma UnderUuidHas(uuid: string, items: seq<Item>, key: (string, nat), v: (nat, nat))
    ensures (key, v) in UnderUuid(uuid, items) <==> key.0 == uuid && (key.1, v) in items
  {
    var rows := UnderUuid(uuid, items);
    if (key, v) in rows {
      var i :| 0 <= i < |rows| && rows[i] == (key, v);
      assert items[i] == (key.1, v);
    }
    if key.0 == uuid && (key.1, v) in items {
      var i :| 0 <= i < |items| && items[i] == (key.1, v);
      assert rows[i] == (key, v);
    }
  }

  /** An attachment row belongs to the one message with its uuid. */
  lemma {:induction false} AllAttachmentsHave(mail: seq<Mail>, i: nat, slot: nat, v: (nat, nat))
    requires DistinctUuids(mail) && i < |mail|
    ensures ((mail[i].uuid, slot), v) in AllAttachments(mail) <==> (slot, v) in mail[i].attachments
  {
    var n := |mail| - 1;
    UnderUuidHas(mail[n].uuid, mail[n].attachments, (mail[i].uuid, slot), v);
    if i < n {
      AllAttachmentsHave(mail[..n], i, slot, v);
    } else {
      NotAttached(mail[..n], mail[i].uuid, slot, v);
    }
  }

  lemma {:induction false} NotAttached(mail: seq<Mail>, uuid: string, slot: nat, v: (nat, nat))
    requires forall i | 0 <= i < |mail| :: mail[i].uuid != uuid
    ensures ((uuid, slot), v) !in AllAttachments(mail)
  {
    if mail != [] {
      var n := |mail| - 1;
      NotAttached(mail[..n], uuid, slot, v);
      UnderUuidHas(mail[n].uuid, mail[n].attachments, (uuid, slot), v);
    }
  }

  lemma HeadersIncrease(mail: seq<Mail>)
    ensures Increasing(Headers(mail), NatOrder())
  {
  }

  lemma AttachmentsBack(mail: seq<Mail>, i: nat, listed: Entries<(string, nat), (nat, nat)>, lu: Order<(string, nat)>)
    requires DistinctUuids(mail) && i < |mail| && BySlot(lu) && Increasing(listed, lu)
    requires forall k: (string, nat), v: (nat, nat) :: (k, v) in listed <==> (k, v) in AllAttachments(mail)
    ensures AttachedTo(listed, mail[i].uuid) == mail[i].attachments <==> Increasing(mail[i].attachments, NatOrder())
  {
    var uuid := mail[i].uuid;
    AttachedIs(listed, lu, uuid);
    OrdersAreStrict();
    forall slot: nat, v: (nat, nat) ensures (slot, v) in AttachedTo(listed, uuid) <==> (slot, v) in mail[i].attachments {
      AllAttachmentsHave(mail, i, slot, v);
      assert ((uuid, slot), v) in listed <==> ((uuid, slot), v) in AllAttachments(mail);
    }
    hide Increasing, AttachedTo, AllAttachments, DistinctUuids, BySlot;
    if Increasing(mail[i].attachments, NatOrder()) {
      ListingUnique(AttachedTo(listed, uuid), mail[i].attachments, NatOrder());
    }
  }

  /**
    An inbox is loaded in its own order, each message with its own attachments, exactly as it was
    saved if and only if every message had its attachments in slot order.
   */
  lemma MailRoundTrip(
    t: MailTables, rows: MailRows, accounts: set<Account>, account: Account, mail: seq<Mail>, after: MailRows,
    la: Order<Account>, lu: Order<(string, nat)>, other: Account)
    requires StrictOrder(la) && BySlot(lu) && MailAnswers(rows, t, la, lu) && SavedMail(t, accounts, account, mail).Some?
    requires MailAnswers(after, SavedMail(t, accounts, account, mail).value, la, lu)
    ensures LoadedMail(after, account) == mail
       <==> forall i | 0 <= i < |mail| :: Increasing(mail[i].attachments, NatOrder())
    ensures other != account ==> LoadedMail(after, other) == LoadedMail(rows, other)
    ensures UuidsApart(RowsOf(after.mail, account))
  {
    hide RowsOf, Saved, Answers, StrictOrder, Increasing, AttachedTo, AllAttachments, DistinctUuids;
    OrdersAreStrict();
    SlotsAreStrict(lu);
    RowsAfterSave(t.mail, rows.mail, accounts, account, Headers(mail), after.mail, la, NatOrder());
    RowsAfterSave(t.attachments, rows.attachments, accounts, account, AllAttachments(mail), after.attachments, la, lu);
    HeadersIncrease(mail);
    var listed := RowsOf(after.attachments, account);
    forall i | 0 <= i < |mail|
      ensures AttachedTo(listed, mail[i].uuid) == mail[i].attachments <==> Increasing(mail[i].attachments, NatOrder())
    {
      AttachmentsBack(mail, i, listed, lu);
    }
    HeadersApart(mail);
    var loaded := LoadedMail(after, account);
    assert forall i | 0 <= i < |mail| :: loaded[i] == WithAttachments(HeaderOf(mail[i]), listed);
    assert forall i | 0 <= i < |mail| :: loaded[i] == mail[i] <==> Increasing(mail[i].attachments, NatOrder());
  }

  lemma SlotsAreStrict(lu: Order<(string, nat)>)
    requires BySlot(lu)
    ensures StrictOrder(lu)
  {
  }

  lemma HeadersApart(mail: seq<Mail>)
    requires DistinctUuids(mail)
    ensures UuidsApart(Headers(mail))
  {
  }

  lemma NothingRegroups()
    ensures Regrouped<Option<nat>>([]) == []
  {
  }

  lemma NoNumbers(list: seq<nat>)
    ensures Numbered(list) == [] <==> list == []
  {
  }
}
