/**
  The store: rows keyed by account, what one change makes of them, and what a load of the whole
  database gives back.
 */
module Database {
  import opened Wrappers
  import opened Stored
  import opened Tables
  import opened StoredRows
  import Appearance
  import BitStream
  import Bits

  datatype Character = Character(uuid: string, name: string, homeBiome: Option<string>, appearance: Appearance.CustomisationData)

  datatype AccountRecord = AccountRecord(displayName: string, character: Option<Character>)

  datatype Change =
    | SetAccount(key: Account, displayName: string)
    | SetCharacter(account: Account, character: Character)
    | DropCharacter(account: Account)
    | SetPhoto(id: string, photo: Photo)
    | SetInventory(account: Account, items: seq<Item>)
    | SetHotbar(account: Account, bindings: seq<Binding>)
    | SetBlock(voxel: Voxel, material: nat)
    | SetDevice(device: Device)
    | SetTitle(title: string)
    | SetProgress(account: Account, progress: Progress)
    | SetMail(account: Account, mail: seq<Mail>)

  /** A character's row: the appearance is kept as its own bytes. */
  datatype CharacterRow = CharacterRow(uuid: string, name: string, homeBiome: Option<string>, appearance: seq<Bits.byte>)

  /** The tables that hold lists, all keyed by account. */
  datatype Lists = Lists(
    inventories: Table<nat, (nat, nat)>, hotbars: Table<(nat, nat), nat>, mail: MailTables, progress: ProgressTables)

  datatype Store = Store(
    names: map<Account, string>, characters: map<Account, CharacterRow>, photos: map<string, Photo>,
    blocks: map<Voxel, nat>, devices: map<(nat, nat, nat), Device>, title: Option<string>, lists: Lists)

  // --- one change ---

  function RowOf(c: Character): CharacterRow {
    CharacterRow(c.uuid, c.name, c.homeBiome, BitStream.Packed(Appearance.EncAppearance(c.appearance)))
  }

  /** The save of a list: all of its rows, or none. */
  function Listed(t: Lists, accounts: set<Account>, c: Change): Option<Lists> {
    match c
    case SetInventory(account, items) =>
      var saved := Saved(t.inventories, accounts, account, items);
      if saved.None? then None else Some(t.(inventories := saved.value))
    case SetHotbar(account, bindings) =>
      var saved := Saved(t.hotbars, accounts, account, bindings);
      if saved.None? then None else Some(t.(hotbars := saved.value))
    case SetMail(account, mail) =>
      var saved := SavedMail(t.mail, accounts, account, mail);
      if saved.None? then None else Some(t.(mail := saved.value))
    case SetProgress(account, progress) =>
      var saved := SavedProgress(t.progress, accounts, account, progress);
      if saved.None? then None else Some(t.(progress := saved.value))
    case _ => Some(t)
  }

  /** The rows of a change are refused for an account that is not there, or for a key that comes twice. */
  predicate Refused(s: Store, c: Change) {
    (c.SetCharacter? && c.account !in s.names) || Listed(s.lists, s.names.Keys, c).None?
  }

  /** A failed write is logged and passed over; the writer goes on with the next change. */
  function Applied(s: Store, c: Change): Store {
    if Refused(s, c) then s
    else
      match c
      case SetAccount(key, displayName) => s.(names := s.names[key := displayName])
      case SetCharacter(account, character) => s.(characters := s.characters[account := RowOf(character)])
      case DropCharacter(account) => s.(characters := s.characters - {account})
      case SetPhoto(id, photo) => s.(photos := s.photos[id := photo])
      case SetBlock(voxel, material) => s.(blocks := s.blocks[voxel := material])
      case SetDevice(device) => s.(devices := s.devices[device.position := device])
      case SetTitle(title) => s.(title := Some(title))
      case _ => s.(lists := Listed(s.lists, s.names.Keys, c).value)
  }

  function AppliedAll(s: Store, log: seq<Change>): Store {
    if log == [] then s else Applied(AppliedAll(s, log[..|log| - 1]), log[|log| - 1])
  }

  // --- a load ---

  /** Text compares by its characters, first difference first. */
  predicate Precedes(a: string, b: string) {
    b != [] && (a == [] || a[0] < b[0] || (a[0] == b[0] && Precedes(a[1..], b[1..])))
  }

  function TextOrder(): Order<string> { (a: string, b: string) => Precedes(a, b) }

  function AttachmentOrder(): Order<(string, nat)> {
    (a: (string, nat), b: (string, nat)) => Precedes(a.0, b.0) || (a.0 == b.0 && a.1 < b.1)
  }

  lemma {:induction false} PrecedesTotal(a: string, b: string)
    ensures !Precedes(a, a) && (a == b || Precedes(a, b) || Precedes(b, a))
  {
    if a != [] && b != [] {
      PrecedesTotal(a[1..], b[1..]);
      assert a == [a[0]] + a[1..] && b == [b[0]] + b[1..];
    } else if a != [] {
      PrecedesTotal(a[1..], b);
    }
  }

  lemma {:induction false} PrecedesTransitive(a: string, b: string, c: string)
    requires Precedes(a, b) && Precedes(b, c)
    ensures Precedes(a, c)
  {
    if a != [] && a[0] == b[0] && b[0] == c[0] {
      PrecedesTransitive(a[1..], b[1..], c[1..]);
    }
  }

  lemma OrdersOfText()
    ensures StrictOrder(TextOrder()) && BySlot(AttachmentOrder())
    ensures StrictOrder(NatOrder()) && StrictOrder(PairOrder())
  {
    OrdersAreStrict();
    forall a: string, b: string ensures !Precedes(a, a) && (a == b || Precedes(a, b) || Precedes(b, a)) {
      PrecedesTotal(a, b);
    }
    forall a: string, b: string, c: string | Precedes(a, b) && Precedes(b, c) ensures Precedes(a, c) {
      PrecedesTransitive(a, b, c);
    }
    hide Precedes;
  }

  /** What the queries for the lists answer, each table in the order of its key. */
  datatype ListRows = ListRows(
    inventories: seq<Row<nat, (nat, nat)>>, hotbars: seq<Row<(nat, nat), nat>>, mail: MailRows, progress: ProgressRows)

  ghost predicate Answered(rows: ListRows, t: Lists) {
    Answers(rows.inventories, t.inventories, TextOrder(), NatOrder())
    && Answers(rows.hotbars, t.hotbars, TextOrder(), PairOrder())
    && MailAnswers(rows.mail, t.mail, TextOrder(), AttachmentOrder())
    && ProgressAnswers(rows.progress, t.progress, TextOrder())
  }

  /** What is kept beside an account's character. */
  datatype Kept = Kept(items: seq<Item>, bindings: seq<Binding>, mail: seq<Mail>, progress: Progress)

  /** One account's lists in a load that was given these rows. */
  function Loaded(rows: ListRows, a: Account): Kept {
    Kept(Found(Grouped(rows.inventories), a), Found(Grouped(rows.hotbars), a),
         LoadedMail(rows.mail, a), LoadedProgress(rows.progress, a))
  }

  function LoadedAppearance(bytes: seq<Bits.byte>): Option<Appearance.CustomisationData> {
    match Appearance.ReadAppearance(BitStream.BufferBits(bytes, 8 * |bytes|), 0)
    case Got(value, _) => Some(value)
    case Failed(_, _) => None
  }

  /** An account and its character, if it has one; nothing when the appearance does not decode. */
  function LoadedAccount(s: Store, a: Account): Option<AccountRecord>
    requires a in s.names
  {
    if a !in s.characters then Some(AccountRecord(s.names[a], None))
    else
      var row := s.characters[a];
      match LoadedAppearance(row.appearance)
      case None => None
      case Some(appearance) =>
        Some(AccountRecord(s.names[a], Some(Character(row.uuid, row.name, row.homeBiome, appearance))))
  }

  // --- every table has its rows, and only one listing of them ---

  predicate KeyBefore<K>(la: Order<Account>, lt: Order<K>, j: (Account, K), k: (Account, K)) {
    la(j.0, k.0) || (j.0 == k.0 && lt(j.1, k.1))
  }

  lemma {:induction false} LastKey<K(!new)>(keys: set<(Account, K)>, la: Order<Account>, lt: Order<K>) returns (last: (Account, K))
    requires Orders(la, lt) && keys != {}
    ensures last in keys && forall k | k in keys && k != last :: KeyBefore(la, lt, k, last)
    decreases |keys|
  {
    hide KeyBefore, Orders;
    var first :| first in keys;
    var rest := keys - {first};
    assert forall k | k in keys && k != first :: k in rest;
    last := first;
    if rest != {} {
      var best := LastKey(rest, la, lt);
      if KeyBefore(la, lt, first, best) {
        last := best;
      } else {
        forall k | k in keys && k != first ensures KeyBefore(la, lt, k, first) {
          KeyFollows(la, lt, k, best, first);
        }
      }
    }
  }

  lemma KeyFollows<K(!new)>(la: Order<Account>, lt: Order<K>, k: (Account, K), best: (Account, K), last: (Account, K))
    requires Orders(la, lt) && best != last && !KeyBefore(la, lt, last, best)
    requires k == best || KeyBefore(la, lt, k, best)
    ensures KeyBefore(la, lt, k, last)
  {
    assert KeyBefore(la, lt, best, last);
  }

  lemma {:induction false} RowsExist<K(!new), V(!new)>(t: Table<K, V>, la: Order<Account>, lt: Order<K>) returns (rows: seq<Row<K, V>>)
    requires Orders(la, lt)
    ensures Answers(rows, t, la, lt)
    decreases |t|
  {
    if t == map[] {
      rows := [];
    } else {
      var last := LastKey(t.Keys, la, lt);
      var rest := t - {last};
      assert |rest.Keys| < |t.Keys| by {
        assert rest.Keys == t.Keys - {last};
      }
      var before := RowsExist(rest, la, lt);
      rows := before + [(last.0, last.1, t[last])];
      forall i | 0 <= i < |before| ensures Before(la, lt, before[i], rows[|before|]) {
        assert (before[i].0, before[i].1, before[i].2) in before;
      }
    }
  }

  lemma SomeAnswer(t: Lists)
    ensures exists rows :: Answered(rows, t)
  {
    OrdersOfText();
    hide StrictOrder, Answers;
    SlotsAreStrict(AttachmentOrder());
    var inventories := RowsExist(t.inventories, TextOrder(), NatOrder());
    var hotbars := RowsExist(t.hotbars, TextOrder(), PairOrder());
    var headers := RowsExist(t.mail.mail, TextOrder(), NatOrder());
    var attachments := RowsExist(t.mail.attachments, TextOrder(), AttachmentOrder());
    var details := RowsExist(t.progress.details, TextOrder(), NatOrder());
    var materials := RowsExist(t.progress.materials, TextOrder(), PairOrder());
    var minted := RowsExist(t.progress.minted, TextOrder(), NatOrder());
    var recipes := RowsExist(t.progress.recipes, TextOrder(), NatOrder());
    assert Answered(ListRows(inventories, hotbars, MailRows(headers, attachments),
                             ProgressRows(details, materials, minted, recipes)), t);
  }

  ghost function RowsIn(t: Lists): (rows: ListRows)
    ensures Answered(rows, t)
  {
    SomeAnswer(t);
    var rows :| Answered(rows, t);
    rows
  }

  /** What a load finds of an account. */
  ghost function Held(t: Lists, a: Account): Kept { Loaded(RowsIn(t), a) }

  lemma RowsOnce<K(!new), V(!new)>(
    t: Table<K, V>, rows: seq<Row<K, V>>, other: seq<Row<K, V>>, la: Order<Account>, lt: Order<K>, a: Account)
    requires Orders(la, lt) && Answers(rows, t, la, lt) && Answers(other, t, la, lt)
    ensures RowsOf(rows, a) == RowsOf(other, a)
    ensures Found(Grouped(rows), a) == Found(Grouped(other), a)
  {
    RowsOfIs(rows, la, lt, a);
    RowsOfIs(other, la, lt, a);
    GroupedIs(rows, la, lt, a);
    GroupedIs(other, la, lt, a);
    hide RowsOf, Grouped, Found, InOrder, Increasing;
    ListingUnique(RowsOf(rows, a), RowsOf(other, a), lt);
  }

  lemma MailOnce(t: MailTables, rows: MailRows, other: MailRows, a: Account)
    requires MailAnswers(rows, t, TextOrder(), AttachmentOrder()) && MailAnswers(other, t, TextOrder(), AttachmentOrder())
    ensures LoadedMail(rows, a) == LoadedMail(other, a)
  {
    OrdersOfText();
    SlotsAreStrict(AttachmentOrder());
    hide StrictOrder, Answers, RowsOf, Grouped, Found;
    RowsOnce(t.mail, rows.mail, other.mail, TextOrder(), NatOrder(), a);
    RowsOnce(t.attachments, rows.attachments, other.attachments, TextOrder(), AttachmentOrder(), a);
  }

  lemma ProgressOnce(t: ProgressTables, rows: ProgressRows, other: ProgressRows, a: Account)
    requires ProgressAnswers(rows, t, TextOrder()) && ProgressAnswers(other, t, TextOrder())
    ensures LoadedProgress(rows, a) == LoadedProgress(other, a)
  {
    OrdersOfText();
    hide StrictOrder, Answers, RowsOf, Grouped, Found, Regrouped;
    RowsOnce(t.details, rows.details, other.details, TextOrder(), NatOrder(), a);
    RowsOnce(t.materials, rows.materials, other.materials, TextOrder(), PairOrder(), a);
    RowsOnce(t.minted, rows.minted, other.minted, TextOrder(), NatOrder(), a);
    RowsOnce(t.recipes, rows.recipes, other.recipes, TextOrder(), NatOrder(), a);
  }

  /** Whatever rows the queries answer, a load finds the same. */
  lemma LoadIsHeld(t: Lists, rows: ListRows, a: Account)
    requires Answered(rows, t)
    ensures Loaded(rows, a) == Held(t, a)
  {
    OrdersOfText();
    hide StrictOrder, Answers, MailAnswers, ProgressAnswers, Grouped, Found, LoadedMail, LoadedProgress;
    var other := RowsIn(t);
    RowsOnce(t.inventories, rows.inventories, other.inventories, TextOrder(), NatOrder(), a);
    RowsOnce(t.hotbars, rows.hotbars, other.hotbars, TextOrder(), PairOrder(), a);
    MailOnce(t.mail, rows.mail, other.mail, a);
    ProgressOnce(t.progress, rows.progress, other.progress, a);
  }

  // --- what a load finds after a change ---

  /** Lists as they come back: in key order, no list of materials empty, each message's uuid its own. */
  ghost predicate WellFormed(c: Change) {
    match c
    case SetCharacter(_, character) => Appearance.Storable(character.appearance)
    case SetInventory(_, items) => Increasing(items, NatOrder())
    case SetHotbar(_, bindings) => Increasing(bindings, PairOrder())
    case SetProgress(_, progress) => Restorable(progress)
    case SetMail(_, mail) => DistinctUuids(mail) && forall i | 0 <= i < |mail| :: Increasing(mail[i].attachments, NatOrder())
    case _ => true
  }

  predicate IsList(c: Change) { c.SetInventory? || c.SetHotbar? || c.SetMail? || c.SetProgress? }

  /** What a change would have an account keep. */
  function Said(was: Kept, c: Change, a: Account): Kept {
    match c
    case SetInventory(account, items) => if account == a then was.(items := items) else was
    case SetHotbar(account, bindings) => if account == a then was.(bindings := bindings) else was
    case SetMail(account, mail) => if account == a then was.(mail := mail) else was
    case SetProgress(account, progress) => if account == a then was.(progress := progress) else was
    case _ => was
  }

  lemma InventoryHeld(t: Lists, accounts: set<Account>, c: Change, a: Account)
    requires c.SetInventory? && Listed(t, accounts, c).Some?
    ensures var after := Held(Listed(t, accounts, c).value, a);
      (a != c.account ==> after == Held(t, a))
      && (after == Said(Held(t, a), c, a) <==> a != c.account || WellFormed(c))
  {
    OrdersOfText();
    var next := Listed(t, accounts, c).value;
    var (rows, after) := (RowsIn(t), RowsIn(next));
    hide StrictOrder, Answers, MailAnswers, ProgressAnswers, Grouped, Found, LoadedMail, LoadedProgress, RowsIn;
    hide Saved, Increasing;
    LoadAfterSave(t.inventories, rows.inventories, accounts, c.account, c.items, after.inventories, TextOrder(), NatOrder());
    RowsOnce(t.hotbars, rows.hotbars, after.hotbars, TextOrder(), PairOrder(), a);
    MailOnce(t.mail, rows.mail, after.mail, a);
    ProgressOnce(t.progress, rows.progress, after.progress, a);
  }

  lemma HotbarHeld(t: Lists, accounts: set<Account>, c: Change, a: Account)
    requires c.SetHotbar? && Listed(t, accounts, c).Some?
    ensures var after := Held(Listed(t, accounts, c).value, a);
      (a != c.account ==> after == Held(t, a))
      && (after == Said(Held(t, a), c, a) <==> a != c.account || WellFormed(c))
  {
    OrdersOfText();
    var next := Listed(t, accounts, c).value;
    var (rows, after) := (RowsIn(t), RowsIn(next));
    hide StrictOrder, Answers, MailAnswers, ProgressAnswers, Grouped, Found, LoadedMail, LoadedProgress, RowsIn;
    hide Saved, Increasing;
    LoadAfterSave(t.hotbars, rows.hotbars, accounts, c.account, c.bindings, after.hotbars, TextOrder(), PairOrder());
    RowsOnce(t.inventories, rows.inventories, after.inventories, TextOrder(), NatOrder(), a);
    MailOnce(t.mail, rows.mail, after.mail, a);
    ProgressOnce(t.progress, rows.progress, after.progress, a);
  }

  lemma MailHeld(t: Lists, accounts: set<Account>, c: Change, a: Account)
    requires c.SetMail? && Listed(t, accounts, c).Some?
    ensures var after := Held(Listed(t, accounts, c).value, a);
      (a != c.account ==> after == Held(t, a))
      && (after == Said(Held(t, a), c, a) <==> a != c.account || WellFormed(c))
  {
    OrdersOfText();
    var next := Listed(t, accounts, c).value;
    var (rows, after) := (RowsIn(t), RowsIn(next));
    assert DistinctUuids(c.mail);
    hide StrictOrder, Answers, MailAnswers, ProgressAnswers, Grouped, Found, LoadedMail, LoadedProgress, RowsIn;
    hide SavedMail, Increasing, BySlot, DistinctUuids;
    MailRoundTrip(t.mail, rows.mail, accounts, c.account, c.mail, after.mail, TextOrder(), AttachmentOrder(), a);
    RowsOnce(t.inventories, rows.inventories, after.inventories, TextOrder(), NatOrder(), a);
    RowsOnce(t.hotbars, rows.hotbars, after.hotbars, TextOrder(), PairOrder(), a);
    ProgressOnce(t.progress, rows.progress, after.progress, a);
  }

  lemma ProgressHeld(t: Lists, accounts: set<Account>, c: Change, a: Account)
    requires c.SetProgress? && Listed(t, accounts, c).Some?
    ensures var after := Held(Listed(t, accounts, c).value, a);
      (a != c.account ==> after == Held(t, a))
      && (after == Said(Held(t, a), c, a) <==> a != c.account || WellFormed(c))
  {
    OrdersOfText();
    var next := Listed(t, accounts, c).value;
    var (rows, after) := (RowsIn(t), RowsIn(next));
    hide StrictOrder, Answers, MailAnswers, ProgressAnswers, Grouped, Found, LoadedMail, LoadedProgress, RowsIn;
    hide SavedProgress, Restorable;
    ProgressRoundTrip(t.progress, rows.progress, accounts, c.account, c.progress, after.progress, TextOrder(), a);
    RowsOnce(t.inventories, rows.inventories, after.inventories, TextOrder(), NatOrder(), a);
    RowsOnce(t.hotbars, rows.hotbars, after.hotbars, TextOrder(), PairOrder(), a);
    MailOnce(t.mail, rows.mail, after.mail, a);
  }

  /**
    After a list is saved its account loads just that list if and only if the list was well formed;
    its other lists, and every other account, load as they did.
   */
  lemma ListedIsHeld(t: Lists, accounts: set<Account>, c: Change, a: Account)
    requires IsList(c) && Listed(t, accounts, c).Some?
    ensures var after := Held(Listed(t, accounts, c).value, a);
      (a != c.account ==> after == Held(t, a))
      && (after == Said(Held(t, a), c, a) <==> a != c.account || WellFormed(c))
  {
    match c {
      case SetInventory(_, _) => InventoryHeld(t, accounts, c, a);
      case SetHotbar(_, _) => HotbarHeld(t, accounts, c, a);
      case SetMail(_, _) => MailHeld(t, accounts, c, a);
      case SetProgress(_, _) => ProgressHeld(t, accounts, c, a);
    }
  }

  /** A character's row loads as that character if and only if its appearance can be stored. */
  lemma CharacterIsLoaded(s: Store, account: Account, character: Character)
    requires account in s.names
    ensures var after := s.(characters := s.characters[account := RowOf(character)]);
      LoadedAccount(after, account) == Some(AccountRecord(s.names[account], Some(character)))
      <==> Appearance.Storable(character.appearance)
  {
    hide Appearance.ReadAppearance, Appearance.EncAppearance, Appearance.Storable, BitStream.Packed, BitStream.BufferBits;
    Appearance.StoredComesBack(character.appearance);
  }

  // --- what is refused ---

  /** The account a change has rows for, if it has any. */
  function Concerns(c: Change): Option<Account> {
    match c
    case SetCharacter(account, _) => Some(account)
    case SetInventory(account, items) => if items == [] then None else Some(account)
    case SetHotbar(account, bindings) => if bindings == [] then None else Some(account)
    case SetProgress(account, progress) => if progress == NOTHING then None else Some(account)
    case SetMail(account, mail) => if mail == [] then None else Some(account)
    case _ => None
  }

  /** A well-formed change is refused exactly when it has rows for an account that is not there. */
  lemma RefusedWhen(s: Store, c: Change)
    requires WellFormed(c)
    ensures Refused(s, c) <==> Concerns(c).Some? && Concerns(c).value !in s.names
  {
    hide Saved, SavedProgress, Increasing, Restorable, DistinctUuids;
    OrdersAreStrict();
    match c {
      case SetInventory(account, items) =>
        SavedIs(s.lists.inventories, s.names.Keys, account, items);
        IncreasingDistinct(items, NatOrder());
      case SetHotbar(account, bindings) =>
        SavedIs(s.lists.hotbars, s.names.Keys, account, bindings);
        IncreasingDistinct(bindings, PairOrder());
      case SetProgress(account, progress) =>
        ProgressRefused(s.lists.progress, s.names.Keys, account, progress);
      case SetMail(account, mail) =>
        SavedIs(s.lists.mail.mail, s.names.Keys, account, Headers(mail));
        SavedIs(s.lists.mail.attachments, s.names.Keys, account, AllAttachments(mail));
        HeadersIncrease(mail);
        IncreasingDistinct(Headers(mail), NatOrder());
        AttachmentsDistinct(mail);
      case _ =>
    }
  }

  lemma UnderUuidDistinct(uuid: string, items: seq<Item>)
    requires Increasing(items, NatOrder())
    ensures DistinctKeys(UnderUuid(uuid, items), |items|)
    ensures forall e | e in UnderUuid(uuid, items) :: e.0.0 == uuid
  {
  }

  lemma JoinedDistinct(before: Entries<(string, nat), (nat, nat)>, mine: Entries<(string, nat), (nat, nat)>, uuid: string)
    requires DistinctKeys(before, |before|) && DistinctKeys(mine, |mine|)
    requires (forall e | e in before :: e.0.0 != uuid) && forall e | e in mine :: e.0.0 == uuid
    ensures DistinctKeys(before + mine, |before + mine|)
  {
    assert forall i | 0 <= i < |before| :: before[i] in before;
    assert forall i | 0 <= i < |mine| :: mine[i] in mine;
  }

  lemma {:induction false} AttachmentsDistinct(mail: seq<Mail>)
    requires DistinctUuids(mail) && forall i | 0 <= i < |mail| :: Increasing(mail[i].attachments, NatOrder())
    ensures DistinctKeys(AllAttachments(mail), |AllAttachments(mail)|) && (mail == [] ==> AllAttachments(mail) == [])
    ensures forall e | e in AllAttachments(mail) :: exists i :: 0 <= i < |mail| && mail[i].uuid == e.0.0
  {
    if mail != [] {
      var n := |mail| - 1;
      AttachmentsDistinct(mail[..n]);
      var before, mine := AllAttachments(mail[..n]), UnderUuid(mail[n].uuid, mail[n].attachments);
      assert AllAttachments(mail) == before + mine;
      UnderUuidDistinct(mail[n].uuid, mail[n].attachments);
      hide AllAttachments, UnderUuid, Increasing, DistinctKeys;
      forall e | e in before ensures e.0.0 != mail[n].uuid && exists i :: 0 <= i < |mail| && mail[i].uuid == e.0.0 {
        var i :| 0 <= i < |mail[..n]| && mail[..n][i].uuid == e.0.0;
        assert mail[i].uuid == e.0.0;
      }
      JoinedDistinct(before, mine, mail[n].uuid);
    }
  }

  /** A list that is refused is never an empty one. */
  lemma NothingIsTaken(t: Lists, accounts: set<Account>, c: Change)
    requires IsList(c) && Concerns(c).None?
    ensures Listed(t, accounts, c).Some?
  {
    assert Flattened<Option<nat>>([]) == [];
    assert Numbered([]) == [] && Headers([]) == [];
    assert AllAttachments([]) == [];
  }

  // --- what an ill-formed list loads as ---

  /** A list of materials with nothing in it leaves no row: it is taken, and does not come back. */
  lemma EmptyMaterialsAreLost(s: Store, account: Account, square: nat)
    requires account in s.names
    ensures var c := SetProgress(account, Progress([], [(square, [])], [], []));
      !Refused(s, c) && !WellFormed(c) && Held(Applied(s, c).lists, account).progress == NOTHING
  {
    var p := Progress([], [(square, [])], [], []);
    var c := SetProgress(account, p);
    NothingFlattened(square);
    assert p.materials[0].1 == [];
    hide Flattened;
    NoneLeft(s.lists.progress, s.names.Keys, account, p);
    hide SavedProgress, ProgressAnswers, LoadedProgress;
    assert Applied(s, c).lists.progress == SavedProgress(s.lists.progress, s.names.Keys, account, p).value;
    assert ProgressAnswers(RowsIn(Applied(s, c).lists).progress, Applied(s, c).lists.progress, TextOrder());
  }

  lemma NothingFlattened(square: nat)
    ensures Flattened<Option<nat>>([(square, [])]) == []
  {
    var materials: seq<(nat, Materials)> := [(square, [])];
    assert materials[..0] == [];
  }

  /** Saving no rows leaves none to read. */
  lemma NoneLeft(t: ProgressTables, accounts: set<Account>, account: Account, p: Progress)
    requires p.details == [] && p.minted == [] && Flattened(p.materials) == [] && p.recipes == []
    ensures SavedProgress(t, accounts, account, p).Some?
    ensures forall rows | ProgressAnswers(rows, SavedProgress(t, accounts, account, p).value, TextOrder()) ::
      LoadedProgress(rows, account) == NOTHING
  {
    assert Numbered(p.recipes) == [];
    forall rows | ProgressAnswers(rows, SavedProgress(t, accounts, account, p).value, TextOrder())
      ensures LoadedProgress(rows, account) == NOTHING
    {
      var after := SavedProgress(t, accounts, account, p).value;
      OrdersOfText();
      hide RowsOf, StrictOrder, Cleared, Answers;
      NoRowOf(t.details, rows.details, account, TextOrder(), NatOrder());
      NoRowOf(t.materials, rows.materials, account, TextOrder(), PairOrder());
      NoRowOf(t.minted, rows.minted, account, TextOrder(), NatOrder());
      NoRowOf(t.recipes, rows.recipes, account, TextOrder(), NatOrder());
      NothingRegrouped();
    }
  }

  lemma NoRowOf<K(!new), V(!new)>(t: Table<K, V>, rows: seq<Row<K, V>>, account: Account, la: Order<Account>, lt: Order<K>)
    requires Orders(la, lt) && Answers(rows, Cleared(t, account), la, lt)
    ensures RowsOf(rows, account) == []
  {
    RowsOfIs(rows, la, lt, account);
    Inhabited(RowsOf(rows, account));
    hide RowsOf, InOrder, Increasing, StrictOrder;
  }

  /** Squares recorded out of order are taken, and come back in order with the same things in them. */
  lemma InventoryComesBackSorted(s: Store, account: Account, items: seq<Item>)
    requires !Refused(s, SetInventory(account, items))
    ensures var back := Held(Applied(s, SetInventory(account, items)).lists, account).items;
      Increasing(back, NatOrder()) && forall item: Item :: item in back <==> item in items
  {
    var c := SetInventory(account, items);
    OrdersOfText();
    var (rows, after) := (RowsIn(s.lists).inventories, RowsIn(Applied(s, c).lists).inventories);
    RowsAfterSave(s.lists.inventories, rows, s.names.Keys, account, items, after, TextOrder(), NatOrder());
    GroupedIs(after, TextOrder(), NatOrder(), account);
    hide Saved, Grouped, Found, RowsOf, StrictOrder, RowsIn;
    var back := Held(Applied(s, c).lists, account).items;
    forall item: Item ensures item in back <==> item in items {
      assert (item.0, item.1) in back <==> (item.0, item.1) in items;
    }
  }
}
