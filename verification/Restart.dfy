/** A restart: the state built from a load of the store, and what it has of the state before. */
module Restarts {
  import opened Wrappers
  import opened Tables
  import opened StoredRows
  import opened Database
  import opened AppStates

  /** The accounts a table's rows name. */
  function Named<K, V>(rows: seq<Row<K, V>>): set<Account> { set i | 0 <= i < |rows| :: rows[i].0 }

  function NamedInProgress(rows: ProgressRows): set<Account> {
    Named(rows.details) + Named(rows.materials) + Named(rows.minted) + Named(rows.recipes)
  }

  /** Every character's appearance decodes, and every character has an account. */
  ghost predicate Loads(s: Store) {
    s.characters.Keys <= s.names.Keys && forall a | a in s.names :: LoadedAccount(s, a).Some?
  }

  /** The state a load leaves in memory: of each list, the accounts that have rows. */
  ghost function StateLoaded(s: Store, rows: ListRows): Durable
    requires Loads(s)
  {
    Durable(map a | a in s.names :: LoadedAccount(s, a).value, s.photos,
            map a | a in Named(rows.inventories) :: Found(Grouped(rows.inventories), a),
            map a | a in Named(rows.hotbars) :: Found(Grouped(rows.hotbars), a),
            map a | a in Named(rows.mail.mail) :: LoadedMail(rows.mail, a),
            map a | a in NamedInProgress(rows.progress) :: LoadedProgress(rows.progress, a),
            s.blocks, s.devices, s.title)
  }

  lemma {:induction false} UnnamedHasNone<K, V>(rows: seq<Row<K, V>>, a: Account)
    requires a !in Named(rows)
    ensures RowsOf(rows, a) == []
  {
    if rows != [] {
      var n := |rows| - 1;
      forall i | 0 <= i < |rows| ensures rows[i].0 != a {
        assert rows[i].0 in Named(rows);
      }
      UnnamedHasNone(rows[..n], a);
    }
  }

  lemma UnnamedFindsNone<K(!new), V(!new)>(t: Table<K, V>, rows: seq<Row<K, V>>, la: Order<Account>, lt: Order<K>, a: Account)
    requires Orders(la, lt) && Answers(rows, t, la, lt) && a !in Named(rows)
    ensures Found(Grouped(rows), a) == []
  {
    UnnamedHasNone(rows, a);
    GroupedIs(rows, la, lt, a);
  }

  lemma UnnamedHasNoMail(rows: MailRows, a: Account)
    requires a !in Named(rows.mail)
    ensures LoadedMail(rows, a) == []
  {
    UnnamedHasNone(rows.mail, a);
    hide RowsOf, Named;
  }

  lemma UnnamedHasNothing(rows: ProgressRows, a: Account)
    requires a !in NamedInProgress(rows)
    ensures LoadedProgress(rows, a) == NOTHING
  {
    UnnamedHasNone(rows.details, a);
    UnnamedHasNone(rows.materials, a);
    UnnamedHasNone(rows.minted, a);
    UnnamedHasNone(rows.recipes, a);
    NothingRegrouped();
    hide RowsOf, Named;
  }

  lemma LoadedKeeps(s: Store, rows: ListRows, a: Account)
    requires Loads(s) && Answered(rows, s.lists)
    ensures KeptFor(StateLoaded(s, rows), a) == Loaded(rows, a)
  {
    hide Loads, Grouped, Found, LoadedMail, LoadedProgress, Answers, StrictOrder, LoadedAccount, Named;
    OrdersOfText();
    if a !in Named(rows.inventories) {
      UnnamedFindsNone(s.lists.inventories, rows.inventories, TextOrder(), NatOrder(), a);
    }
    if a !in Named(rows.hotbars) {
      UnnamedFindsNone(s.lists.hotbars, rows.hotbars, TextOrder(), PairOrder(), a);
    }
    if a !in Named(rows.mail.mail) {
      UnnamedHasNoMail(rows.mail, a);
    }
    if a !in NamedInProgress(rows.progress) {
      UnnamedHasNothing(rows.progress, a);
    }
  }

  /** What a load leaves in memory agrees with the store, whatever rows its queries answered. */
  lemma LoadAgrees(s: Store, rows: ListRows)
    requires Loads(s) && Answered(rows, s.lists)
    ensures Agree(StateLoaded(s, rows), s)
  {
    var d := StateLoaded(s, rows);
    forall a: Account ensures Held(s.lists, a) == KeptFor(d, a) {
      LoadedKeeps(s, rows, a);
      LoadIsHeld(s.lists, rows, a);
    }
    hide Held, KeptFor, Answered, LoadedAccount;
    assert AccountsAgree(d, s);
  }

  lemma AgreeingLoads(d: Durable, s: Store)
    requires Agree(d, s)
    ensures Loads(s)
  {
    hide Held, KeptFor, LoadedAccount;
  }

  /** The same to every reader. */
  ghost predicate ReadsAlike(d: Durable, e: Durable) {
    d.accounts == e.accounts && d.photos == e.photos && d.blocks == e.blocks && d.devices == e.devices && d.title == e.title
    && forall a: Account :: KeptFor(d, a) == KeptFor(e, a)
  }

  lemma TwoAgreeing(d: Durable, e: Durable, s: Store)
    requires Agree(d, s) && Agree(e, s)
    ensures ReadsAlike(d, e)
  {
    hide LoadedAccount, KeptFor, Held;
    assert AccountsAgree(d, s) && AccountsAgree(e, s);
    forall a | a in d.accounts ensures e.accounts[a] == d.accounts[a] {
      assert LoadedAccount(s, a) == Some(d.accounts[a]) == Some(e.accounts[a]);
    }
    assert d.accounts == e.accounts;
    forall a: Account ensures KeptFor(d, a) == KeptFor(e, a) {
      assert Held(s.lists, a) == KeptFor(d, a) == KeptFor(e, a);
    }
  }

  /** Two states that read alike agree with the same stores. */
  lemma AlikeAgree(d: Durable, e: Durable, s: Store)
    requires ReadsAlike(d, e) && Agree(d, s)
    ensures Agree(e, s)
  {
    hide LoadedAccount, KeptFor, Held;
  }

  /**
    Start from a load, make any calls, let the log be written, and start again: everyone reads what
    they would have read, at whatever call the restart comes, if and only if every call kept what it told.
   */
  lemma RestartGivesState(s: Store, rows: ListRows, policy: Policy, calls: seq<Call>)
    requires Loads(s) && Answered(rows, s.lists)
    ensures var d := StateLoaded(s, rows);
      KeepsAll(d, policy, calls)
      <==> forall k | 0 <= k <= |calls| :: ComesBack(Ran(d, policy, calls[..k]), AppliedAll(s, Log(d, policy, calls[..k])))
  {
    var d := StateLoaded(s, rows);
    LoadAgrees(s, rows);
    ReplayGivesState(d, s, policy, calls);
    hide Agree, Ran, Log, AppliedAll, ComesBack, Loads, KeepsAll, Answered, StateLoaded;
    forall k | 0 <= k <= |calls|
      ensures ComesBack(Ran(d, policy, calls[..k]), AppliedAll(s, Log(d, policy, calls[..k])))
         <==> Agree(Ran(d, policy, calls[..k]), AppliedAll(s, Log(d, policy, calls[..k])))
    {
      RestartsWhenAgreeing(Ran(d, policy, calls[..k]), AppliedAll(s, Log(d, policy, calls[..k])));
    }
  }

  /** The store loads, and whatever its queries answer, the state it loads reads like `d`. */
  ghost predicate ComesBack(d: Durable, s: Store) {
    Loads(s) && forall rows | Answered(rows, s.lists) :: ReadsAlike(d, StateLoaded(s, rows))
  }

  lemma RestartsWhenAgreeing(d: Durable, s: Store)
    ensures ComesBack(d, s) <==> Agree(d, s)
  {
    hide Agree, ReadsAlike, Answered, Loads, StateLoaded;
    if ComesBack(d, s) {
      var rows := RowsIn(s.lists);
      LoadAgrees(s, rows);
      Alike(d, StateLoaded(s, rows));
      AlikeAgree(StateLoaded(s, rows), d, s);
    }
    if Agree(d, s) {
      AgreeingLoads(d, s);
      forall rows | Answered(rows, s.lists) ensures ReadsAlike(d, StateLoaded(s, rows)) {
        LoadAgrees(s, rows);
        TwoAgreeing(d, StateLoaded(s, rows), s);
      }
    }
  }

  lemma Alike(d: Durable, e: Durable)
    requires ReadsAlike(d, e)
    ensures ReadsAlike(e, d)
  {
    hide KeptFor;
  }
}
