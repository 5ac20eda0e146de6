/**
  The state the servers share, the log of changes it emits, and what a store that applies the log
  in order comes to hold.
 */
module AppStates {
  import opened Wrappers
  import opened Stored
  import opened Tables
  import opened StoredRows
  import opened Database
  import opened Text
  import Appearance

  datatype Durable = Durable(
    accounts: map<Account, AccountRecord>, photos: map<string, Photo>, inventories: map<Account, seq<Item>>,
    hotbars: map<Account, seq<Binding>>, mail: map<Account, seq<Mail>>, progress: map<Account, Progress>,
    blocks: map<Voxel, nat>, devices: map<(nat, nat, nat), Device>, title: Option<string>)

  datatype LoginError = BadCredentials | NoSuchAccount

  /** Anybody may sign in, or only these accounts, with these passwords. */
  datatype Policy = Open | Fixed(accounts: map<Account, string>)

  // --- account keys ---

  function Key(account: string): Account { Lower(Trim(account)) }

  function CharacterOf(d: Durable, account: Account): Option<Character> {
    if account in d.accounts then d.accounts[account].character else None
  }

  // --- the calls ---

  datatype Call =
    | Authenticate(username: string, password: string)
    | CreateCharacter(account: string, name: Option<string>, uuid: string)
    | EnsureCharacter(account: string, uuid: string)
    | DeleteCharacter(account: string)
    | RenameCharacter(account: string, newName: string)
    | ChooseBiome(account: string, biome: string)
    | ChooseAppearance(account: string, appearance: Appearance.CustomisationData)
    | RecordInventory(account: string, items: seq<Item>)
    | RecordHotbar(account: string, bindings: seq<Binding>)
    | RecordMail(account: string, mail: seq<Mail>)
    | RecordProgress(account: string, progress: Progress)
    | RecordBlock(voxel: Voxel, material: nat)
    | RecordDevice(device: Device)
    | RecordTitle(title: string)
    | SavePhoto(id: string, photo: Photo)

  /** What a call leaves of the durable state, and what it tells the store; at most one change. */
  datatype Outcome = Outcome(state: Durable, log: seq<Change>)

  function Same(d: Durable): Outcome { Outcome(d, []) }

  predicate Admits(policy: Policy, username: string, password: string) {
    Trim(username) != [] && (policy.Open? || (Key(username) in policy.accounts && policy.accounts[Key(username)] == password))
  }

  function Updated(d: Durable, account: string, character: Option<Character>): Outcome {
    var key := Lower(account);
    if character.None? || key !in d.accounts then Same(d)
    else
      Outcome(d.(accounts := d.accounts[key := d.accounts[key].(character := character)]),
              [SetCharacter(key, character.value)])
  }

  function NewCharacter(d: Durable, account: string, name: Option<string>, uuid: string): Option<Character> {
    var key := Lower(account);
    if key !in d.accounts then None
    else
      Some(Character(uuid, if name.Some? then name.value else d.accounts[key].displayName, None, Appearance.Unchosen()))
  }

  function Made(d: Durable, policy: Policy, call: Call): Outcome {
    match call
    case Authenticate(username, password) =>
      if !Admits(policy, username, password) then Same(d)
      else
        var key := Key(username);
        var held := if key in d.accounts then d.accounts[key] else AccountRecord(Trim(username), None);
        Outcome(d.(accounts := d.accounts[key := held]), [SetAccount(key, held.displayName)])
    case CreateCharacter(account, name, uuid) => Updated(d, account, NewCharacter(d, account, name, uuid))
    case EnsureCharacter(account, uuid) =>
      if CharacterOf(d, Lower(account)).Some? then Same(d) else Updated(d, account, NewCharacter(d, account, None, uuid))
    case DeleteCharacter(account) =>
      var key := Lower(account);
      if CharacterOf(d, key).None? then Same(d)
      else Outcome(d.(accounts := d.accounts[key := d.accounts[key].(character := None)]), [DropCharacter(key)])
    case RenameCharacter(account, name) =>
      var held := CharacterOf(d, Lower(account));
      Updated(d, account, if held.None? then None else Some(held.value.(name := name)))
    case ChooseBiome(account, biome) =>
      var held := CharacterOf(d, Lower(account));
      Updated(d, account, if held.None? || Trim(biome) == [] then None else Some(held.value.(homeBiome := Some(biome))))
    case ChooseAppearance(account, appearance) =>
      var held := CharacterOf(d, Lower(account));
      Updated(d, account, if held.None? then None else Some(held.value.(appearance := appearance)))
    case RecordInventory(account, items) =>
      var key := Key(account);
      if key in d.inventories && d.inventories[key] == items then Same(d)
      else Outcome(d.(inventories := d.inventories[key := items]), [SetInventory(key, items)])
    case RecordHotbar(account, bindings) =>
      var key := Key(account);
      if key in d.hotbars && d.hotbars[key] == bindings then Same(d)
      else Outcome(d.(hotbars := d.hotbars[key := bindings]), [SetHotbar(key, bindings)])
    case RecordMail(account, mail) =>
      var key := Key(account);
      if key in d.mail && d.mail[key] == mail then Same(d)
      else Outcome(d.(mail := d.mail[key := mail]), [SetMail(key, mail)])
    case RecordProgress(account, progress) =>
      var key := Key(account);
      if key in d.progress && d.progress[key] == progress then Same(d)
      else Outcome(d.(progress := d.progress[key := progress]), [SetProgress(key, progress)])
    case RecordBlock(voxel, material) =>
      if voxel in d.blocks && d.blocks[voxel] == material then Same(d)
      else Outcome(d.(blocks := d.blocks[voxel := material]), [SetBlock(voxel, material)])
    case RecordDevice(device) =>
      if device.position in d.devices && d.devices[device.position] == device then Same(d)
      else Outcome(d.(devices := d.devices[device.position := device]), [SetDevice(device)])
    case RecordTitle(title) =>
      if d.title == Some(title) then Same(d) else Outcome(d.(title := Some(title)), [SetTitle(title)])
    case SavePhoto(id, photo) => Outcome(d.(photos := d.photos[id := photo]), [SetPhoto(id, photo)])
  }

  // --- the state and the store agree ---

  function ListIn<T>(m: map<Account, seq<T>>, account: Account): seq<T> { if account in m then m[account] else [] }

  function KeptFor(d: Durable, a: Account): Kept {
    Kept(ListIn(d.inventories, a), ListIn(d.hotbars, a), ListIn(d.mail, a), ProgressIn(d.progress, a))
  }

  /** A load of the accounts gives the accounts. */
  ghost predicate AccountsAgree(d: Durable, s: Store) {
    d.accounts.Keys == s.names.Keys && s.characters.Keys <= s.names.Keys
    && forall a | a in d.accounts :: LoadedAccount(s, a) == Some(d.accounts[a])
  }

  ghost predicate WorldAgrees(d: Durable, s: Store) {
    d.photos == s.photos && d.blocks == s.blocks && d.devices == s.devices && d.title == s.title
  }

  /** A load of the lists gives every account's, where one with nothing and one never heard of read alike. */
  ghost predicate ListsAgree(d: Durable, s: Store) {
    forall a: Account :: Held(s.lists, a) == KeptFor(d, a)
  }

  /** What is in memory is what a load of the store would give back. */
  ghost predicate Agree(d: Durable, s: Store) {
    AccountsAgree(d, s) && WorldAgrees(d, s) && ListsAgree(d, s)
  }

  /** A call that tells the store nothing has changed nothing the store keeps. */
  lemma SilentChangesNothing(d: Durable, policy: Policy, call: Call)
    ensures |Made(d, policy, call).log| <= 1
    ensures Made(d, policy, call).log == [] ==> Made(d, policy, call).state == d
  {
  }

  /** What a change says the state has become. */
  function Told(d: Durable, c: Change): Durable {
    match c
    case SetAccount(key, displayName) =>
      d.(accounts := d.accounts[key := AccountRecord(displayName, CharacterOf(d, key))])
    case SetCharacter(account, character) =>
      var name := if account in d.accounts then d.accounts[account].displayName else "";
      d.(accounts := d.accounts[account := AccountRecord(name, Some(character))])
    case DropCharacter(account) =>
      if account in d.accounts then d.(accounts := d.accounts[account := d.accounts[account].(character := None)]) else d
    case SetPhoto(id, photo) => d.(photos := d.photos[id := photo])
    case SetInventory(account, items) => d.(inventories := d.inventories[account := items])
    case SetHotbar(account, bindings) => d.(hotbars := d.hotbars[account := bindings])
    case SetBlock(voxel, material) => d.(blocks := d.blocks[voxel := material])
    case SetDevice(device) => d.(devices := d.devices[device.position := device])
    case SetTitle(title) => d.(title := Some(title))
    case SetProgress(account, progress) => d.(progress := d.progress[account := progress])
    case SetMail(account, mail) => d.(mail := d.mail[account := mail])
  }

  /** A list is only told when it is not the one held already. */
  predicate News(d: Durable, c: Change) {
    match c
    case SetInventory(account, items) => !(account in d.inventories && d.inventories[account] == items)
    case SetHotbar(account, bindings) => !(account in d.hotbars && d.hotbars[account] == bindings)
    case SetMail(account, mail) => !(account in d.mail && d.mail[account] == mail)
    case SetProgress(account, progress) => !(account in d.progress && d.progress[account] == progress)
    case SetCharacter(account, _) => account in d.accounts
    case DropCharacter(account) => account in d.accounts
    case _ => true
  }

  /** What a call tells the store is what it did, and a character is only told for an account that is there. */
  lemma ToldIsMade(d: Durable, policy: Policy, call: Call, c: Change)
    requires Made(d, policy, call).log == [c]
    ensures Made(d, policy, call).state == Told(d, c) && News(d, c)
  {
    hide Admits, NewCharacter, Lower, Trim;
  }

  /** The store will not have what the change says: its list does not come back as it was, or has no account. */
  ghost predicate Lost(d: Durable, c: Change) {
    !WellFormed(c) || (Concerns(c).Some? && Concerns(c).value !in d.accounts)
  }

  lemma NameAgrees(d: Durable, s: Store, c: Change)
    requires AccountsAgree(d, s) && c.SetAccount?
    ensures AccountsAgree(Told(d, c), Applied(s, c))
  {
    hide LoadedAppearance;
  }

  /** A load reads an account from its own name and row only. */
  lemma LoadedAlike(s: Store, t: Store, a: Account)
    requires a in s.names && a in t.names && s.names[a] == t.names[a]
    requires a in s.characters <==> a in t.characters
    requires a in s.characters ==> s.characters[a] == t.characters[a]
    ensures LoadedAccount(s, a) == LoadedAccount(t, a)
  {
    hide LoadedAppearance;
  }

  lemma LoadedName(s: Store, a: Account)
    requires a in s.names
    ensures LoadedAccount(s, a).Some? ==> LoadedAccount(s, a).value.displayName == s.names[a]
  {
    hide LoadedAppearance;
  }

  lemma CharacterAgrees(d: Durable, s: Store, c: Change)
    requires AccountsAgree(d, s) && c.SetCharacter? && c.account in d.accounts
    ensures AccountsAgree(Told(d, c), Applied(s, c)) <==> WellFormed(c)
  {
    CharacterIsLoaded(s, c.account, c.character);
    LoadedName(s, c.account);
    var (after, told) := (s.(characters := s.characters[c.account := RowOf(c.character)]), Told(d, c));
    assert Applied(s, c) == after;
    hide LoadedAccount, RowOf, Appearance.Storable, Applied;
    forall a | a in d.accounts && a != c.account ensures LoadedAccount(after, a) == LoadedAccount(s, a) {
      LoadedAlike(s, after, a);
    }
    assert told.accounts.Keys == d.accounts.Keys;
  }

  lemma DropAgrees(d: Durable, s: Store, c: Change)
    requires AccountsAgree(d, s) && c.DropCharacter? && c.account in d.accounts
    ensures AccountsAgree(Told(d, c), Applied(s, c))
  {
    hide LoadedAppearance;
    assert LoadedAccount(s, c.account) == Some(d.accounts[c.account]);
  }

  lemma KeptIsSaid(d: Durable, c: Change, a: Account)
    ensures KeptFor(Told(d, c), a) == Said(KeptFor(d, a), c, a)
  {
  }

  /** A refused list is news to its own account. */
  lemma RefusedIsNews(d: Durable, s: Store, c: Change)
    requires IsList(c) && News(d, c) && Listed(s.lists, s.names.Keys, c).None?
    ensures Said(KeptFor(d, c.account), c, c.account) != KeptFor(d, c.account)
  {
    hide Listed;
    if Concerns(c).None? {
      NothingIsTaken(s.lists, s.names.Keys, c);
    }
  }

  lemma RefusedListAgrees(d: Durable, s: Store, c: Change)
    requires ListsAgree(d, s) && IsList(c) && News(d, c) && Refused(s, c)
    ensures !ListsAgree(Told(d, c), Applied(s, c))
  {
    RefusedIsNews(d, s, c);
    KeptIsSaid(d, c, c.account);
    hide Listed, Held, KeptFor, Said, Told, News;
    assert Held(s.lists, c.account) == KeptFor(d, c.account);
    assert KeptFor(Told(d, c), c.account) != Held(s.lists, c.account);
  }

  lemma TakenListAgrees(d: Durable, s: Store, c: Change)
    requires ListsAgree(d, s) && IsList(c) && !Refused(s, c)
    ensures ListsAgree(Told(d, c), Applied(s, c)) <==> WellFormed(c)
  {
    assert Listed(s.lists, s.names.Keys, c).Some? && Applied(s, c).lists == Listed(s.lists, s.names.Keys, c).value;
    hide Listed, Held, KeptFor, Said, WellFormed, Told, Applied;
    forall a: Account
      ensures Held(Applied(s, c).lists, a) == KeptFor(Told(d, c), a) <==> a != c.account || WellFormed(c)
    {
      KeptIsSaid(d, c, a);
      ListedIsHeld(s.lists, s.names.Keys, c, a);
      assert Held(s.lists, a) == KeptFor(d, a);
    }
    assert Held(Applied(s, c).lists, c.account) == KeptFor(Told(d, c), c.account) <==> WellFormed(c);
  }

  lemma ListAgrees(d: Durable, s: Store, c: Change)
    requires ListsAgree(d, s) && IsList(c) && News(d, c) && d.accounts.Keys == s.names.Keys
    ensures ListsAgree(Told(d, c), Applied(s, c)) <==> !Lost(d, c)
  {
    if Refused(s, c) {
      RefusedListAgrees(d, s, c);
    } else {
      TakenListAgrees(d, s, c);
    }
    hide ListsAgree, WellFormed, Concerns, News, Refused, Told, Applied;
    if WellFormed(c) {
      RefusedWhen(s, c);
    }
  }

  /** A change that is no account's leaves the accounts as they were. */
  lemma AccountsUntouched(d: Durable, s: Store, c: Change)
    requires !c.SetAccount? && !c.SetCharacter? && !c.DropCharacter?
    ensures Applied(s, c).names == s.names && Applied(s, c).characters == s.characters
    ensures Told(d, c).accounts == d.accounts
  {
    hide Listed;
  }

  lemma AccountsStay(d: Durable, s: Store, c: Change)
    requires AccountsAgree(d, s) && !c.SetAccount? && !c.SetCharacter? && !c.DropCharacter?
    ensures AccountsAgree(Told(d, c), Applied(s, c))
  {
    AccountsUntouched(d, s, c);
    hide LoadedAccount, Applied, Told;
    var after := Applied(s, c);
    forall a | a in d.accounts ensures LoadedAccount(after, a) == LoadedAccount(s, a) {
      LoadedAlike(s, after, a);
    }
  }

  /** A change that is no list leaves every list as it was, in memory and in the store. */
  lemma ListsStay(d: Durable, s: Store, c: Change)
    requires ListsAgree(d, s) && !IsList(c)
    ensures ListsAgree(Told(d, c), Applied(s, c))
  {
    assert Applied(s, c).lists == s.lists;
    hide Held, KeptFor, Applied, Told;
    forall a: Account ensures KeptFor(Told(d, c), a) == KeptFor(d, a) {
      KeptIsSaid(d, c, a);
    }
  }

  lemma WorldStays(d: Durable, s: Store, c: Change)
    requires WorldAgrees(d, s)
    ensures !Refused(s, c) || IsList(c) ==> WorldAgrees(Told(d, c), Applied(s, c))
  {
    hide Listed, RowOf;
  }

  /**
    Applying what a call emits keeps memory and store in step if and only if the change is well
    formed and its account is known.
   */
  lemma MadeAgrees(d: Durable, s: Store, policy: Policy, call: Call, c: Change)
    requires Agree(d, s) && Made(d, policy, call).log == [c]
    ensures Agree(Made(d, policy, call).state, Applied(s, c)) <==> !Lost(d, c)
  {
    ToldIsMade(d, policy, call, c);
    hide Made;
    ToldAgrees(d, s, c);
  }

  lemma ToldAgrees(d: Durable, s: Store, c: Change)
    requires Agree(d, s) && News(d, c)
    ensures Agree(Told(d, c), Applied(s, c)) <==> !Lost(d, c)
  {
    WorldStays(d, s, c);
    if IsList(c) {
      ListAgrees(d, s, c);
      AccountsStay(d, s, c);
      hide ListsAgree, WorldAgrees, Lost, Told, Applied, LoadedAccount;
    } else {
      ListsStay(d, s, c);
      OthersAgree(d, s, c);
      hide ListsAgree, WorldAgrees, Told, Applied, AccountsAgree, WellFormed;
    }
  }

  /** A change that is no list is taken, and loses nothing but an appearance that cannot be stored. */
  lemma OthersAgree(d: Durable, s: Store, c: Change)
    requires AccountsAgree(d, s) && News(d, c) && !IsList(c)
    ensures !Refused(s, c) && (Lost(d, c) <==> !WellFormed(c))
    ensures AccountsAgree(Told(d, c), Applied(s, c)) <==> WellFormed(c)
  {
    match c {
      case SetAccount(_, _) => NameAgrees(d, s, c);
      case SetCharacter(_, _) => CharacterAgrees(d, s, c);
      case DropCharacter(_) => DropAgrees(d, s, c);
      case _ => AccountsStay(d, s, c);
    }
    hide AccountsAgree, Told, Applied;
  }

  // --- whole runs ---

  function Ran(d: Durable, policy: Policy, calls: seq<Call>): Durable {
    if calls == [] then d else Made(Ran(d, policy, calls[..|calls| - 1]), policy, calls[|calls| - 1]).state
  }

  /** Everything a run tells the store, in order. */
  function Log(d: Durable, policy: Policy, calls: seq<Call>): seq<Change> {
    if calls == [] then []
    else
      var before := calls[..|calls| - 1];
      Log(d, policy, before) + Made(Ran(d, policy, before), policy, calls[|calls| - 1]).log
  }

  /** Everything the call tells the store is well formed, and of an account that is known. */
  ghost predicate Keeps(d: Durable, policy: Policy, call: Call) {
    forall c | c in Made(d, policy, call).log :: !Lost(d, c)
  }

  /** So does every call of the run, when its turn comes. */
  ghost predicate KeepsAll(d: Durable, policy: Policy, calls: seq<Call>) {
    forall k | 0 <= k < |calls| :: Keeps(Ran(d, policy, calls[..k]), policy, calls[k])
  }

  /** Memory and store have kept step all the way. */
  ghost predicate AgreeThroughout(d: Durable, s: Store, policy: Policy, calls: seq<Call>) {
    forall k | 0 <= k <= |calls| :: Agree(Ran(d, policy, calls[..k]), AppliedAll(s, Log(d, policy, calls[..k])))
  }

  lemma AppliedAllNext(s: Store, log: seq<Change>, c: Change)
    ensures AppliedAll(s, log + [c]) == Applied(AppliedAll(s, log), c)
  {
    assert (log + [c])[..|log|] == log;
  }

  lemma ThroughoutNext(d: Durable, s: Store, policy: Policy, calls: seq<Call>)
    requires calls != []
    ensures AgreeThroughout(d, s, policy, calls) <==>
      AgreeThroughout(d, s, policy, calls[..|calls| - 1])
      && Agree(Ran(d, policy, calls), AppliedAll(s, Log(d, policy, calls)))
  {
    hide Agree, Ran, Log, AppliedAll;
    var n := |calls| - 1;
    assert calls[..n + 1] == calls;
    forall k | 0 <= k <= n ensures calls[..n][..k] == calls[..k] {
    }
  }

  lemma KeepsNext(d: Durable, policy: Policy, calls: seq<Call>)
    requires calls != []
    ensures KeepsAll(d, policy, calls) <==>
      KeepsAll(d, policy, calls[..|calls| - 1])
      && Keeps(Ran(d, policy, calls[..|calls| - 1]), policy, calls[|calls| - 1])
  {
    hide Keeps, Ran;
    var n := |calls| - 1;
    forall k | 0 <= k < n ensures calls[..n][..k] == calls[..k] {
    }
  }

  lemma AppliedAllMore(s: Store, log: seq<Change>, told: seq<Change>)
    requires |told| <= 1
    ensures AppliedAll(s, log + told)
      == if told == [] then AppliedAll(s, log) else Applied(AppliedAll(s, log), told[0])
  {
    if told == [] {
      assert log + told == log;
    } else {
      assert told == [told[0]];
      AppliedAllNext(s, log, told[0]);
    }
  }

  /** One call keeps memory and store in step, its log applied, exactly when it keeps what it told. */
  lemma CallAgrees(d: Durable, s: Store, policy: Policy, call: Call)
    requires Agree(d, s)
    ensures var told := Made(d, policy, call).log;
      |told| <= 1
      && (Agree(Made(d, policy, call).state, if told == [] then s else Applied(s, told[0])) <==> Keeps(d, policy, call))
  {
    SilentChangesNothing(d, policy, call);
    hide Agree, Lost, Applied, Made;
    var told := Made(d, policy, call).log;
    if told != [] {
      assert told == [told[0]];
      MadeAgrees(d, s, policy, call, told[0]);
    }
  }

  /**
    From a state that was loaded from the store, replaying the log into the store keeps a load
    giving the state itself, at every point of every run, if and only if every call kept what it told.
   */
  lemma {:induction false} ReplayGivesState(d: Durable, s: Store, policy: Policy, calls: seq<Call>)
    requires Agree(d, s)
    ensures AgreeThroughout(d, s, policy, calls) <==> KeepsAll(d, policy, calls)
  {
    hide Agree, Made, Keeps, Applied;
    if calls == [] {
      assert calls[..0] == [];
    } else {
      var before, call := calls[..|calls| - 1], calls[|calls| - 1];
      ReplayGivesState(d, s, policy, before);
      ThroughoutNext(d, s, policy, calls);
      KeepsNext(d, policy, calls);
      hide AgreeThroughout, KeepsAll;
      if AgreeThroughout(d, s, policy, before) {
        AgreesAtEnd(d, s, policy, before);
        var mid, log := Ran(d, policy, before), Log(d, policy, before);
        CallAgrees(mid, AppliedAll(s, log), policy, call);
        AppliedAllMore(s, log, Made(mid, policy, call).log);
      }
    }
  }

  lemma AgreesAtEnd(d: Durable, s: Store, policy: Policy, calls: seq<Call>)
    requires AgreeThroughout(d, s, policy, calls)
    ensures Agree(Ran(d, policy, calls), AppliedAll(s, Log(d, policy, calls)))
  {
    hide Agree, Ran, Log, AppliedAll;
    assert calls[..|calls|] == calls;
  }

  // --- what is read back ---

  /** What the last call of each kind for the account said, or what was kept before the run. */
  function LastSaid(before: Kept, calls: seq<Call>, a: Account): Kept {
    if calls == [] then before
    else
      var said := LastSaid(before, calls[..|calls| - 1], a);
      match calls[|calls| - 1]
      case RecordInventory(account, items) => if Key(account) == a then said.(items := items) else said
      case RecordHotbar(account, bindings) => if Key(account) == a then said.(bindings := bindings) else said
      case RecordMail(account, mail) => if Key(account) == a then said.(mail := mail) else said
      case RecordProgress(account, progress) => if Key(account) == a then said.(progress := progress) else said
      case _ => said
  }

  lemma InventoryIsRead(d: Durable, policy: Policy, account: string, items: seq<Item>, a: Account)
    ensures KeptFor(Made(d, policy, RecordInventory(account, items)).state, a)
      == if a == Key(account) then KeptFor(d, a).(items := items) else KeptFor(d, a)
  {
  }

  lemma HotbarIsRead(d: Durable, policy: Policy, account: string, bindings: seq<Binding>, a: Account)
    ensures KeptFor(Made(d, policy, RecordHotbar(account, bindings)).state, a)
      == if a == Key(account) then KeptFor(d, a).(bindings := bindings) else KeptFor(d, a)
  {
  }

  lemma MailIsRead(d: Durable, policy: Policy, account: string, mail: seq<Mail>, a: Account)
    ensures KeptFor(Made(d, policy, RecordMail(account, mail)).state, a)
      == if a == Key(account) then KeptFor(d, a).(mail := mail) else KeptFor(d, a)
  {
  }

  lemma ProgressIsRead(d: Durable, policy: Policy, account: string, progress: Progress, a: Account)
    ensures KeptFor(Made(d, policy, RecordProgress(account, progress)).state, a)
      == if a == Key(account) then KeptFor(d, a).(progress := progress) else KeptFor(d, a)
  {
  }

  lemma OthersLeaveKept(d: Durable, policy: Policy, call: Call, a: Account)
    requires !call.RecordInventory? && !call.RecordHotbar? && !call.RecordMail? && !call.RecordProgress?
    ensures KeptFor(Made(d, policy, call).state, a) == KeptFor(d, a)
  {
    hide NewCharacter, ListIn, ProgressIn, Key, Admits;
  }

  /** After any run each account reads what was last said of it, whatever else the run did. */
  lemma {:induction false} LastSaidIsRead(d: Durable, policy: Policy, calls: seq<Call>, a: Account)
    ensures KeptFor(Ran(d, policy, calls), a) == LastSaid(KeptFor(d, a), calls, a)
  {
    hide Made, KeptFor, Key;
    if calls != [] {
      var before := calls[..|calls| - 1];
      LastSaidIsRead(d, policy, before, a);
      var was := Ran(d, policy, before);
      match calls[|calls| - 1] {
        case RecordInventory(account, items) => InventoryIsRead(was, policy, account, items, a);
        case RecordHotbar(account, bindings) => HotbarIsRead(was, policy, account, bindings, a);
        case RecordMail(account, mail) => MailIsRead(was, policy, account, mail, a);
        case RecordProgress(account, progress) => ProgressIsRead(was, policy, account, progress, a);
        case _ => OthersLeaveKept(was, policy, calls[|calls| - 1], a);
      }
    }
  }

  /** An account that is there has a character once one is ensured. */
  lemma EnsuredHas(d: Durable, policy: Policy, call: Call)
    requires call.EnsureCharacter? && Lower(call.account) in d.accounts
    ensures CharacterOf(Made(d, policy, call).state, Lower(call.account)).Some?
  {
  }

  /** No call forgets an account, or what it is called. */
  lemma AccountsKept(d: Durable, policy: Policy, call: Call, a: Account)
    requires a in d.accounts
    ensures a in Made(d, policy, call).state.accounts
    ensures Made(d, policy, call).state.accounts[a].displayName == d.accounts[a].displayName
  {
    hide NewCharacter, Lower, Trim, Admits;
  }
}
