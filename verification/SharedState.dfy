/** The shared state as an object: its maps are updated in place and each change goes to the log. */
module SharedState {
  import opened Wrappers
  import opened Stored
  import opened Tables
  import opened Database
  import opened AppStates
  import opened Text
  import Appearance

  class AppState {
    const policy: Policy
    var accounts: map<Account, AccountRecord>
    var photos: map<string, Photo>
    var inventories: map<Account, seq<Item>>
    var hotbars: map<Account, seq<Binding>>
    var mail: map<Account, seq<Mail>>
    var progress: map<Account, Progress>
    var blocks: map<Voxel, nat>
    var devices: map<(nat, nat, nat), Device>
    var title: Option<string>
    var sessions: map<string, Account>
    var log: seq<Change>

    function State(): Durable
      reads this
    {
      Durable(accounts, photos, inventories, hotbars, mail, progress, blocks, devices, title)
    }

    /** What `call` makes of the state and the log. */
    twostate predicate Does(call: Call)
      reads this
    {
      State() == Made(old(State()), policy, call).state && log == old(log) + Made(old(State()), policy, call).log
    }

    constructor (policy: Policy)
      ensures this.policy == policy && log == []
      ensures State() == Durable(map[], map[], map[], map[], map[], map[], map[], map[], None)
    {
      this.policy := policy;
      accounts, photos, inventories, hotbars, mail := map[], map[], map[], map[], map[];
      progress, blocks, devices, title, sessions, log := map[], map[], map[], None, map[], [];
    }

    /** Load what was stored: silent, since a load is not a change. */
    method Import(loaded: Durable)
      modifies this
      ensures State() == loaded && log == old(log)
    {
      accounts, photos, inventories, hotbars, mail := loaded.accounts, loaded.photos, loaded.inventories, loaded.hotbars, loaded.mail;
      progress, blocks, devices, title := loaded.progress, loaded.blocks, loaded.devices, loaded.title;
    }

    method Record(change: Change)
      modifies this`log
      ensures log == old(log) + [change]
    {
      log := log + [change];
    }

    method Authenticate(username: string, password: string, token: string) returns (r: Result<string, LoginError>)
      modifies this
      ensures Does(Call.Authenticate(username, password))
      ensures r.Ok? <==> Admits(policy, username, password)
      ensures var name, key := Trim(username), Lower(Trim(username));
        && (r.Ok? <==> name != [] && (policy.Open? || (key in policy.accounts && policy.accounts[key] == password)))
        && (name == [] ==> r == Err(BadCredentials))
        && (name != [] && policy.Fixed? && key !in policy.accounts ==> r == Err(NoSuchAccount))
        && (name != [] && policy.Fixed? && key in policy.accounts && policy.accounts[key] != password ==> r == Err(BadCredentials))
        && accounts == (if r.Ok? && key !in old(accounts) then old(accounts)[key := AccountRecord(name, None)] else old(accounts))
        && log == old(log) + (if r.Ok? then [SetAccount(key, r.value)] else [])
        && (r.Ok? ==> key in accounts && r.value == accounts[key].displayName)
        && sessions == if r.Ok? then old(sessions)[token := key] else old(sessions)
    {
      var name := Trim(username);
      if name == [] {
        return Err(BadCredentials);
      }
      var key := Lower(name);
      if policy.Fixed? {
        if key !in policy.accounts {
          return Err(NoSuchAccount);
        }
        if policy.accounts[key] != password {
          return Err(BadCredentials);
        }
      }
      if key !in accounts {
        accounts := accounts[key := AccountRecord(name, None)];
      }
      var displayName := accounts[key].displayName;
      assert accounts == old(accounts)[key := accounts[key]];
      sessions := sessions[token := key];
      Record(SetAccount(key, displayName));
      r := Ok(displayName);
    }

    method CreateCharacter(account: string, name: Option<string>, uuid: string) returns (r: Result<Character, LoginError>)
      modifies this
      ensures Does(Call.CreateCharacter(account, name, uuid))
      ensures r == if Lower(account) !in old(accounts) then Err(NoSuchAccount)
                   else Ok(Character(uuid, if name.Some? then name.value else old(accounts)[Lower(account)].displayName, None,
                                     Appearance.Unchosen()))
      ensures accounts == if r.Err? then old(accounts) else
        old(accounts)[Lower(account) := AccountRecord(old(accounts)[Lower(account)].displayName, Some(r.value))]
      ensures log == old(log) + if r.Ok? then [SetCharacter(Lower(account), r.value)] else []
    {
      var key := Lower(account);
      if key !in accounts {
        return Err(NoSuchAccount);
      }
      var entry := accounts[key];
      var character := Character(uuid, if name.Some? then name.value else entry.displayName, None, Appearance.Unchosen());
      accounts := accounts[key := entry.(character := Some(character))];
      Record(SetCharacter(key, character));
      r := Ok(character);
    }

    method EnsureCharacter(account: string, uuid: string) returns (r: Result<Character, LoginError>)
      modifies this
      ensures Does(Call.EnsureCharacter(account, uuid))
      ensures r.Ok? <==> Lower(account) in old(accounts)
      ensures r.Ok? ==> Lower(account) in accounts && accounts[Lower(account)].character == Some(r.value)
      ensures var key := Lower(account);
        if key in old(accounts) && old(accounts)[key].character.Some? then
          r == Ok(old(accounts)[key].character.value) && accounts == old(accounts) && log == old(log)
        else
          (r.Ok? ==> r.value == Character(uuid, old(accounts)[key].displayName, None, Appearance.Unchosen()))
          && log == old(log) + if r.Ok? then [SetCharacter(key, r.value)] else []
    {
      var existing := CharacterOf(State(), Lower(account));
      if existing.Some? {
        return Ok(existing.value);
      }
      r := CreateCharacter(account, None, uuid);
    }

    method DeleteCharacter(account: string) returns (r: Result<bool, LoginError>)
      modifies this
      ensures Does(Call.DeleteCharacter(account))
      ensures r == if Lower(account) !in old(accounts) then Err(NoSuchAccount)
                   else Ok(old(accounts)[Lower(account)].character.Some?)
      ensures accounts == if r == Ok(true)
        then old(accounts)[Lower(account) := AccountRecord(old(accounts)[Lower(account)].displayName, None)]
        else old(accounts)
      ensures log == old(log) + if r == Ok(true) then [DropCharacter(Lower(account))] else []
    {
      var key := Lower(account);
      if key !in accounts {
        return Err(NoSuchAccount);
      }
      var deleted := accounts[key].character.Some?;
      if deleted {
        accounts := accounts[key := accounts[key].(character := None)];
        Record(DropCharacter(key));
      }
      r := Ok(deleted);
    }

    method UpdateCharacter(account: string, change: Character -> Character) returns (r: Result<Character, LoginError>)
      modifies this
      ensures var held := CharacterOf(old(State()), Lower(account));
        var outcome := Updated(old(State()), account, if held.None? then None else Some(change(held.value)));
        State() == outcome.state && log == old(log) + outcome.log
        && r == if held.None? then Err(NoSuchAccount) else Ok(change(held.value))
      ensures r == if Lower(account) !in old(accounts) || old(accounts)[Lower(account)].character.None? then Err(NoSuchAccount)
                   else Ok(change(old(accounts)[Lower(account)].character.value))
      ensures accounts == if r.Err? then old(accounts)
        else old(accounts)[Lower(account) := AccountRecord(old(accounts)[Lower(account)].displayName, Some(r.value))]
      ensures log == old(log) + if r.Ok? then [SetCharacter(Lower(account), r.value)] else []
    {
      var key := Lower(account);
      if key !in accounts || accounts[key].character.None? {
        return Err(NoSuchAccount);
      }
      var updated := change(accounts[key].character.value);
      accounts := accounts[key := accounts[key].(character := Some(updated))];
      Record(SetCharacter(key, updated));
      r := Ok(updated);
    }

    method SetCharacterName(account: string, name: string) returns (r: Result<Character, LoginError>)
      modifies this
      ensures Does(RenameCharacter(account, name))
      ensures r == if Lower(account) !in old(accounts) || old(accounts)[Lower(account)].character.None? then Err(NoSuchAccount)
                   else Ok(old(accounts)[Lower(account)].character.value.(name := name))
      ensures r.Ok? ==> Lower(account) in accounts && accounts[Lower(account)].character == Some(r.value)
      ensures log == old(log) + if r.Ok? then [SetCharacter(Lower(account), r.value)] else []
    {
      r := UpdateCharacter(account, (c: Character) => c.(name := name));
    }

    method SetHomeBiome(account: string, biome: string) returns (r: Result<Character, LoginError>)
      modifies this
      ensures Does(ChooseBiome(account, biome))
      ensures r == if Trim(biome) == [] then Err(BadCredentials)
                   else if Lower(account) !in old(accounts) || old(accounts)[Lower(account)].character.None? then Err(NoSuchAccount)
                   else Ok(old(accounts)[Lower(account)].character.value.(homeBiome := Some(biome)))
      ensures r.Ok? ==> Lower(account) in accounts && accounts[Lower(account)].character == Some(r.value)
      ensures log == old(log) + if r.Ok? then [SetCharacter(Lower(account), r.value)] else []
    {
      if Trim(biome) == [] {
        return Err(BadCredentials);
      }
      r := UpdateCharacter(account, (c: Character) => c.(homeBiome := Some(biome)));
    }

    method SetAppearance(account: string, appearance: Appearance.CustomisationData) returns (r: Result<Character, LoginError>)
      modifies this
      ensures Does(ChooseAppearance(account, appearance))
      ensures r == if Lower(account) !in old(accounts) || old(accounts)[Lower(account)].character.None? then Err(NoSuchAccount)
                   else Ok(old(accounts)[Lower(account)].character.value.(appearance := appearance))
      ensures r.Ok? ==> Lower(account) in accounts && accounts[Lower(account)].character == Some(r.value)
      ensures log == old(log) + if r.Ok? then [SetCharacter(Lower(account), r.value)] else []
    {
      r := UpdateCharacter(account, (c: Character) => c.(appearance := appearance));
    }

    method SetInventory(account: string, items: seq<Item>)
      modifies this
      ensures Does(RecordInventory(account, items))
      ensures var key := Lower(Trim(account));
        && inventories == old(inventories)[key := items]
        && log == old(log) + if key in old(inventories) && old(inventories)[key] == items then [] else [Change.SetInventory(key, items)]
    {
      var key := Key(account);
      if key in inventories && inventories[key] == items {
        return;
      }
      inventories := inventories[key := items];
      Record(Change.SetInventory(key, items));
    }

    method SetHotbar(account: string, bindings: seq<Binding>)
      modifies this
      ensures Does(RecordHotbar(account, bindings))
      ensures var key := Lower(Trim(account));
        && hotbars == old(hotbars)[key := bindings]
        && log == old(log) + if key in old(hotbars) && old(hotbars)[key] == bindings then [] else [Change.SetHotbar(key, bindings)]
    {
      var key := Key(account);
      if key in hotbars && hotbars[key] == bindings {
        return;
      }
      hotbars := hotbars[key := bindings];
      Record(Change.SetHotbar(key, bindings));
    }

    method SetMail(account: string, inbox: seq<Mail>)
      modifies this
      ensures Does(RecordMail(account, inbox))
      ensures var key := Lower(Trim(account));
        && mail == old(mail)[key := inbox]
        && log == old(log) + if key in old(mail) && old(mail)[key] == inbox then [] else [Change.SetMail(key, inbox)]
    {
      var key := Key(account);
      if key in mail && mail[key] == inbox {
        return;
      }
      mail := mail[key := inbox];
      Record(Change.SetMail(key, inbox));
    }

    method SetProgress(account: string, learned: Progress)
      modifies this
      ensures Does(RecordProgress(account, learned))
      ensures var key := Lower(Trim(account));
        && progress == old(progress)[key := learned]
        && log == old(log) + if key in old(progress) && old(progress)[key] == learned then [] else [Change.SetProgress(key, learned)]
    {
      var key := Key(account);
      if key in progress && progress[key] == learned {
        return;
      }
      progress := progress[key := learned];
      Record(Change.SetProgress(key, learned));
    }

    method SetBlock(voxel: Voxel, material: nat)
      modifies this
      ensures Does(RecordBlock(voxel, material))
      ensures blocks == old(blocks)[voxel := material]
      ensures log == old(log)
        + if voxel in old(blocks) && old(blocks)[voxel] == material then [] else [Change.SetBlock(voxel, material)]
    {
      if voxel in blocks && blocks[voxel] == material {
        return;
      }
      blocks := blocks[voxel := material];
      Record(Change.SetBlock(voxel, material));
    }

    method SetDevice(device: Device)
      modifies this
      ensures Does(RecordDevice(device))
      ensures devices == old(devices)[device.position := device]
      ensures log == old(log)
        + if device.position in old(devices) && old(devices)[device.position] == device then [] else [Change.SetDevice(device)]
    {
      if device.position in devices && devices[device.position] == device {
        return;
      }
      devices := devices[device.position := device];
      Record(Change.SetDevice(device));
    }

    method SetHomeTitle(newTitle: string)
      modifies this
      ensures Does(RecordTitle(newTitle))
      ensures title == Some(newTitle)
      ensures log == old(log) + if old(title) == Some(newTitle) then [] else [Change.SetTitle(newTitle)]
    {
      if title == Some(newTitle) {
        return;
      }
      title := Some(newTitle);
      Record(SetTitle(newTitle));
    }

    method SavePhoto(id: string, photo: Photo)
      modifies this
      ensures Does(Call.SavePhoto(id, photo))
      ensures photos == old(photos)[id := photo] && log == old(log) + [SetPhoto(id, photo)]
    {
      photos := photos[id := photo];
      Record(SetPhoto(id, photo));
    }
  }

  /** The background writer: changes wait in a queue and are applied to the store oldest first. */
  class Persistence {
    var queue: seq<Change>
    var stored: Store

    constructor (stored: Store)
      ensures this.stored == stored && queue == []
    {
      this.stored, queue := stored, [];
    }

    /** What the store will hold once the queue has run dry. */
    ghost function Due(): Store
      reads this
    {
      AppliedAll(stored, queue)
    }

    method Record(change: Change)
      modifies this`queue
      ensures queue == old(queue) + [change] && Due() == Applied(old(Due()), change)
    {
      AppliedAllNext(stored, queue, change);
      queue := queue + [change];
    }

    /** Write one change down; a refused one is passed over. What is due does not change. */
    method WriteNext()
      requires queue != []
      modifies this
      ensures queue == old(queue)[1..] && stored == Applied(old(stored), old(queue)[0]) && Due() == old(Due())
    {
      hide Applied;
      assert queue == [queue[0]] + queue[1..];
      AppliedAllFirst(stored, queue[0], queue[1..]);
      stored := Applied(stored, queue[0]);
      queue := queue[1..];
    }

    method Drain()
      modifies this
      ensures queue == [] && stored == AppliedAll(old(stored), old(queue))
    {
      hide Applied;
      while queue != []
        invariant Due() == old(Due())
        decreases |queue|
      {
        WriteNext();
      }
    }
  }

  lemma {:induction false} AppliedAllFirst(s: Store, first: Change, rest: seq<Change>)
    ensures AppliedAll(s, [first] + rest) == AppliedAll(Applied(s, first), rest)
  {
    hide Applied;
    if rest == [] {
      assert [first] + rest == [first] && [first][..0] == [];
      assert AppliedAll(s, []) == s;
    } else {
      var n := |rest| - 1;
      assert ([first] + rest)[..n + 1] == [first] + rest[..n];
      AppliedAllFirst(s, first, rest[..n]);
    }
  }
}
