/** The repository and the key provider as objects, and the rotation endpoint that uses both. */
module TemplateService {
  import opened Wrappers
  import opened Envelope
  import opened Templates

  class MasterKeyProvider {
    var cachedKey: Option<Bytes>
    var places: KeyPlaces

    constructor (found: KeyPlaces)
      ensures cachedKey == None && places == found
    {
      cachedKey, places := None, found;
    }

    /** The key in use, if there is no exception. */
    function InUse(m: Machine): Option<Bytes>
      reads this
    {
      KeyInUse(cachedKey, places, m)
    }

    /** The cached key, else that of the keychain, the environment or the file, else one generated and
        stored. None is an exception. */
    method GetMasterKey(m: Machine) returns (key: Option<Bytes>)
      modifies this
      ensures key == old(InUse(m)) && cachedKey == key
      ensures old(cachedKey).Some? ==> key == old(cachedKey)
      ensures old(cachedKey).None? ==>
                var p := old(places);
                key == if m.keychainAvailable && p.keychain.Some? then p.keychain
                       else if !m.keychainAvailable && m.guarded then None
                       else if p.environment.Given? then Some(p.environment.key)
                       else if p.environment.Malformed? then None
                       else if p.file.Some? then p.file
                       else if m.keychainAvailable || m.fileWrite.Completed? then Some(m.generated) else None
      ensures places == if old(cachedKey.None? && FindKey(places, m) == Nothing)
                        then KeepKey(old(places), m.generated, m) else old(places)
    {
      if cachedKey.Some? {
        return cachedKey;
      }
      key := if m.keychainAvailable then places.keychain else None;
      if key.None? {
        if !m.keychainAvailable && m.guarded {
          return None;
        }
        match places.environment {
          case Malformed => return None;
          case Given(given) => key := Some(given);
          case Unset =>
        }
      }
      if key.None? {
        key := places.file;
      }
      if key.None? {
        var stored := StoreKey(m.generated, m);
        if !stored {
          return None;
        }
        key := Some(m.generated);
      }
      cachedKey := key;
    }

    /** Writes the key to the keychain or, failing that and unless guarded, to the file. False is an
        exception, after which the file may hold the old key, none, or the new one. */
    method StoreKey(key: Bytes, m: Machine) returns (stored: bool)
      modifies this`places
      ensures stored == m.Keeps() && places == KeepKey(old(places), key, m)
      ensures m.keychainAvailable ==> stored && places == old(places).(keychain := Some(key))
      ensures !m.keychainAvailable && m.guarded ==> !stored && places == old(places)
      ensures !m.keychainAvailable && !m.guarded ==>
                && places == old(places).(file := places.file)
                && match m.fileWrite
                   case Completed => stored && places.file == Some(key)
                   case RaisedBefore => !stored && places.file == old(places).file
                   case RaisedEmptied => !stored && places.file == None
                   case RaisedAfter => !stored && places.file == Some(key)
    {
      if m.keychainAvailable {
        places := places.(keychain := Some(key));
        return true;
      }
      if m.guarded {
        return false;
      }
      places := places.(file := m.fileWrite.Content(places.file, key));
      stored := m.fileWrite.Completed?;
    }
  }

  function WithBlob(rows: Table, id: string, blob: Bytes): (rows': Table)
    ensures |rows'| == |rows|
    ensures forall i :: 0 <= i < |rows| ==>
              rows'[i] == if rows[i].templateId == id then rows[i].(blob := blob) else rows[i]
  {
    seq(|rows|, i requires 0 <= i < |rows| => if rows[i].templateId == id then rows[i].(blob := blob) else rows[i])
  }

  lemma {:induction false} WithoutIsUnique(rows: Table, id: string)
    requires UniqueIds(rows)
    ensures UniqueIds(Without(rows, id))
    ensures forall row :: row in Without(rows, id) <==> row in rows && row.templateId != id
  {
    if rows != [] {
      WithoutIsUnique(rows[1..], id);
      var rest := Without(rows[1..], id);
      assert rows == [rows[0]] + rows[1..];
      forall k | 0 <= k < |rest|
        ensures rest[k].templateId != rows[0].templateId
      {
        assert rest[k] in rows[1..];
      }
    }
  }

  class TemplateRepository {
    var rows: Table
    const provider: MasterKeyProvider
    const cipher: Cipher

    ghost predicate Valid()
      reads this
    {
      UniqueIds(rows)
    }

    /** The table with the key in use. */
    ghost function View(m: Machine): Store
      requires provider.InUse(m).Some?
      reads this, provider
    {
      Store(rows, provider.InUse(m).value)
    }

    constructor (keys: MasterKeyProvider, aead: Cipher)
      ensures Valid() && rows == [] && provider == keys && cipher == aead
    {
      rows, provider, cipher := [], keys, aead;
    }

    /** Without a key, or under an id already taken, nothing is stored. */
    method StoreTemplate(id: string, name: string, v: Vector, draw: Draw, now: int, m: Machine) returns (stored: bool)
      requires Valid()
      modifies this, provider
      ensures Valid() && stored == (old(provider.InUse(m)).Some? && id !in Ids(old(rows)))
      ensures old(provider.InUse(m)).None? ==> rows == old(rows)
      ensures old(provider.InUse(m)).Some? ==>
                provider.InUse(m).Some? && View(m) == Insert(cipher, old(View(m)), id, name, v, draw, now)
    {
      hide Wrap, ToBytes;
      var key := provider.GetMasterKey(m);
      if key.None? {
        return false;
      }
      stored := id !in Ids(rows);
      if stored {
        rows := rows + [Row(id, name, Wrap(cipher, TemplateBlob, key.value, id, draw, ToBytes(v)), now)];
        assert forall i :: 0 <= i < |rows| - 1 ==> rows[i] in old(rows);
      }
    }

    /** The newest row, decrypted; without a key it cannot be read. */
    method LoadLatestTemplate(m: Machine) returns (loaded: Loaded)
      modifies provider
      ensures old(provider.InUse(m)).None? ==> loaded == if rows == [] then NoTemplate else Unreadable
      ensures old(provider.InUse(m)).Some? ==>
                && loaded == old(Load(cipher, View(m)))
                && provider.InUse(m).Some? && View(m) == old(View(m))
    {
      hide ReadRow;
      if rows == [] {
        return NoTemplate;
      }
      var key := provider.GetMasterKey(m);
      if key.None? {
        return Unreadable;
      }
      loaded := ReadRow(cipher, key.value, rows[Latest(rows)]);
    }

    method DeleteTemplate(id: string) returns (deleted: bool)
      requires Valid()
      modifies this`rows
      ensures Valid() && rows == Without(old(rows), id) && deleted == (id in Ids(old(rows)))
      ensures forall row :: row in rows <==> row in old(rows) && row.templateId != id
      ensures forall key :: Store(rows, key) == Templates.Apply(cipher, Store(old(rows), key), DeleteOne(id))
    {
      WithoutIsUnique(rows, id);
      deleted := id in Ids(rows);
      rows := Without(rows, id);
    }

    method DeleteAllTemplates() returns (count: nat)
      modifies this`rows
      ensures Valid() && rows == [] && count == |old(rows)|
      ensures forall key :: Store(rows, key) == Templates.Apply(cipher, Store(old(rows), key), DeleteAll)
    {
      count := |rows|;
      rows := [];
    }

    /** Rewraps every blob, then applies the updates in one transaction. The result is None when there is no
        key, when a blob does not open, or when update `failsAt` (the commit, if that is their number) raises. */
    method RewrapAllBlobs(newKey: Bytes, draws: nat -> Draw, failsAt: nat, m: Machine) returns (count: Option<nat>)
      requires Valid()
      modifies this`rows, provider
      ensures Valid()
      ensures old(provider.InUse(m)).None? ==> count == None && rows == old(rows)
      ensures old(provider.InUse(m)).Some? ==>
                var s := old(View(m));
                var commits := RewrapCommits(cipher, s, failsAt > |s.rows|);
                && count == (if commits then Some(|s.rows|) else None)
                && rows == (if commits then Rewrapped(cipher, s.key, newKey, s.rows, draws) else s.rows)
      ensures provider.cachedKey == old(provider.InUse(m))
    {
      hide Wrap, Unwrap;
      var found := provider.GetMasterKey(m);
      if found.None? {
        return None;
      }
      var key, before := found.value, rows;
      var updates: seq<(Bytes, string)> := [];
      for i := 0 to |rows|
        invariant |updates| == i
        invariant forall k :: 0 <= k < i ==>
                                Opens(cipher, key, rows[k]) &&
                                updates[k] == (Rewrap(cipher, key, newKey, rows[k], draws(k)).blob, rows[k].templateId)
      {
        var plain := Unwrap(cipher, TemplateBlob, key, rows[i].templateId, rows[i].blob);
        if plain.None? {
          assert !Opens(cipher, key, rows[i]) && rows[i] in rows;
          return None;
        }
        updates := updates + [(Wrap(cipher, TemplateBlob, newKey, rows[i].templateId, draws(i),
                                   plain.value), rows[i].templateId)];
      }
      for i := 0 to |updates|
        invariant |rows| == |before| == |updates| && i <= failsAt && provider.cachedKey == Some(key)
        invariant forall k :: 0 <= k < i ==> rows[k] == Rewrap(cipher, key, newKey, before[k], draws(k))
        invariant forall k :: i <= k < |rows| ==> rows[k] == before[k]
      {
        if i == failsAt {
          rows := before;
          return None;
        }
        rows := WithBlob(rows, updates[i].1, updates[i].0);
      }
      if |updates| == failsAt {
        rows := before;
        return None;
      }
      count := Some(|updates|);
    }
  }

  /** The rotation endpoint: rewrap, store the new key, switch to it. None is the error reply. */
  method RotateMasterKey(repo: TemplateRepository, newKey: Bytes, draws: nat -> Draw, failsAt: nat, m: Machine)
    returns (rewrapped: Option<nat>)
    requires repo.Valid()
    modifies repo, repo.provider
    ensures repo.Valid()
    ensures old(repo.provider.InUse(m)).None? ==> rewrapped == None && repo.rows == old(repo.rows)
    ensures old(repo.provider.InUse(m)).Some? ==>
              var s := old(repo.View(m));
              && repo.provider.InUse(m).Some?
              && repo.View(m) == Rotate(repo.cipher, s, newKey, draws, failsAt > |s.rows|, m.Keeps())
              && (rewrapped.Some? <==> RewrapCommits(repo.cipher, s, failsAt > |s.rows|) && m.Keeps())
    ensures var places := repo.provider.places;
            rewrapped.Some? ==> (if m.keychainAvailable then places.keychain else places.file) == Some(newKey)
  {
    hide Wrap, Unwrap;
    var count := repo.RewrapAllBlobs(newKey, draws, failsAt, m);
    if count.None? {
      return None;
    }
    var stored := repo.provider.StoreKey(newKey, m);
    if !stored {
      return None;
    }
    repo.provider.cachedKey := Some(newKey);
    rewrapped := count;
  }

  /** An enrollment commit replaces whatever was enrolled; without a key it only deletes. */
  method CommitTemplate(repo: TemplateRepository, id: string, name: string, v: Vector, draw: Draw, now: int, m: Machine)
    returns (stored: bool)
    requires repo.Valid()
    modifies repo, repo.provider
    ensures repo.Valid() && stored == old(repo.provider.InUse(m)).Some?
    ensures old(repo.provider.InUse(m)).None? ==> repo.rows == []
    ensures old(repo.provider.InUse(m)).Some? ==>
              && repo.provider.InUse(m).Some?
              && repo.View(m) == old(Apply(repo.cipher, repo.View(m), Commit(id, name, v, draw, now, true)))
  {
    hide Wrap, ToBytes;
    var _ := repo.DeleteAllTemplates();
    stored := repo.StoreTemplate(id, name, v, draw, now, m);
  }
}
