/**
 * lib/storage.ts: a collection of records kept as one JSON array per file.
 * Every mutator reads the whole array, changes it, and writes it back.
 */
module Storage {
  import opened Wrappers
  import opened Json
  import opened Arrays

  /** `Partial<T>`: the fields to change, each set to a value or to `undefined` (None). */
  type Updates = map<string, Option<Value>>

  /**
   * `{ ...item, ...updates }` as it is stored: every field of `updates` wins, so one set
   * to `undefined` reads as absent (and JSON serialisation drops it); every other field
   * of `item` is kept.
   */
  function Merge(item: Record, updates: Updates): (r: Record)
    ensures forall k :: Get(r, k) == if k in updates then updates[k] else Get(item, k)
  {
    map k | k in item.Keys + updates.Keys && (k in updates ==> updates[k].Some?) ::
      if k in updates then updates[k].value else item[k]
  }

  /** Merging the same updates twice is merging them once. */
  lemma MergeIdempotent(item: Record, updates: Updates)
    ensures Merge(Merge(item, updates), updates) == Merge(item, updates)
  {
    var once, twice := Merge(item, updates), Merge(Merge(item, updates), updates);
    assert forall k :: Get(twice, k) == Get(once, k);
    assert forall k :: k in twice <==> k in once;
  }

  /**
   * One `JsonStorage` instance. `file` is what the data file holds: None when it is
   * missing, unreadable or not valid JSON, otherwise the stored array.
   */
  class JsonStorage {
    const fileName: string
    var file: Option<seq<Record>>

    /** What `readAll` returns: the stored array, or [] when the file cannot be read. */
    function Contents(): (data: seq<Record>)
      reads this
      ensures file.None? ==> data == []
      ensures file.Some? ==> data == file.value
    {
      if file.Some? then file.value else []
    }

    constructor (fileName: string, file: Option<seq<Record>>)
      ensures this.fileName == fileName && this.file == file
    {
      this.fileName := fileName;
      this.file := file;
    }

    /** `readAll`: never fails; a missing or malformed file reads as []. */
    method ReadAll() returns (data: seq<Record>)
      ensures data == Contents()
      ensures file.None? ==> data == []
    {
      data := if file.Some? then file.value else [];
    }

    /** `writeAll`: the file holds exactly `data` afterwards. */
    method WriteAll(data: seq<Record>)
      modifies this
      ensures file == Some(data)
      ensures Contents() == data
    {
      file := Some(data);
    }

    /** `findOne`: the first stored record satisfying `p`, if any. */
    method FindOne(p: Record -> bool) returns (r: Option<Record>)
      ensures r.None? <==> forall i | 0 <= i < |Contents()| :: !p(Contents()[i])
      ensures r.Some? ==> exists i | 0 <= i < |Contents()| ::
        Contents()[i] == r.value && p(r.value) && forall j | 0 <= j < i :: !p(Contents()[j])
    {
      var data := ReadAll();
      r := Find(data, p);
      if r.None? {
        forall i | 0 <= i < |data| ensures !p(data[i]) { assert data[i] in data; }
      }
    }

    /** `findMany`: the stored records satisfying `p`, in stored order, each as often as stored. */
    method FindMany(p: Record -> bool) returns (r: seq<Record>)
      ensures r == Filter(Contents(), p)
      ensures forall x :: multiset(r)[x] == if p(x) then multiset(Contents())[x] else 0
    {
      var data := ReadAll();
      r := Filter(data, p);
      forall x ensures multiset(r)[x] == if p(x) then multiset(data)[x] else 0 {
        FilterMultiset(data, p, x);
      }
    }

    /** `create`: the item is appended after every stored record and returned. */
    method Create(item: Record) returns (r: Record)
      modifies this
      ensures file == Some(old(Contents()) + [item])
      ensures r == item
    {
      var data := ReadAll();
      data := data + [item];
      WriteAll(data);
      r := item;
    }

    /**
     * `update`: only the first record satisfying `p` is replaced by its merge with
     * `updates`, and the merged record is returned. With no match nothing is written.
     */
    method Update(p: Record -> bool, updates: Updates) returns (r: Option<Record>)
      modifies this
      ensures FirstIndex(old(Contents()), p).None? ==> r.None? && file == old(file)
      ensures FirstIndex(old(Contents()), p).Some? ==>
        var i := FirstIndex(old(Contents()), p).value;
        && r == Some(Merge(old(Contents())[i], updates))
        && file == Some(old(Contents())[i := Merge(old(Contents())[i], updates)])
    {
      var data := ReadAll();
      var index := FirstIndex(data, p);
      if index.None? {
        return None;
      }
      var i := index.value;
      data := data[i := Merge(data[i], updates)];
      WriteAll(data);
      r := Some(data[i]);
    }

    /**
     * `delete`: every record satisfying `p` is removed, the others keep their order.
     * The answer is whether anything was removed; only then is the file written.
     */
    method Delete(p: Record -> bool) returns (removed: bool)
      modifies this
      ensures removed <==> exists i | 0 <= i < |old(Contents())| :: p(old(Contents())[i])
      ensures removed ==> file == Some(Filter(old(Contents()), Not(p)))
      ensures !removed ==> file == old(file)
    {
      var data := ReadAll();
      var filtered := Filter(data, Not(p));
      FilterLength(data, Not(p));
      if |filtered| == |data| {
        return false;
      }
      WriteAll(filtered);
      removed := true;
    }
  }

  /** The five collections of the application, one file each. */
  class Collections {
    const users: JsonStorage
    const cases: JsonStorage
    const updates: JsonStorage
    const admins: JsonStorage
    const config: JsonStorage

    /** The five collections are distinct objects, so writing one leaves the others alone. */
    predicate Valid()
    {
      && users != cases && users != updates && users != admins && users != config
      && cases != updates && cases != admins && cases != config
      && updates != admins && updates != config
      && admins != config
    }

    constructor (usersFile: Option<seq<Record>>, casesFile: Option<seq<Record>>,
                 updatesFile: Option<seq<Record>>, adminsFile: Option<seq<Record>>,
                 configFile: Option<seq<Record>>)
      ensures Valid()
      ensures fresh(users) && fresh(cases) && fresh(updates) && fresh(admins) && fresh(config)
      ensures users.fileName == "users.json" && users.file == usersFile
      ensures cases.fileName == "cases.json" && cases.file == casesFile
      ensures updates.fileName == "updates.json" && updates.file == updatesFile
      ensures admins.fileName == "admins.json" && admins.file == adminsFile
      ensures config.fileName == "config.json" && config.file == configFile
    {
      users := new JsonStorage("users.json", usersFile);
      cases := new JsonStorage("cases.json", casesFile);
      updates := new JsonStorage("updates.json", updatesFile);
      admins := new JsonStorage("admins.json", adminsFile);
      config := new JsonStorage("config.json", configFile);
    }
  }
}
