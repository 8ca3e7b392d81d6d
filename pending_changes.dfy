/**
 * The pending-changes log (core/pending_changes.py): a JSON file, keyed by
 * FAQ id, that records which FAQs changed since the vector cache was last
 * rebuilt, what kind of change each was and the status to restore.
 */
module PendingChanges {
  import opened Wrappers
  import opened Text

  // ---------------------------------------------------------------- entries

  datatype ChangeType = Created | Updated | Deleted {
    /** The enum's string value, as stored in the file. */
    function Name(): string {
      match this
      case Created => "created"
      case Updated => "updated"
      case Deleted => "deleted"
    }
  }

  /** `ChangeType(s)`: the member whose value is `s`, or ValueError. */
  function ParseChangeType(s: string): (r: Result<ChangeType>)
    ensures forall t: ChangeType :: r == Ok(t) <==> t.Name() == s
    ensures r.Err? ==> r.error.ValueError?
  {
    if s == "created" then Ok(Created)
    else if s == "updated" then Ok(Updated)
    else if s == "deleted" then Ok(Deleted)
    else Err(ValueError("'" + s + "' is not a valid ChangeType"))
  }

  /** One `PendingChange`. */
  datatype PendingChange = PendingChange(
    faqId: int,
    changeType: ChangeType,
    originalStatus: Option<string>,
    timestamp: string)

  /** An entry of the file as `json.load` returns it; a key may be missing. */
  datatype ChangeDict = ChangeDict(
    faqId: Option<int>,
    changeType: Option<string>,
    originalStatus: Option<string>,
    timestamp: Option<string>)

  /** `PendingChange.__init__`: an absent or empty timestamp becomes `now`. */
  function NewChange(faqId: int, changeType: ChangeType, originalStatus: Option<string>,
                     timestamp: Option<string>, now: string): PendingChange
  {
    PendingChange(faqId, changeType, originalStatus,
                  if timestamp.Some? && timestamp.value != [] then timestamp.value else now)
  }

  /** `PendingChange.to_dict`: all four keys. */
  function ToDict(c: PendingChange): (d: ChangeDict)
    ensures d.faqId.Some? && d.changeType.Some? && d.timestamp.Some?
  {
    ChangeDict(Some(c.faqId), Some(c.changeType.Name()), c.originalStatus, Some(c.timestamp))
  }

  /**
   * `PendingChange.from_dict`: `faq_id` and `change_type` must be there
   * (KeyError) and the type must be a member (ValueError); the other two keys
   * are optional.
   */
  function FromDict(d: ChangeDict, now: string): (r: Result<PendingChange>)
    ensures r.Ok? <==> d.faqId.Some? && d.changeType.Some? && d.changeType.value in ["created", "updated", "deleted"]
    ensures r.Ok? ==> (r.value.faqId == d.faqId.value && r.value.changeType.Name() == d.changeType.value
                    && r.value.originalStatus == d.originalStatus)
    ensures r.Ok? ==> r.value.timestamp == (if d.timestamp.Some? && d.timestamp.value != [] then d.timestamp.value else now)
    ensures d.faqId.None? || d.changeType.None? ==> r == Err(PythonError("KeyError"))
  {
    if d.faqId.None? || d.changeType.None? then Err(PythonError("KeyError"))
    else
      var t :- ParseChangeType(d.changeType.value);
      Ok(NewChange(d.faqId.value, t, d.originalStatus, d.timestamp, now))
  }

  /** Writing a change and reading it back gives the same change, whenever it has a timestamp. */
  lemma FromToDict(c: PendingChange, now: string)
    requires c.timestamp != []
    ensures FromDict(ToDict(c), now) == Ok(c)
  {
    var r := FromDict(ToDict(c), now);
    assert r.Ok?;
    assert r.value.changeType == c.changeType by {
      assert r.value.changeType.Name() == c.changeType.Name();
    }
  }

  // ---------------------------------------------------------------- ordering

  /** `a` sorts strictly before `b` by timestamp: newest first or oldest first. */
  predicate Precedes(a: PendingChange, b: PendingChange, newestFirst: bool) {
    if newestFirst then StrLt(b.timestamp, a.timestamp) else StrLt(a.timestamp, b.timestamp)
  }

  /** No change comes after one that should precede it. */
  predicate SortedBy(s: seq<PendingChange>, newestFirst: bool) {
    forall i, j :: 0 <= i < j < |s| ==> !Precedes(s[j], s[i], newestFirst)
  }

  lemma PrecedesTrans(a: PendingChange, b: PendingChange, c: PendingChange, newestFirst: bool)
    requires Precedes(a, b, newestFirst) && Precedes(b, c, newestFirst)
    ensures Precedes(a, c, newestFirst)
  {
    if newestFirst {
      StrLtTrans(c.timestamp, b.timestamp, a.timestamp);
    } else {
      StrLtTrans(a.timestamp, b.timestamp, c.timestamp);
    }
  }

  lemma PrecedesAsym(a: PendingChange, b: PendingChange, newestFirst: bool)
    ensures !(Precedes(a, b, newestFirst) && Precedes(b, a, newestFirst))
  {
    StrLtAsym(a.timestamp, b.timestamp);
  }

  /** One step of a stable insertion sort: `x` goes after every element it does not precede. */
  function Insert(s: seq<PendingChange>, x: PendingChange, newestFirst: bool): seq<PendingChange>
  {
    if s == [] then [x]
    else if Precedes(x, s[0], newestFirst) then [x] + s
    else [s[0]] + Insert(s[1..], x, newestFirst)
  }

  lemma {:induction false} InsertPermutes(s: seq<PendingChange>, x: PendingChange, newestFirst: bool)
    ensures multiset(Insert(s, x, newestFirst)) == multiset(s) + multiset{x}
    ensures |Insert(s, x, newestFirst)| == |s| + 1
  {
    if s != [] && !Precedes(x, s[0], newestFirst) {
      InsertPermutes(s[1..], x, newestFirst);
      ConsTail(s);
    }
  }

  /** Inserting into a sorted sequence keeps it sorted. */
  lemma {:induction false} InsertSorted(s: seq<PendingChange>, x: PendingChange, newestFirst: bool)
    requires SortedBy(s, newestFirst)
    ensures SortedBy(Insert(s, x, newestFirst), newestFirst)
  {
    if s == [] {
    } else if Precedes(x, s[0], newestFirst) {
      forall j | 0 <= j < |s|
        ensures !Precedes(s[j], x, newestFirst)
      {
        if Precedes(s[j], x, newestFirst) {
          PrecedesTrans(s[j], x, s[0], newestFirst);
          PrecedesAsym(s[0], x, newestFirst);
        }
      }
      assert Insert(s, x, newestFirst) == [x] + s;
    } else {
      var t := Insert(s[1..], x, newestFirst);
      InsertSorted(s[1..], x, newestFirst);
      InsertPermutes(s[1..], x, newestFirst);
      forall j | 0 <= j < |t|
        ensures !Precedes(t[j], s[0], newestFirst)
      {
        assert t[j] in multiset(s[1..]) + multiset{x};
        if t[j] != x {
          var k :| 1 <= k < |s| && s[k] == t[j];
        }
      }
    }
  }

  /** `list.sort(key=timestamp)`, descending when `newestFirst` (`reverse=True`). */
  method SortByTimestamp(cs: seq<PendingChange>, newestFirst: bool) returns (r: seq<PendingChange>)
    ensures SortedBy(r, newestFirst)
    ensures multiset(r) == multiset(cs) && |r| == |cs|
  {
    r := [];
    var i := 0;
    while i < |cs|
      invariant i <= |cs| && |r| == i
      invariant SortedBy(r, newestFirst)
      invariant multiset(r) == multiset(cs[..i])
    {
      InsertSorted(r, cs[i], newestFirst);
      InsertPermutes(r, cs[i], newestFirst);
      PrefixSnoc(cs, i);
      r := Insert(r, cs[i], newestFirst);
      i := i + 1;
    }
    assert cs[..i] == cs;
  }

  // ---------------------------------------------------------------- the file

  /** One member of the file's JSON object: the key `str(faq_id)` and the change stored under it. */
  datatype Entry = Entry(key: int, value: ChangeDict)

  /** The keys of a JSON object, in file order. */
  function Keys(es: seq<Entry>): (ks: seq<int>)
    ensures |ks| == |es| && forall i :: 0 <= i < |es| ==> ks[i] == es[i].key
  {
    if es == [] then [] else [es[0].key] + Keys(es[1..])
  }

  /** What `json.load` guarantees of an object: no key twice. */
  predicate DistinctKeys(es: seq<Entry>) {
    forall i, j :: 0 <= i < j < |es| ==> es[i].key != es[j].key
  }

  /** `d.get(k)` on the object. */
  function Lookup(es: seq<Entry>, k: int): Option<ChangeDict>
  {
    if es == [] then None else if es[0].key == k then Some(es[0].value) else Lookup(es[1..], k)
  }

  /** A key is looked up successfully exactly when it is one of the keys. */
  lemma {:induction false} LookupFound(es: seq<Entry>, k: int)
    ensures Lookup(es, k).Some? <==> k in Keys(es)
  {
    if es != [] {
      LookupFound(es[1..], k);
      assert Keys(es) == [es[0].key] + Keys(es[1..]);
    }
  }

  /** The object without the member for `k`, the others in their order. */
  function Without(es: seq<Entry>, k: int): seq<Entry>
  {
    if es == [] then [] else if es[0].key == k then Without(es[1..], k) else [es[0]] + Without(es[1..], k)
  }

  /** The object with `d` stored under `k`, at the end, replacing any earlier member for `k`. */
  function Put(es: seq<Entry>, k: int, d: ChangeDict): seq<Entry>
  {
    Without(es, k) + [Entry(k, d)]
  }

  lemma {:induction false} LookupWithout(es: seq<Entry>, k: int, j: int)
    ensures Lookup(Without(es, k), j) == if j == k then None else Lookup(es, j)
  {
    if es != [] { LookupWithout(es[1..], k, j); }
  }

  lemma {:induction false} LookupAppend(es: seq<Entry>, e: Entry, j: int)
    ensures Lookup(es + [e], j) == if Lookup(es, j).Some? then Lookup(es, j) else if j == e.key then Some(e.value) else None
  {
    if es != [] {
      assert (es + [e])[1..] == es[1..] + [e];
      LookupAppend(es[1..], e, j);
    }
  }

  /** After `Put`, `k` holds `d` and every other key what it held before. */
  lemma LookupPut(es: seq<Entry>, k: int, d: ChangeDict, j: int)
    ensures Lookup(Put(es, k, d), j) == if j == k then Some(d) else Lookup(es, j)
  {
    LookupWithout(es, k, j);
    LookupAppend(Without(es, k), Entry(k, d), j);
  }

  /** Removing a key leaves no new keys, and a duplicate-free object stays so. */
  lemma {:induction false} WithoutKeys(es: seq<Entry>, k: int)
    ensures forall e :: e in Without(es, k) ==> e in es && e.key != k
    ensures DistinctKeys(es) ==> DistinctKeys(Without(es, k))
  {
    if es != [] {
      WithoutKeys(es[1..], k);
      if DistinctKeys(es) {
        assert DistinctKeys(es[1..]);
        var w := Without(es, k);
        if es[0].key != k {
          assert w == [es[0]] + Without(es[1..], k);
          forall j | 0 < j < |w| ensures w[0].key != w[j].key {
            assert w[j] in es[1..];
          }
        }
      }
    }
  }

  lemma PutDistinct(es: seq<Entry>, k: int, d: ChangeDict)
    requires DistinctKeys(es)
    ensures DistinctKeys(Put(es, k, d))
  {
    WithoutKeys(es, k);
    var w := Without(es, k);
    forall i | 0 <= i < |w| ensures w[i].key != k {
      assert w[i] in w;
    }
  }

  // ---------------------------------------------------------------- listings

  /** Every entry of the file is a well-formed change. */
  predicate AllParse(es: seq<Entry>, now: string) {
    forall i :: 0 <= i < |es| ==> FromDict(es[i].value, now).Ok?
  }

  /** The entries, parsed, in file order. */
  function Changes(es: seq<Entry>, now: string): (cs: seq<PendingChange>)
    requires AllParse(es, now)
  {
    if es == [] then [] else Changes(es[..|es| - 1], now) + [FromDict(es[|es| - 1].value, now).value]
  }

  /** The `i`-th change is the `i`-th entry parsed. */
  lemma {:induction false} ChangesAt(es: seq<Entry>, now: string)
    requires AllParse(es, now)
    ensures |Changes(es, now)| == |es|
    ensures forall i :: 0 <= i < |es| ==> Changes(es, now)[i] == FromDict(es[i].value, now).value
  {
    if es != [] {
      var init := es[..|es| - 1];
      assert AllParse(init, now);
      ChangesAt(init, now);
      ChangesLast(es, now);
    }
  }

  lemma ChangesLast(es: seq<Entry>, now: string)
    requires es != [] && AllParse(es, now)
    ensures forall i :: 0 <= i < |es| - 1 ==> es[..|es| - 1][i] == es[i]
  {
  }

  /** One more entry of the loop. */
  lemma ChangesStep(es: seq<Entry>, i: nat, now: string)
    requires i < |es| && AllParse(es[..i], now) && FromDict(es[i].value, now).Ok?
    ensures AllParse(es[..i + 1], now)
    ensures Changes(es[..i + 1], now) == Changes(es[..i], now) + [FromDict(es[i].value, now).value]
  {
    assert es[..i + 1][..i] == es[..i];
  }

  /** The `stats` dict of a listing: how many changes of each type. */
  datatype Stats = Stats(created: nat, updated: nat, deleted: nat) {
    function Bump(t: ChangeType): Stats {
      match t
      case Created => this.(created := created + 1)
      case Updated => this.(updated := updated + 1)
      case Deleted => this.(deleted := deleted + 1)
    }

    function Total(): nat { created + updated + deleted }
  }

  /** The counts of a sequence of changes. */
  function Tally(cs: seq<PendingChange>): Stats
  {
    if cs == [] then Stats(0, 0, 0) else Tally(cs[..|cs| - 1]).Bump(cs[|cs| - 1].changeType)
  }

  lemma TallyStep(cs: seq<PendingChange>, c: PendingChange)
    ensures Tally(cs + [c]) == Tally(cs).Bump(c.changeType)
  {
    assert (cs + [c])[..|cs|] == cs;
  }

  /** What the three counts add up to: every change is counted once. */
  lemma {:induction false} TallyTotal(cs: seq<PendingChange>)
    ensures Tally(cs).Total() == |cs|
  {
    if cs != [] { TallyTotal(cs[..|cs| - 1]); }
  }

  /** `get_pending_changes`' result. */
  datatype Summary = Summary(
    changes: seq<PendingChange>,
    totalCount: nat,
    stats: Stats,
    hasPending: bool,
    timestamp: string)

  /** `clear_all_pending_changes`' result. */
  datatype Cleared = Cleared(clearedCount: nat, timestamp: string)

  /** The pending-changes file: missing, present but not JSON, or a JSON object. */
  datatype Disk = Absent | Unreadable | Json(entries: seq<Entry>)

  const PendingFileName: string := "pending_changes.json"

  predicate IsPrefixOf(s: string, t: string) {
    |s| <= |t| && t[..|s|] == s
  }

  predicate IsSuffixOf(s: string, t: string) {
    |s| <= |t| && t[|t| - |s|..] == s
  }

  /** `os.path.join(dir, name)` for a relative `name`. */
  function PathJoin(dir: string, name: string): (p: string)
    ensures IsSuffixOf(name, p) && IsPrefixOf(dir, p)
  {
    if dir == [] then name
    else if dir[|dir| - 1] == '/' then dir + name
    else dir + "/" + name
  }

  class PendingChangesManager {
    const cacheDir: string
    /** What the pending-changes file holds. */
    var disk: Disk
    /** Whether writing the file succeeds; a failed write raises IOError. */
    var writable: bool

    /** The file, when it parses, has each key once (as `json.load` returns it). */
    predicate Valid()
      reads this
    {
      disk.Json? ==> DistinctKeys(disk.entries)
    }

    /** `__init__`: an empty or absent directory falls back to the configured cache directory. */
    constructor (cacheDir: Option<string>, configuredDir: string, disk: Disk, writable: bool)
      requires disk.Json? ==> DistinctKeys(disk.entries)
      ensures Valid()
      ensures this.cacheDir == (if cacheDir.Some? && cacheDir.value != [] then cacheDir.value else configuredDir)
      ensures this.disk == disk && this.writable == writable
    {
      this.cacheDir := if cacheDir.Some? && cacheDir.value != [] then cacheDir.value else configuredDir;
      this.disk := disk;
      this.writable := writable;
    }

    /** `_load_pending_changes`: a missing or unreadable file reads as no changes. */
    function Load(): (es: seq<Entry>)
      reads this
      requires Valid()
      ensures DistinctKeys(es)
      ensures !disk.Json? ==> es == []
    {
      if disk.Json? then disk.entries else []
    }

    /** `_save_pending_changes`: overwrites the file, or raises CacheError. */
    method Save(es: seq<Entry>) returns (r: Outcome)
      requires DistinctKeys(es)
      modifies this
      ensures Valid() == old(Valid()) || r == Done
      ensures writable == old(writable)
      ensures old(writable) ==> r == Done && disk == Json(es) && Valid()
      ensures !old(writable) ==> r == Raised(CacheError("Failed to save pending changes")) && disk == old(disk)
    {
      if writable {
        disk := Json(es);
        r := Done;
      } else {
        r := Raised(CacheError("Failed to save pending changes"));
      }
    }

    /**
     * `add_pending_change`: the new change, stamped `now`, replaces any earlier
     * change recorded for the same FAQ; every other entry is kept.
     */
    method AddPendingChange(faqId: int, changeType: ChangeType, originalStatus: Option<string>, now: string)
      returns (r: Outcome)
      requires Valid()
      modifies this
      ensures Valid() && writable == old(writable)
      ensures r == Done <==> old(writable)
      ensures r.Raised? ==> r.error == CacheError("Failed to add pending change") && disk == old(disk)
      ensures r == Done ==> disk == Json(Put(old(Load()), faqId, ToDict(PendingChange(faqId, changeType, originalStatus, now))))
    {
      var pending := Load();
      pending := Without(pending, faqId);
      var change := NewChange(faqId, changeType, originalStatus, None, now);
      pending := pending + [Entry(faqId, ToDict(change))];
      PutDistinct(Load(), faqId, ToDict(change));
      var saved := Save(pending);
      if saved.Raised? {
        return Raised(CacheError("Failed to add pending change"));
      }
      r := Done;
    }

    /** `remove_pending_change`: true iff there was a change for the FAQ; it is then dropped. */
    method RemovePendingChange(faqId: int) returns (r: Result<bool>)
      requires Valid()
      modifies this
      ensures Valid() && writable == old(writable)
      ensures faqId !in Keys(old(Load())) ==> r == Ok(false) && disk == old(disk)
      ensures faqId in Keys(old(Load())) && old(writable) ==> r == Ok(true) && disk == Json(Without(old(Load()), faqId))
      ensures faqId in Keys(old(Load())) && !old(writable) ==>
                r == Err(CacheError("Failed to remove pending change")) && disk == old(disk)
    {
      var pending := Load();
      if faqId in Keys(pending) {
        WithoutKeys(pending, faqId);
        var saved := Save(Without(pending, faqId));
        if saved.Raised? {
          return Err(CacheError("Failed to remove pending change"));
        }
        return Ok(true);
      }
      r := Ok(false);
    }

    /**
     * `get_pending_changes`: every entry parsed, newest first, with counts per
     * type; one malformed entry makes the whole call fail.
     */
    method GetPendingChanges(now: string) returns (r: Result<Summary>)
      requires Valid()
      ensures r.Ok? <==> AllParse(Load(), now)
      ensures r.Err? ==> r.error == CacheError("Failed to get pending changes")
      ensures r.Ok? ==> SortedBy(r.value.changes, true)
      ensures r.Ok? ==> multiset(r.value.changes) == multiset(Changes(Load(), now))
      ensures r.Ok? ==> r.value.stats == Tally(Changes(Load(), now)) && r.value.totalCount == |Load()|
      ensures r.Ok? ==> r.value.hasPending == (|Load()| > 0) && r.value.timestamp == now
    {
      var pending := Load();
      var changes: seq<PendingChange> := [];
      var stats := Stats(0, 0, 0);
      for i := 0 to |pending|
        invariant AllParse(pending[..i], now)
        invariant changes == Changes(pending[..i], now)
        invariant stats == Tally(changes)
      {
        var change := FromDict(pending[i].value, now);
        if change.Err? {
          return Err(CacheError("Failed to get pending changes"));
        }
        ChangesStep(pending, i, now);
        TallyStep(changes, change.value);
        changes := changes + [change.value];
        stats := stats.Bump(change.value.changeType);
      }
      assert pending[..|pending|] == pending;
      ChangesAt(pending, now);
      var sorted := SortByTimestamp(changes, true);
      r := Ok(Summary(sorted, |sorted|, stats, |sorted| > 0, now));
    }

    /** `get_pending_faq_ids`: the FAQs that have a pending change. */
    method GetPendingFaqIds() returns (ids: set<int>)
      requires Valid()
      ensures forall id :: id in ids <==> Lookup(Load(), id).Some?
    {
      var keys := Keys(Load());
      ids := set k | k in keys;
      forall id ensures id in ids <==> Lookup(Load(), id).Some? {
        LookupFound(Load(), id);
      }
    }

    /** `clear_all_pending_changes`: how many entries there were; the file is then emptied. */
    method ClearAllPendingChanges(now: string) returns (r: Result<Cleared>)
      requires Valid()
      modifies this
      ensures Valid() && writable == old(writable)
      ensures old(writable) ==> r == Ok(Cleared(|old(Load())|, now)) && disk == Json([])
      ensures !old(writable) ==> r == Err(CacheError("Failed to clear pending changes")) && disk == old(disk)
    {
      var count := |Load()|;
      var saved := Save([]);
      if saved.Raised? {
        return Err(CacheError("Failed to clear pending changes"));
      }
      r := Ok(Cleared(count, now));
    }

    /** `get_changes_for_rebuild`: every entry parsed, oldest first. */
    method GetChangesForRebuild(now: string) returns (r: Result<seq<PendingChange>>)
      requires Valid()
      ensures r.Ok? <==> AllParse(Load(), now)
      ensures r.Err? ==> r.error == CacheError("Failed to get changes for rebuild")
      ensures r.Ok? ==> SortedBy(r.value, false) && multiset(r.value) == multiset(Changes(Load(), now))
    {
      var pending := Load();
      var changes: seq<PendingChange> := [];
      for i := 0 to |pending|
        invariant AllParse(pending[..i], now)
        invariant changes == Changes(pending[..i], now)
      {
        var change := FromDict(pending[i].value, now);
        if change.Err? {
          return Err(CacheError("Failed to get changes for rebuild"));
        }
        ChangesStep(pending, i, now);
        changes := changes + [change.value];
      }
      assert pending[..|pending|] == pending;
      var sorted := SortByTimestamp(changes, false);
      r := Ok(sorted);
    }

    /** `get_file_path`: the file name inside the cache directory. */
    function GetFilePath(): (p: string)
      ensures IsSuffixOf(PendingFileName, p) && IsPrefixOf(cacheDir, p)
    {
      PathJoin(cacheDir, PendingFileName)
    }

    /** `file_exists`: an unreadable file still exists. */
    predicate FileExists()
      reads this
    {
      !disk.Absent?
    }
  }
}
