/**
 * `FAQManager` (core/faq.py) over a table held in memory: the staging
 * protocol that stores every created or edited FAQ as "pending", records the
 * status it is meant to have in the pending-changes log, and writes those
 * statuses back after the search index is rebuilt.
 */
module FaqStaging {
  import opened Wrappers
  import opened Text
  import opened TagsJson
  import opened Models
  import opened PendingChanges
  import opened Faq

  /** The page `get_faqs` returns. */
  datatype FaqPage = FaqPage(
    faqs: seq<FaqResponse>,
    total: nat,
    limit: int,
    offset: int,
    hasMore: bool,
    timestamp: string)

  /** The prefix of the DatabaseError a failed restore raises, before the message of the cause. */
  const RestoreFailed: string := "Failed to restore FAQ statuses: "

  /** The report of `restore_faq_statuses_after_rebuild`. */
  datatype RestoreReport = RestoreReport(success: bool, restoredCount: nat, clearedCount: nat, timestamp: string)

  /** One dict of `_load_for_rag`. */
  datatype RagDoc = RagDoc(id: int, question: string, answer: string, status: string, category: string, tags: seq<string>)

  function RagDocOf(r: Row): RagDoc
  {
    RagDoc(r.id, r.question, r.answer, r.status, r.category, ParseTags(r.tags))
  }

  /** The documents `_load_for_rag` returns for a table: one per row, in id order. */
  function RagDocs(rows: seq<Row>): seq<RagDoc>
  {
    seq(|rows|, i requires 0 <= i < |rows| => RagDocOf(rows[i]))
  }

  /** The status replay writes back for a change, if any: not a deletion, and a status other than "" or "pending". */
  function RestoreStatus(c: PendingChange): Option<string>
  {
    if c.changeType == Deleted then None
    else if c.originalStatus.Some? && c.originalStatus.value != [] && c.originalStatus.value != "pending" then c.originalStatus
    else None
  }

  /** `_update_status_only`: an UPDATE of status and `updated_at`, which does nothing when the id is gone. */
  function SetStatus(rows: seq<Row>, id: int, status: string, now: string): seq<Row>
  {
    match Find(rows, id)
    case None => rows
    case Some(row) => Replace(rows, row.(status := status, updatedAt := now))
  }

  /** The table after the replay loop has visited `cs`, in order. */
  function Replay(rows: seq<Row>, cs: seq<PendingChange>, now: string): seq<Row>
  {
    if cs == [] then rows
    else
      var last := cs[|cs| - 1];
      var before := Replay(rows, cs[..|cs| - 1], now);
      if RestoreStatus(last).Some? then SetStatus(before, last.faqId, RestoreStatus(last).value, now) else before
  }

  /** How many changes the replay loop counts as restored. */
  function RestoredCount(cs: seq<PendingChange>): nat
  {
    if cs == [] then 0
    else RestoredCount(cs[..|cs| - 1]) + (if RestoreStatus(cs[|cs| - 1]).Some? then 1 else 0)
  }

  /** The status the last restorable change for `id` in `cs` names, if there is one. */
  function LastFor(cs: seq<PendingChange>, id: int): Option<string>
  {
    if cs == [] then None
    else if cs[|cs| - 1].faqId == id && RestoreStatus(cs[|cs| - 1]).Some? then RestoreStatus(cs[|cs| - 1])
    else LastFor(cs[..|cs| - 1], id)
  }

  lemma SetStatusShape(rows: seq<Row>, id: int, status: string, now: string)
    requires Ascending(rows)
    ensures var r := SetStatus(rows, id, status, now);
            |r| == |rows| && forall i :: 0 <= i < |rows| ==> r[i].id == rows[i].id
  {
  }

  /** `_update_status_only` changes the status and `updated_at` of its row and nothing else. */
  lemma SetStatusFind(rows: seq<Row>, id: int, status: string, now: string, j: int)
    requires Ascending(rows)
    ensures Find(SetStatus(rows, id, status, now), j)
         == if j == id && Find(rows, j).Some? then Some(Find(rows, j).value.(status := status, updatedAt := now))
            else Find(rows, j)
  {
    if Find(rows, id).Some? {
      FindReplace(rows, Find(rows, id).value.(status := status, updatedAt := now), j);
    }
  }

  /**
   * After the replay, each FAQ has the status of the last restorable change
   * for it, stamped with the replay's time; an FAQ with no such change is
   * untouched, and no row appears or disappears.
   */
  lemma {:induction false} ReplayFind(rows: seq<Row>, cs: seq<PendingChange>, now: string, j: int)
    requires Ascending(rows)
    ensures Ascending(Replay(rows, cs, now)) && |Replay(rows, cs, now)| == |rows|
    ensures Find(Replay(rows, cs, now), j)
         == if LastFor(cs, j).Some? && Find(rows, j).Some? then Some(Find(rows, j).value.(status := LastFor(cs, j).value, updatedAt := now))
            else Find(rows, j)
  {
    if cs != [] {
      var last := cs[|cs| - 1];
      var before := Replay(rows, cs[..|cs| - 1], now);
      ReplayFind(rows, cs[..|cs| - 1], now, j);
      ReplayFind(rows, cs[..|cs| - 1], now, last.faqId);
      if RestoreStatus(last).Some? {
        SetStatusShape(before, last.faqId, RestoreStatus(last).value, now);
        SetStatusFind(before, last.faqId, RestoreStatus(last).value, now, j);
      }
    }
  }

  /** The replay counts exactly the changes it would write back, and never more than it was given. */
  lemma {:induction false} RestoredCountBound(cs: seq<PendingChange>)
    ensures RestoredCount(cs) <= |cs|
    ensures (forall i :: 0 <= i < |cs| ==> RestoreStatus(cs[i]).None?) <==> RestoredCount(cs) == 0
  {
    if cs != [] {
      RestoredCountBound(cs[..|cs| - 1]);
      assert forall i :: 0 <= i < |cs| - 1 ==> cs[..|cs| - 1][i] == cs[i];
    }
  }

  lemma ReplayStep(rows: seq<Row>, cs: seq<PendingChange>, i: nat, now: string)
    requires i < |cs|
    ensures Replay(rows, cs[..i + 1], now)
         == (var before := Replay(rows, cs[..i], now);
             if RestoreStatus(cs[i]).Some? then SetStatus(before, cs[i].faqId, RestoreStatus(cs[i]).value, now) else before)
    ensures RestoredCount(cs[..i + 1]) == RestoredCount(cs[..i]) + (if RestoreStatus(cs[i]).Some? then 1 else 0)
  {
    PrefixSnoc(cs, i);
    assert cs[..i + 1][..i] == cs[..i];
  }

  lemma {:induction false} RestoredCountAppend(a: seq<PendingChange>, b: seq<PendingChange>)
    ensures RestoredCount(a + b) == RestoredCount(a) + RestoredCount(b)
  {
    if b != [] {
      var n := |b| - 1;
      assert (a + b)[..|a + b| - 1] == a + b[..n];
      RestoredCountAppend(a, b[..n]);
    } else {
      assert a + b == a;
    }
  }

  /** Taking one change out of a run takes its share out of the count. */
  lemma RestoredCountRemove(l: seq<PendingChange>, x: PendingChange, r: seq<PendingChange>)
    ensures RestoredCount(l + [x] + r) == RestoredCount(l + r) + RestoredCount([x])
  {
    RestoredCountAppend(l + [x], r);
    RestoredCountAppend(l, [x]);
    RestoredCountAppend(l, r);
  }

  lemma MultisetRemove(b: seq<PendingChange>, k: nat)
    requires k < |b|
    ensures b == b[..k] + [b[k]] + b[k + 1..]
    ensures multiset(b) == multiset(b[..k] + b[k + 1..]) + multiset{b[k]}
  {
    assert b == b[..k] + [b[k]] + b[k + 1..];
  }

  lemma CancelOne<T>(p: multiset<T>, q: multiset<T>, x: T)
    requires p + multiset{x} == q + multiset{x}
    ensures p == q
  {
    assert p == p + multiset{x} - multiset{x};
    assert q == q + multiset{x} - multiset{x};
  }

  /** The count does not depend on the order the changes are replayed in. */
  lemma {:induction false} RestoredCountPerm(a: seq<PendingChange>, b: seq<PendingChange>)
    requires multiset(a) == multiset(b)
    ensures RestoredCount(a) == RestoredCount(b)
    decreases |a|
  {
    if a == [] {
      assert |b| == |multiset(b)| == 0;
    } else {
      var n := |a| - 1;
      var x := a[n];
      assert x in multiset(b) by {
        assert a == a[..n] + [x];
      }
      var k :| 0 <= k < |b| && b[k] == x;
      var l, r := b[..k], b[k + 1..];
      MultisetRemove(b, k);
      RestoredCountRemove(l, x, r);
      assert RestoredCount(b) == RestoredCount(l + r) + RestoredCount([x]);
      assert multiset(a) == multiset(a[..n]) + multiset{x} by {
        assert a == a[..n] + [x];
      }
      CancelOne(multiset(a[..n]), multiset(l + r), x);
      RestoredCountPerm(a[..n], l + r);
      assert [x][..0] == [];
    }
  }

  /**
   * What the uncommitted writes lose: a FAQ created as "public" is counted as
   * restored, the replay the code intends would publish it, and the table as
   * written still holds it as "pending".
   */
  lemma RestoreLosesStatus(row: Row, now: string)
    requires row.status == "pending"
    ensures var c := PendingChange(row.id, Created, Some("public"), now);
      && RestoredCount([c]) == 1
      && Replay([row], [c], now) == [row.(status := "public", updatedAt := now)]
  {
    var c := PendingChange(row.id, Created, Some("public"), now);
    assert [c][..0] == [];
  }

  /**
   * The status an edit should log: the requested one, else the one the
   * pending entry for the FAQ already records, else the stored one.
   */
  function IntendedStatus(req: UpdateRequest, logged: Option<ChangeDict>, before: Row): (r: string)
    ensures logged.None? ==> r == req.status.GetOr(before.status)
    ensures req.status.None? && logged.Some? && logged.value.originalStatus.Some? ==> r == logged.value.originalStatus.value
  {
    if req.status.Some? then req.status.value
    else if logged.Some? && logged.value.originalStatus.Some? then logged.value.originalStatus.value
    else before.status
  }

  /**
   * An edit without a status of a FAQ created with status `s`: as written,
   * the UPDATED entry logs the stored "pending" and replaces the CREATED
   * entry, so the restore has nothing to write back for it.
   */
  lemma EditForgetsStatus(es: seq<Entry>, create: CreateRequest, edit: UpdateRequest, id: int,
                          sqlNow: string, t1: string, t2: string)
    requires edit.status.None? && t2 != []
    ensures var logged := Put(es, id, ToDict(PendingChange(id, Created, Some(create.status), t1)));
            var before := CreatedRow(create, id, sqlNow);
            var c := PendingChange(id, Updated, Some(edit.status.GetOr(before.status)), t2);
      && Lookup(Put(logged, id, ToDict(c)), id) == Some(ToDict(c))
      && FromDict(ToDict(c), t2) == Ok(c)
      && RestoreStatus(c) == None
  {
    var logged := Put(es, id, ToDict(PendingChange(id, Created, Some(create.status), t1)));
    var c := PendingChange(id, Updated, Some("pending"), t2);
    LookupPut(logged, id, ToDict(c), id);
    FromToDict(c, t2);
  }

  /**
   * With the intended status logged instead, the same edit keeps the status
   * the FAQ was created with, and the restore writes it back.
   */
  lemma EditKeepsIntendedStatus(es: seq<Entry>, create: CreateRequest, edit: UpdateRequest, id: int,
                                sqlNow: string, t1: string, t2: string)
    requires edit.status.None? && t2 != []
    requires create.status != [] && create.status != "pending"
    ensures var logged := Put(es, id, ToDict(PendingChange(id, Created, Some(create.status), t1)));
            var before := CreatedRow(create, id, sqlNow);
            var c := PendingChange(id, Updated, Some(IntendedStatus(edit, Lookup(logged, id), before)), t2);
      && Lookup(Put(logged, id, ToDict(c)), id) == Some(ToDict(c))
      && RestoreStatus(c) == Some(create.status)
  {
    var logged := Put(es, id, ToDict(PendingChange(id, Created, Some(create.status), t1)));
    LookupPut(es, id, ToDict(PendingChange(id, Created, Some(create.status), t1)), id);
    var before := CreatedRow(create, id, sqlNow);
    var c := PendingChange(id, Updated, Some(IntendedStatus(edit, Lookup(logged, id), before)), t2);
    LookupPut(logged, id, ToDict(c), id);
  }

  /** The rows `get_faqs` returns and the page around them. */
  function Listing(rows: seq<Row>, f: Filters, limit: nat, offset: nat, now: string): (p: FaqPage)
    ensures p.total == |Select(rows, f)|
    ensures |p.faqs| == |Page(Select(rows, f), limit, offset)| <= limit
    ensures p.faqs == [] || offset + |p.faqs| <= p.total
    ensures forall i :: 0 <= i < |p.faqs| ==> p.faqs[i] == RowToFaq(Select(rows, f)[offset + i])
    ensures p.hasMore <==> offset + limit < p.total
  {
    var selected := Select(rows, f);
    var page := Page(selected, limit, offset);
    HasMoreIff(selected, limit, offset);
    FaqPage(seq(|page|, i requires 0 <= i < |page| => RowToFaq(page[i])), |selected|, limit, offset,
            offset + |page| < |selected|, now)
  }

  class FaqManager {
    /** The `faqs` table, in id order. */
    var rows: seq<Row>
    /** The id the next INSERT receives (AUTOINCREMENT). */
    var nextId: int
    /** `self.pending_changes`. */
    const log: PendingChangesManager

    predicate Valid()
      reads this, log
    {
      log.Valid() && Ascending(rows) && IdsBelow(rows, nextId) && 1 <= nextId
    }

    /** A manager over an existing table and log. */
    constructor (rows: seq<Row>, nextId: int, log: PendingChangesManager)
      requires log.Valid() && Ascending(rows) && IdsBelow(rows, nextId) && 1 <= nextId
      ensures Valid() && this.rows == rows && this.nextId == nextId && this.log == log
    {
      this.rows := rows;
      this.nextId := nextId;
      this.log := log;
    }

    /** `get_faq_by_id`. */
    function GetFaqById(id: int): (r: Result<FaqResponse>)
      reads this
      ensures r.Ok? <==> (exists i :: 0 <= i < |rows| && rows[i].id == id)
      ensures r.Ok? ==> Find(rows, id).Some? && r.value == RowToFaq(Find(rows, id).value) && r.value.id == id
      ensures r.Err? ==> r.error == NotFoundError("FAQ not found with ID: " + IntToString(id))
    {
      FindIffPresent(rows, id);
      match Find(rows, id)
      case None => Err(NotFoundError("FAQ not found with ID: " + IntToString(id)))
      case Some(row) => Ok(RowToFaq(row))
    }

    /**
     * `create_faq`: validate, insert the row as "pending" under the next id,
     * then log CREATED with the requested status. A log failure is raised
     * after the row was inserted.
     */
    method CreateFaq(req: CreateRequest, sqlNow: string, isoNow: string) returns (r: Result<FaqResponse>)
      requires Valid()
      modifies this, log
      ensures Valid() && log.writable == old(log.writable)
      ensures CreateCheck(req).Raised? ==>
        r == Err(CreateCheck(req).error) && rows == old(rows) && nextId == old(nextId) && log.disk == old(log.disk)
      ensures CreateCheck(req) == Done ==>
        rows == old(rows) + [CreatedRow(req, old(nextId), sqlNow)] && nextId == old(nextId) + 1
      ensures CreateCheck(req) == Done && old(log.writable) ==>
        && r == Ok(RowToFaq(CreatedRow(req, old(nextId), sqlNow)))
        && log.disk == Json(Put(old(log.Load()), old(nextId), ToDict(PendingChange(old(nextId), Created, Some(req.status), isoNow))))
      ensures CreateCheck(req) == Done && !old(log.writable) ==>
        r == Err(CacheError("Failed to add pending change")) && log.disk == old(log.disk)
    {
      var check := CreateCheck(req);
      if check.Raised? {
        return Err(check.error);
      }
      r := InsertAndLog(CreatedRow(req, nextId, sqlNow), req.status, isoNow);
    }

    /** The part of `create_faq` after validation: insert the row, then log its creation. */
    method InsertAndLog(row: Row, status: string, isoNow: string) returns (r: Result<FaqResponse>)
      requires Valid() && row.id == nextId
      modifies this, log
      ensures Valid() && log.writable == old(log.writable)
      ensures rows == old(rows) + [row] && nextId == old(nextId) + 1
      ensures old(log.writable) ==>
        && r == Ok(RowToFaq(row))
        && log.disk == Json(Put(old(log.Load()), row.id, ToDict(PendingChange(row.id, Created, Some(status), isoNow))))
      ensures !old(log.writable) ==>
        r == Err(CacheError("Failed to add pending change")) && log.disk == old(log.disk)
    {
      Insert(row);
      var logged := log.AddPendingChange(row.id, Created, Some(status), isoNow);
      if logged.Raised? {
        return Err(logged.error);
      }
      r := Ok(RowToFaq(row));
    }

    /** The INSERT of `_create`: the row goes at the end under the next id. */
    method Insert(row: Row)
      requires Valid() && row.id == nextId
      modifies this
      ensures Valid() && rows == old(rows) + [row] && nextId == old(nextId) + 1
    {
      AppendFits(rows, row, nextId);
      rows := rows + [row];
      nextId := nextId + 1;
    }

    /**
     * `update_faq`: a missing id is NotFound before anything is validated;
     * then the given fields are written with status "pending", and UPDATED is
     * logged with the requested status, or the stored one when none is given.
     */
    method UpdateFaq(id: int, req: UpdateRequest, sqlNow: string, isoNow: string)
      returns (r: Result<(FaqResponse, FaqResponse)>)
      requires Valid()
      modifies this, log
      ensures Valid() && nextId == old(nextId) && log.writable == old(log.writable)
      ensures Find(old(rows), id).None? ==>
        r == Err(NotFoundError("FAQ not found with ID: " + IntToString(id))) && rows == old(rows) && log.disk == old(log.disk)
      ensures Find(old(rows), id).Some? && UpdateCheck(req).Raised? ==>
        r == Err(UpdateCheck(req).error) && rows == old(rows) && log.disk == old(log.disk)
      ensures Find(old(rows), id).Some? && UpdateCheck(req) == Done ==>
        (var before := Find(old(rows), id).value;
         var after := UpdatedRow(before, UpdatesOf(req), sqlNow);
         && rows == Replace(old(rows), after)
         && (old(log.writable) ==>
               && r == Ok((RowToFaq(after), RowToFaq(before)))
               && log.disk == Json(Put(old(log.Load()), id,
                                       ToDict(PendingChange(id, Updated, Some(req.status.GetOr(before.status)), isoNow)))))
         && (!old(log.writable) ==> r == Err(CacheError("Failed to add pending change")) && log.disk == old(log.disk)))
    {
      var found := Find(rows, id);
      if found.None? {
        return Err(NotFoundError("FAQ not found with ID: " + IntToString(id)));
      }
      var before := found.value;
      var check := UpdateCheck(req);
      if check.Raised? {
        return Err(check.error);
      }
      var originalStatus := req.status.GetOr(before.status);
      var updates := UpdatesOf(req);
      var stmt := BuildUpdate(updates, id);
      var after := if stmt.Some? then ApplyUpdates(before, updates).(updatedAt := sqlNow) else before;
      assert after == UpdatedRow(before, updates, sqlNow);
      UpdateStagesRow(before, req, sqlNow);
      r := StoreAndLog(before, after, originalStatus, isoNow);
    }

    /** The UPDATE of `_update`, then the UPDATED entry with the status to restore. */
    method StoreAndLog(before: Row, after: Row, originalStatus: string, isoNow: string)
      returns (r: Result<(FaqResponse, FaqResponse)>)
      requires Valid() && after.id == before.id
      modifies this, log
      ensures Valid() && nextId == old(nextId) && log.writable == old(log.writable)
      ensures rows == Replace(old(rows), after)
      ensures old(log.writable) ==>
        && r == Ok((RowToFaq(after), RowToFaq(before)))
        && log.disk == Json(Put(old(log.Load()), before.id,
                                ToDict(PendingChange(before.id, Updated, Some(originalStatus), isoNow))))
      ensures !old(log.writable) ==> r == Err(CacheError("Failed to add pending change")) && log.disk == old(log.disk)
    {
      rows := Replace(rows, after);
      var logged := log.AddPendingChange(before.id, Updated, Some(originalStatus), isoNow);
      if logged.Raised? {
        return Err(logged.error);
      }
      r := Ok((RowToFaq(after), RowToFaq(before)));
    }

    /** `delete_faq`: a missing id is NotFound; otherwise the row goes and DELETED is logged with its status. */
    method DeleteFaq(id: int, isoNow: string) returns (r: Result<FaqResponse>)
      requires Valid()
      modifies this, log
      ensures Valid() && nextId == old(nextId) && log.writable == old(log.writable)
      ensures Find(old(rows), id).None? ==>
        r == Err(NotFoundError("FAQ not found with ID: " + IntToString(id))) && rows == old(rows) && log.disk == old(log.disk)
      ensures Find(old(rows), id).Some? ==>
        (var before := Find(old(rows), id).value;
         && rows == Delete(old(rows), id) && |rows| < |old(rows)|
         && (old(log.writable) ==>
               && r == Ok(RowToFaq(before))
               && log.disk == Json(Put(old(log.Load()), id, ToDict(PendingChange(id, Deleted, Some(before.status), isoNow)))))
         && (!old(log.writable) ==> r == Err(CacheError("Failed to add pending change")) && log.disk == old(log.disk)))
    {
      var found := Find(rows, id);
      if found.None? {
        return Err(NotFoundError("FAQ not found with ID: " + IntToString(id)));
      }
      var before := found.value;
      DeleteAscending(rows, id);
      DeleteShrinks(rows, id);
      DeleteIdsBelow(rows, id, nextId);
      rows := Delete(rows, id);
      var logged := log.AddPendingChange(id, Deleted, Some(before.status), isoNow);
      if logged.Raised? {
        return Err(logged.error);
      }
      r := Ok(RowToFaq(before));
    }

    /**
     * `_update_status_only`: its UPDATE (`SetStatus`) goes through
     * `execute_query`, whose connection is closed without a commit, so the
     * table is left as it was.
     */
    method UpdateStatusOnly(id: int, status: string, isoNow: string)
      requires Valid()
      modifies this
      ensures Valid() && nextId == old(nextId)
      ensures rows == old(rows)
    {
    }

    /**
     * `restore_faq_statuses_after_rebuild`: replay the log oldest first,
     * counting every restorable status (whose write is never committed), then
     * clear the log. Any failure is reported as a DatabaseError.
     */
    method RestoreFaqStatuses(isoNow: string) returns (r: Result<RestoreReport>, ghost replayed: seq<PendingChange>)
      requires Valid()
      modifies this, log
      ensures Valid() && nextId == old(nextId) && log.writable == old(log.writable)
      ensures !AllParse(old(log.Load()), isoNow) ==>
        r == Err(DatabaseError(RestoreFailed + "Failed to get changes for rebuild"))
        && rows == old(rows) && log.disk == old(log.disk)
      ensures AllParse(old(log.Load()), isoNow) ==>
        && SortedBy(replayed, false)
        && multiset(replayed) == multiset(Changes(old(log.Load()), isoNow))
        && rows == old(rows)
      ensures AllParse(old(log.Load()), isoNow) && old(log.writable) ==>
        && r == Ok(RestoreReport(true, RestoredCount(Changes(old(log.Load()), isoNow)), |old(log.Load())|, isoNow))
        && log.disk == Json([])
      ensures AllParse(old(log.Load()), isoNow) && !old(log.writable) ==>
        r == Err(DatabaseError(RestoreFailed + "Failed to clear pending changes")) && log.disk == old(log.disk)
    {
      var got := log.GetChangesForRebuild(isoNow);
      if got.Err? {
        return Err(DatabaseError(RestoreFailed + got.error.msg)), [];
      }
      var changes := got.value;
      replayed := changes;
      var restoredCount := ReplayChanges(changes, isoNow);
      RestoredCountPerm(changes, Changes(old(log.Load()), isoNow));
      var cleared := log.ClearAllPendingChanges(isoNow);
      if cleared.Err? {
        return Err(DatabaseError(RestoreFailed + cleared.error.msg)), replayed;
      }
      r := Ok(RestoreReport(true, restoredCount, cleared.value.clearedCount, isoNow));
    }

    /**
     * The loop of `restore_faq_statuses`: each change that is not a deletion and
     * recorded a real status other than "pending" is written back and counted;
     * as no write is committed, only the count remains.
     */
    method ReplayChanges(changes: seq<PendingChange>, isoNow: string) returns (restoredCount: nat)
      requires Valid()
      modifies this
      ensures Valid() && nextId == old(nextId)
      ensures rows == old(rows)
      ensures restoredCount == RestoredCount(changes)
    {
      ghost var start := rows;
      restoredCount := 0;
      for i := 0 to |changes|
        invariant Valid() && nextId == old(nextId)
        invariant rows == start
        invariant restoredCount == RestoredCount(changes[..i])
      {
        ReplayStep(start, changes, i, isoNow);
        var change := changes[i];
        if change.changeType == Deleted {
          continue;
        }
        if change.originalStatus.Some? && change.originalStatus.value != [] && change.originalStatus.value != "pending" {
          UpdateStatusOnly(change.faqId, change.originalStatus.value, isoNow);
          restoredCount := restoredCount + 1;
        }
      }
      assert changes[..|changes|] == changes;
    }

    /** `get_faqs`: check the page bounds, then count and page the rows the filters select, in id order. */
    function GetFaqs(limit: int, offset: int, status: Option<string>, category: Option<string>, tag: Option<string>,
                     now: string): (r: Result<FaqPage>)
      reads this
      ensures r.Ok? <==> 1 <= limit <= 500 && 0 <= offset
      ensures r.Err? ==> r.error == PageRequest(limit, offset).error
      ensures r.Ok? ==> r.value == Listing(rows, Filters(status, category, tag), limit, offset, now)
    {
      var check := PageRequest(limit, offset);
      if check.Raised? then Err(check.error)
      else Ok(Listing(rows, Filters(status, category, tag), limit, offset, now))
    }

    /** `_load_for_rag`: every row, in id order, with its tags parsed. */
    method LoadFaqsForRag() returns (docs: seq<RagDoc>)
      ensures |docs| == |rows|
      ensures forall i :: 0 <= i < |rows| ==> docs[i] == RagDocOf(rows[i])
      ensures docs == RagDocs(rows)
    {
      docs := [];
      for i := 0 to |rows|
        invariant |docs| == i
        invariant forall k :: 0 <= k < i ==> docs[k] == RagDocOf(rows[k])
      {
        docs := docs + [RagDocOf(rows[i])];
      }
    }
  }

  /** `Find` succeeds exactly for the ids in the table. */
  lemma {:induction false} FindIffPresent(rows: seq<Row>, id: int)
    ensures Find(rows, id).Some? <==> exists i :: 0 <= i < |rows| && rows[i].id == id
  {
    if rows != [] {
      FindIffPresent(rows[1..], id);
      if rows[0].id != id {
        assert forall i :: 1 <= i < |rows| ==> rows[i] == rows[1..][i - 1];
        if exists i :: 0 <= i < |rows| && rows[i].id == id {
          var i :| 0 <= i < |rows| && rows[i].id == id;
          assert rows[1..][i - 1].id == id;
        }
      }
    }
  }

  lemma DeleteIdsBelow(rows: seq<Row>, id: int, next: int)
    requires IdsBelow(rows, next)
    ensures IdsBelow(Delete(rows, id), next)
  {
    var d := Delete(rows, id);
    forall i | 0 <= i < |d| ensures 1 <= d[i].id < next {
      assert d[i] in rows;
    }
  }

  /** A row with the next id keeps the table in id order. */
  lemma AppendFits(rows: seq<Row>, row: Row, next: int)
    requires Ascending(rows) && IdsBelow(rows, next) && 1 <= next && row.id == next
    ensures Ascending(rows + [row]) && IdsBelow(rows + [row], next + 1)
  {
    var s := rows + [row];
    assert forall i :: 0 <= i < |rows| ==> s[i] == rows[i];
    assert s[|rows|] == row;
  }
}
