/**
 * FAQ management (core/faq.py): the validators, the SQL fragments the
 * manager builds, the `faqs` table as a sequence of rows in id order, and
 * the `FAQManager` staging protocol that marks every edited FAQ "pending"
 * and records the intended status in the pending-changes log.
 */
module Faq {
  import opened Wrappers
  import opened Text
  import opened TagsJson
  import opened TagsJsonFacts
  import opened SqlLike
  import opened Models
  import opened PendingChanges

  /** `settings.max_question_length` and `settings.max_answer_length`, at their defaults. */
  const MaxQuestionLength: nat := 500
  const MaxAnswerLength: nat := 2000
  const MaxTags: nat := 10
  const MaxTagLength: nat := 50

  // ---------------------------------------------------------------- validators

  /** What `_validate_question` accepts. */
  predicate QuestionOk(q: string) { !AllSpace(q) && |q| <= MaxQuestionLength }

  predicate AnswerOk(a: string) { !AllSpace(a) && |a| <= MaxAnswerLength }

  /** What `_validate_tags` accepts: at most ten tags, none blank, none longer than fifty characters. */
  predicate TagsOk(tags: seq<string>) {
    |tags| <= MaxTags && forall t :: t in tags ==> TagOk(t)
  }

  /** One tag that `_validate_tags` accepts: not blank, at most fifty characters. */
  predicate TagOk(t: string) { !AllSpace(t) && |t| <= MaxTagLength }

  /** `_validate_question`. */
  function ValidateQuestion(q: string): (r: Outcome)
    ensures r == Done <==> QuestionOk(q)
    ensures r.Raised? ==> r.error.ValidationError?
    ensures AllSpace(q) ==> r == Raised(ValidationError("Question cannot be empty"))
  {
    BlankIffAllSpace(q);
    if q == [] || IsBlank(q) then Raised(ValidationError("Question cannot be empty"))
    else if |q| > MaxQuestionLength then Raised(ValidationError("Question cannot exceed 500 characters"))
    else Done
  }

  /** `_validate_answer`. */
  function ValidateAnswer(a: string): (r: Outcome)
    ensures r == Done <==> AnswerOk(a)
    ensures r.Raised? ==> r.error.ValidationError?
    ensures AllSpace(a) ==> r == Raised(ValidationError("Answer cannot be empty"))
  {
    BlankIffAllSpace(a);
    if a == [] || IsBlank(a) then Raised(ValidationError("Answer cannot be empty"))
    else if |a| > MaxAnswerLength then Raised(ValidationError("Answer cannot exceed 2000 characters"))
    else Done
  }

  /** `_validate_status`: the same three statuses as the request models, with its own message. */
  function ValidateStatus(s: string): (r: Outcome)
    ensures r == Done <==> s in Statuses
    ensures r.Raised? ==> r.error == ValidationError("Status must be one of: public, private, pending")
  {
    if s == "public" || s == "private" || s == "pending" then Done
    else Raised(ValidationError("Status must be one of: public, private, pending"))
  }

  /** The per-tag loop of `_validate_tags`: the first bad tag decides the message. */
  function ValidateEachTag(tags: seq<string>): (r: Outcome)
    ensures r == Done <==> forall t :: t in tags ==> TagOk(t)
    ensures r.Raised? ==> r.error.ValidationError?
  {
    if tags == [] then Done
    else
      BlankIffAllSpace(tags[0]);
      EachTagSplit(tags);
      if IsBlank(tags[0]) then Raised(ValidationError(BlankTagMessage))
      else if |tags[0]| > MaxTagLength then Raised(ValidationError(LongTagMessage))
      else ValidateEachTag(tags[1..])
  }

  const BlankTagMessage := "Tags cannot be empty"
  const LongTagMessage := "Individual tags cannot exceed 50 characters"

  lemma EachTagSplit(tags: seq<string>)
    requires tags != []
    ensures (forall t :: t in tags ==> TagOk(t)) <==> TagOk(tags[0]) && forall t :: t in tags[1..] ==> TagOk(t)
  {
    assert forall t :: t in tags ==> t == tags[0] || t in tags[1..];
  }

  /** `_validate_tags`: an empty list passes; otherwise the count, then each tag. */
  function ValidateTags(tags: seq<string>): (r: Outcome)
    ensures r == Done <==> TagsOk(tags)
    ensures r.Raised? ==> r.error.ValidationError?
    ensures |tags| > MaxTags ==> r == Raised(ValidationError("Cannot have more than 10 tags"))
  {
    if tags == [] then Done
    else if |tags| > MaxTags then Raised(ValidationError("Cannot have more than 10 tags"))
    else ValidateEachTag(tags)
  }

  /** The checks `create_faq` runs, in its order: question, answer, status, tags. */
  function CreateCheck(req: CreateRequest): (r: Outcome)
    ensures r == Done <==> QuestionOk(req.question) && AnswerOk(req.answer) && req.status in Statuses && TagsOk(req.tags)
    ensures r.Raised? ==> r.error.ValidationError?
  {
    if ValidateQuestion(req.question).Raised? then ValidateQuestion(req.question)
    else if ValidateAnswer(req.answer).Raised? then ValidateAnswer(req.answer)
    else if ValidateStatus(req.status).Raised? then ValidateStatus(req.status)
    else ValidateTags(req.tags)
  }

  /** The checks `update_faq` runs on the fields it is given, in its order. */
  function UpdateCheck(req: UpdateRequest): (r: Outcome)
    ensures r == Done <==> ((req.question.None? || QuestionOk(req.question.value))
                         && (req.answer.None? || AnswerOk(req.answer.value))
                         && (req.status.None? || req.status.value in Statuses)
                         && (req.tags.None? || TagsOk(req.tags.value)))
    ensures r.Raised? ==> r.error.ValidationError?
  {
    if req.question.Some? && ValidateQuestion(req.question.value).Raised? then ValidateQuestion(req.question.value)
    else if req.answer.Some? && ValidateAnswer(req.answer.value).Raised? then ValidateAnswer(req.answer.value)
    else if req.status.Some? && ValidateStatus(req.status.value).Raised? then ValidateStatus(req.status.value)
    else if req.tags.Some? then ValidateTags(req.tags.value)
    else Done
  }

  /** `search_faqs`' checks: the query, stripped, goes on to the search with the limit. */
  function SearchRequest(query: string, limit: int): (r: Result<(string, int)>)
    ensures r.Ok? <==> !AllSpace(query) && 1 <= limit <= 50
    ensures r.Ok? ==> r.value == (Strip(query), limit) && r.value.0 != []
    ensures AllSpace(query) ==> r == Err(ValidationError("Search query cannot be empty"))
    ensures !AllSpace(query) && !(1 <= limit <= 50) ==> r == Err(ValidationError("Search limit must be between 1 and 50"))
  {
    BlankIffAllSpace(query);
    if IsBlank(query) then Err(ValidationError("Search query cannot be empty"))
    else if limit <= 0 || limit > 50 then Err(ValidationError("Search limit must be between 1 and 50"))
    else Ok((Strip(query), limit))
  }

  /** `get_faqs`' checks on the page it is asked for. */
  function PageRequest(limit: int, offset: int): (r: Outcome)
    ensures r == Done <==> 1 <= limit <= 500 && 0 <= offset
    ensures !(1 <= limit <= 500) ==> r == Raised(ValidationError("Limit must be between 1 and 500"))
    ensures 1 <= limit <= 500 && offset < 0 ==> r == Raised(ValidationError("Offset cannot be negative"))
  {
    if limit <= 0 || limit > 500 then Raised(ValidationError("Limit must be between 1 and 500"))
    else if offset < 0 then Raised(ValidationError("Offset cannot be negative"))
    else Done
  }

  // ---------------------------------------------------------------- rows

  /** A row of the `faqs` table; `tags` is the column's JSON text. */
  datatype Row = Row(
    id: int,
    question: string,
    answer: string,
    status: string,
    category: string,
    tags: string,
    createdAt: string,
    updatedAt: string)

  /** `FAQResponse`. */
  datatype FaqResponse = FaqResponse(
    id: int,
    question: string,
    answer: string,
    status: string,
    category: string,
    tags: seq<string>,
    createdAt: string,
    updatedAt: string)

  /** `_row_to_faq`: the tags column is parsed back into a list. */
  function RowToFaq(r: Row): FaqResponse
  {
    FaqResponse(r.id, r.question, r.answer, r.status, r.category, ParseTags(r.tags), r.createdAt, r.updatedAt)
  }

  /**
   * The row `create_faq` inserts: stripped text, status "pending", the tags as
   * JSON and both timestamps from the column default. Reading it back gives
   * the request's tags.
   */
  function CreatedRow(req: CreateRequest, id: int, sqlNow: string): (row: Row)
    ensures row.id == id && row.status == "pending"
    ensures row.question == Strip(req.question) && row.answer == Strip(req.answer) && row.category == req.category
    ensures row.tags == Serialize(req.tags)
    ensures row.createdAt == sqlNow && row.updatedAt == sqlNow
  {
    Row(id, Strip(req.question), Strip(req.answer), "pending", req.category, Serialize(req.tags), sqlNow, sqlNow)
  }

  /** Reading a created row back gives the request's tags. */
  lemma CreatedRowTags(req: CreateRequest, id: int, sqlNow: string)
    ensures RowToFaq(CreatedRow(req, id, sqlNow)).tags == req.tags
  {
    ParseSerialize(req.tags);
  }

  /** `ORDER BY id` holds of the table: ids strictly increase. */
  predicate Ascending(rows: seq<Row>) {
    forall i, j :: 0 <= i < j < |rows| ==> rows[i].id < rows[j].id
  }

  /** Every id is in `1 .. next - 1`, as AUTOINCREMENT hands them out. */
  predicate IdsBelow(rows: seq<Row>, next: int) {
    forall i :: 0 <= i < |rows| ==> 1 <= rows[i].id < next
  }

  /** `SELECT ... WHERE id = ?`. */
  function Find(rows: seq<Row>, id: int): (r: Option<Row>)
    ensures r.Some? ==> r.value in rows && r.value.id == id
  {
    if rows == [] then None else if rows[0].id == id then Some(rows[0]) else Find(rows[1..], id)
  }

  /** `UPDATE ... WHERE id = row.id`: the row with that id replaced. */
  function Replace(rows: seq<Row>, row: Row): (r: seq<Row>)
    ensures |r| == |rows| && forall i :: 0 <= i < |rows| ==> r[i].id == rows[i].id
  {
    if rows == [] then []
    else (if rows[0].id == row.id then [row] else [rows[0]]) + Replace(rows[1..], row)
  }

  /** `DELETE FROM faqs WHERE id = ?`. */
  function Delete(rows: seq<Row>, id: int): (r: seq<Row>)
    ensures forall x :: x in r ==> x in rows && x.id != id
  {
    if rows == [] then []
    else if rows[0].id == id then Delete(rows[1..], id)
    else [rows[0]] + Delete(rows[1..], id)
  }

  lemma {:induction false} FindReplace(rows: seq<Row>, row: Row, j: int)
    requires Ascending(rows)
    ensures Find(Replace(rows, row), j) == if j == row.id && Find(rows, j).Some? then Some(row) else Find(rows, j)
  {
    if rows != [] {
      FindReplace(rows[1..], row, j);
    }
  }

  lemma {:induction false} FindDelete(rows: seq<Row>, id: int, j: int)
    ensures Find(Delete(rows, id), j) == if j == id then None else Find(rows, j)
  {
    if rows != [] {
      FindDelete(rows[1..], id, j);
    }
  }

  /** A row with a fresh, larger id goes at the end and is found there. */
  lemma {:induction false} FindAppend(rows: seq<Row>, row: Row, j: int)
    requires forall i :: 0 <= i < |rows| ==> rows[i].id < row.id
    ensures Find(rows + [row], j) == if j == row.id then Some(row) else Find(rows, j)
  {
    if rows != [] {
      assert (rows + [row])[1..] == rows[1..] + [row];
      FindAppend(rows[1..], row, j);
    } else {
      assert rows + [row] == [row];
    }
  }

  lemma {:induction false} DeleteAscending(rows: seq<Row>, id: int)
    requires Ascending(rows)
    ensures Ascending(Delete(rows, id))
  {
    if rows != [] {
      DeleteAscending(rows[1..], id);
      var d := Delete(rows[1..], id);
      if rows[0].id != id {
        forall j | 0 <= j < |d| ensures rows[0].id < d[j].id {
          assert d[j] in rows[1..];
        }
      }
    }
  }

  /** The table has the row for `id`, with every other row elsewhere. */
  lemma {:induction false} DeleteShrinks(rows: seq<Row>, id: int)
    requires Find(rows, id).Some?
    ensures |Delete(rows, id)| < |rows|
  {
    if rows[0].id != id {
      DeleteShrinks(rows[1..], id);
    } else {
      DeleteAtMost(rows[1..], id);
    }
  }

  lemma {:induction false} DeleteAtMost(rows: seq<Row>, id: int)
    ensures |Delete(rows, id)| <= |rows|
  {
    if rows != [] { DeleteAtMost(rows[1..], id); }
  }

  // ---------------------------------------------------------------- updates

  /** A value bound to a `?` placeholder. */
  datatype SqlValue = Text(s: string) | TagList(tags: seq<string>) | Int(n: int)

  /** The keys of `_update`'s `updates` dict; `Other` is a key it does not know. */
  datatype Field = Question | Answer | Status | Category | Tags | Other(key: string)
  {
    function Column(): string {
      match this
      case Question => "question"
      case Answer => "answer"
      case Status => "status"
      case Category => "category"
      case Tags => "tags"
      case Other(k) => k
    }
  }

  /** One entry of the `updates` dict. */
  datatype Update = Update(field: Field, value: SqlValue)

  /** Whether `_update` writes this entry: tags given as a list, or a known text column; anything else is ignored. */
  predicate Recognised(u: Update) {
    if u.field.Tags? then u.value.TagList? else !u.field.Other? && u.value.Text?
  }

  /** The `set_clauses` entry of one update: one clause when it is recognised. */
  function Clause(u: Update): seq<string>
  {
    if Recognised(u) then [u.field.Column() + " = ?"] else []
  }

  /** Its parameter: the tag list is bound as its JSON text. */
  function Param(u: Update): seq<SqlValue>
  {
    if !Recognised(u) then [] else if u.value.TagList? then [Text(Serialize(u.value.tags))] else [u.value]
  }

  /** The `set_clauses` of the recognised entries. */
  function SetClauses(us: seq<Update>): seq<string>
  {
    if us == [] then [] else Clause(us[0]) + SetClauses(us[1..])
  }

  /** Their `params`. */
  function SetParams(us: seq<Update>): seq<SqlValue>
  {
    if us == [] then [] else Param(us[0]) + SetParams(us[1..])
  }

  /** Each `field = ?` clause has exactly one placeholder, and its parameter. */
  lemma {:induction false} SetClausesMatchParams(us: seq<Update>)
    ensures |SetClauses(us)| == |SetParams(us)|
    ensures forall c :: c in SetClauses(us) ==> Count(c, '?') == 1
  {
    if us != [] {
      SetClausesMatchParams(us[1..]);
      if Recognised(us[0]) {
        OnePlaceholder(us[0].field.Column());
      }
      assert forall c :: c in SetClauses(us) ==> c in Clause(us[0]) || c in SetClauses(us[1..]);
    }
  }

  /** A column name with no `?` followed by ` = ?` has one placeholder. */
  lemma OnePlaceholder(col: string)
    requires forall k :: 0 <= k < |col| ==> col[k] != '?'
    ensures Count(col + " = ?", '?') == 1
  {
    CountConcat(col, " = ?", '?');
    NoChar(col, '?');
  }

  lemma {:induction false} NoChar(s: string, c: char)
    requires forall k :: 0 <= k < |s| ==> s[k] != c
    ensures Count(s, c) == 0
  {
    if s != [] { NoChar(s[1..], c); }
  }

  lemma Assoc<T>(a: seq<T>, b: seq<T>, c: seq<T>)
    ensures (a + b) + c == a + (b + c)
  {
  }

  lemma AppendEmpty<T>(a: seq<T>, b: seq<T>)
    requires b == []
    ensures a + b == a
  {
  }

  /** The first step of the recursion, seen from position `i`. */
  lemma SetStep(us: seq<Update>, i: nat)
    requires i < |us|
    ensures SetClauses(us[i..]) == Clause(us[i]) + SetClauses(us[i + 1..])
    ensures SetParams(us[i..]) == Param(us[i]) + SetParams(us[i + 1..])
  {
    assert us[i..][1..] == us[i + 1..];
  }

  /**
   * The loop of `_update` that builds the statement: one clause and one
   * parameter per recognised entry, then `updated_at`, then the id for the
   * WHERE clause. No recognised entry: no statement.
   */
  method BuildUpdate(us: seq<Update>, id: int) returns (stmt: Option<(seq<string>, seq<SqlValue>)>)
    ensures SetClauses(us) == [] ==> stmt.None?
    ensures SetClauses(us) != [] ==> stmt == Some((SetClauses(us) + ["updated_at = CURRENT_TIMESTAMP"], SetParams(us) + [Int(id)]))
  {
    var clauses: seq<string> := [];
    var params: seq<SqlValue> := [];
    for i := 0 to |us|
      invariant clauses + SetClauses(us[i..]) == SetClauses(us)
      invariant params + SetParams(us[i..]) == SetParams(us)
    {
      var u := us[i];
      SetStep(us, i);
      Assoc(clauses, Clause(u), SetClauses(us[i + 1..]));
      Assoc(params, Param(u), SetParams(us[i + 1..]));
      if u.field.Tags? && u.value.TagList? {
        assert Tags.Column() + " = ?" == "tags = ?";
        clauses := clauses + ["tags = ?"];
        params := params + [Text(Serialize(u.value.tags))];
      } else if !u.field.Tags? && !u.field.Other? && u.value.Text? {
        clauses := clauses + [u.field.Column() + " = ?"];
        params := params + [u.value];
      } else {
        AppendEmpty(clauses, Clause(u));
        AppendEmpty(params, Param(u));
      }
    }
    assert us[|us|..] == [];
    AppendEmpty(clauses, SetClauses(us[|us|..]));
    AppendEmpty(params, SetParams(us[|us|..]));
    if clauses == [] {
      return None;
    }
    stmt := Some((clauses + ["updated_at = CURRENT_TIMESTAMP"], params + [Int(id)]));
  }

  /** What one recognised entry writes into the row. */
  function ApplyOne(row: Row, u: Update): Row
  {
    if !Recognised(u) then row
    else match u.field
      case Tags => row.(tags := Serialize(u.value.tags))
      case Question => row.(question := u.value.s)
      case Answer => row.(answer := u.value.s)
      case Status => row.(status := u.value.s)
      case Category => row.(category := u.value.s)
  }

  /** What the UPDATE statement writes into the row, entry by entry. */
  function ApplyUpdates(row: Row, us: seq<Update>): Row
    decreases |us|
  {
    if us == [] then row else ApplyUpdates(ApplyOne(row, us[0]), us[1..])
  }

  /** The row after the UPDATE: the entries applied and, if any was recognised, the new `updated_at`. */
  function UpdatedRow(row: Row, us: seq<Update>, sqlNow: string): Row
  {
    if SetClauses(us) == [] then row else ApplyUpdates(row, us).(updatedAt := sqlNow)
  }

  /** The `updates` dict `update_faq` passes to `_update`: given fields (text stripped), then status "pending". */
  function UpdatesOf(req: UpdateRequest): seq<Update>
  {
    GivenFields(req) + [Update(Status, Text("pending"))]
  }

  /** The entries for the fields the request gives, in the order `update_faq` adds them. */
  function GivenFields(req: UpdateRequest): seq<Update>
  {
    Given(Question, StripOpt(req.question)) + Given(Answer, StripOpt(req.answer)) + Given(Category, req.category)
    + (if req.tags.Some? then [Update(Tags, TagList(req.tags.value))] else [])
  }

  /** A given text, stripped. */
  function StripOpt(v: Option<string>): Option<string>
  {
    if v.None? then None else Some(Strip(v.value))
  }

  function Given(field: Field, v: Option<string>): seq<Update>
  {
    if v.None? then [] else [Update(field, Text(v.value))]
  }

  lemma {:induction false} ApplyUpdatesAppend(row: Row, a: seq<Update>, b: seq<Update>)
    ensures ApplyUpdates(row, a + b) == ApplyUpdates(ApplyUpdates(row, a), b)
    decreases |a|
  {
    if a == [] {
      assert a + b == b;
    } else {
      assert (a + b)[1..] == a[1..] + b;
      ApplyUpdatesAppend(ApplyOne(row, a[0]), a[1..], b);
    }
  }

  lemma ApplyUpdatesSingle(row: Row, u: Update)
    ensures ApplyUpdates(row, [u]) == ApplyOne(row, u)
  {
    assert [u][1..] == [];
  }

  lemma {:induction false} SetClausesAppend(a: seq<Update>, b: seq<Update>)
    ensures SetClauses(a + b) == SetClauses(a) + SetClauses(b)
  {
    if a == [] {
      assert a + b == b;
    } else {
      assert (a + b)[1..] == a[1..] + b;
      SetClausesAppend(a[1..], b);
    }
  }

  lemma ApplyGiven(row: Row, field: Field, v: Option<string>)
    ensures ApplyUpdates(row, Given(field, v)) == if v.None? then row else ApplyOne(row, Update(field, Text(v.value)))
  {
    if v.Some? { ApplyUpdatesSingle(row, Given(field, v)[0]); }
  }

  /** The row after the optional entries of `update_faq`: each given field written, the rest kept. */
  lemma ApplyGivenFields(row: Row, req: UpdateRequest) returns (r: Row)
    ensures r == ApplyUpdates(row, GivenFields(req))
    ensures r.id == row.id && r.createdAt == row.createdAt && r.updatedAt == row.updatedAt && r.status == row.status
    ensures r.question == StripOpt(req.question).GetOr(row.question)
    ensures r.answer == StripOpt(req.answer).GetOr(row.answer)
    ensures r.category == req.category.GetOr(row.category)
    ensures r.tags == (if req.tags.Some? then Serialize(req.tags.value) else row.tags)
  {
    var q, a, c := Given(Question, StripOpt(req.question)), Given(Answer, StripOpt(req.answer)), Given(Category, req.category);
    var t := if req.tags.Some? then [Update(Tags, TagList(req.tags.value))] else [];
    ApplyUpdatesAppend(row, (q + a) + c, t);
    ApplyUpdatesAppend(row, q + a, c);
    ApplyUpdatesAppend(row, q, a);
    ApplyGiven(row, Question, StripOpt(req.question));
    var r1 := ApplyUpdates(row, q);
    ApplyGiven(r1, Answer, StripOpt(req.answer));
    var r2 := ApplyUpdates(r1, a);
    ApplyGiven(r2, Category, req.category);
    var r3 := ApplyUpdates(r2, c);
    if t != [] { ApplyUpdatesSingle(r3, t[0]); }
    r := ApplyUpdates(r3, t);
  }

  /**
   * `update_faq` writes every field the request gives (question and answer
   * stripped, tags as JSON), keeps the others, always sets status "pending",
   * keeps the id and creation time and stamps `updated_at`.
   */
  lemma UpdateStagesRow(row: Row, req: UpdateRequest, sqlNow: string)
    ensures var r := UpdatedRow(row, UpdatesOf(req), sqlNow);
            && r.status == "pending" && r.id == row.id && r.createdAt == row.createdAt && r.updatedAt == sqlNow
            && r.question == StripOpt(req.question).GetOr(row.question)
            && r.answer == StripOpt(req.answer).GetOr(row.answer)
            && r.category == req.category.GetOr(row.category)
            && RowToFaq(r).tags == (if req.tags.Some? then req.tags.value else RowToFaq(row).tags)
  {
    var r4 := ApplyGivenFields(row, req);
    UpdatedRowPending(row, req, sqlNow, r4);
    if req.tags.Some? {
      ParseSerialize(req.tags.value);
    }
  }

  /** The status entry that `update_faq` always appends is recognised, so the row is stamped. */
  lemma UpdatedRowPending(row: Row, req: UpdateRequest, sqlNow: string, r4: Row)
    requires r4 == ApplyUpdates(row, GivenFields(req))
    ensures UpdatedRow(row, UpdatesOf(req), sqlNow) == r4.(status := "pending", updatedAt := sqlNow)
  {
    var st := Update(Status, Text("pending"));
    ApplyUpdatesAppend(row, GivenFields(req), [st]);
    ApplyUpdatesSingle(r4, st);
    SetClausesAppend(GivenFields(req), [st]);
    assert [st][1..] == [];
  }

  // ---------------------------------------------------------------- queries

  /** The filters of `get_faqs`, in the order `_get_all` puts them in its dict. */
  datatype Filters = Filters(status: Option<string>, category: Option<string>, tag: Option<string>)

  /** The LIKE pattern of the tag filter as written: the tag between double quotes. */
  function TagPatternAsWritten(tag: string): string
  {
    "%\"" + tag + "\"%"
  }

  /** The tag as `json.dumps` stores it (escaped, quoted), between wildcards. */
  function TagPattern(tag: string): string
  {
    "%" + Quote(tag) + "%"
  }

  /** What a tag filter matches: non-empty tags text that is LIKE the pattern. */
  predicate TagMatch(tagsText: string, pattern: string) {
    tagsText != "" && tagsText != "[]" && Like(pattern, tagsText)
  }

  const TagCondition: string := "(tags != '' AND tags != '[]' AND tags LIKE ?)"

  /** The filters dict as `_get_all` builds it, in its key order. */
  function FilterItems(f: Filters): seq<(string, Option<string>)>
  {
    [("status", f.status), ("category", f.category), ("tag", f.tag)]
  }

  /** The condition one dict entry contributes, if its value is given. */
  function Condition(key: string, value: Option<string>): seq<string>
  {
    if value.None? then [] else if key == "tag" then [TagCondition] else [key + " = ?"]
  }

  /** Its parameter: for the tag filter, the LIKE pattern as written. */
  function ConditionParam(key: string, value: Option<string>): seq<string>
  {
    if value.None? then [] else if key == "tag" then [TagPatternAsWritten(value.value)] else [value.value]
  }

  function ConditionsOf(items: seq<(string, Option<string>)>): seq<string>
  {
    if items == [] then [] else Condition(items[0].0, items[0].1) + ConditionsOf(items[1..])
  }

  function ParamsOf(items: seq<(string, Option<string>)>): seq<string>
  {
    if items == [] then [] else ConditionParam(items[0].0, items[0].1) + ParamsOf(items[1..])
  }

  /** The conditions of the filters, one per given filter, in dict order. */
  function Conditions(f: Filters): seq<string>
  {
    Condition("status", f.status) + Condition("category", f.category) + Condition("tag", f.tag)
  }

  /** Their parameters, in the same order. */
  function Params(f: Filters): seq<string>
  {
    ConditionParam("status", f.status) + ConditionParam("category", f.category) + ConditionParam("tag", f.tag)
  }

  lemma ItemsOfFilters(f: Filters)
    ensures ConditionsOf(FilterItems(f)) == Conditions(f) && ParamsOf(FilterItems(f)) == Params(f)
  {
    var items := FilterItems(f);
    var i1, i2 := items[1..], items[1..][1..];
    assert i1 == [("category", f.category), ("tag", f.tag)];
    assert i2 == [("tag", f.tag)];
    assert i2[1..] == [];
    assert ConditionsOf(i2) == Condition("tag", f.tag);
    assert ParamsOf(i2) == ConditionParam("tag", f.tag);
  }

  lemma ConditionsStep(items: seq<(string, Option<string>)>, i: nat)
    requires i < |items|
    ensures ConditionsOf(items[i..]) == Condition(items[i].0, items[i].1) + ConditionsOf(items[i + 1..])
    ensures ParamsOf(items[i..]) == ConditionParam(items[i].0, items[i].1) + ParamsOf(items[i + 1..])
  {
    assert items[i..][1..] == items[i + 1..];
  }

  /**
   * `_build_where_clause`: one condition per given filter, joined by AND
   * behind WHERE, and their parameters in the same order.
   */
  method BuildWhereClause(f: Filters) returns (clause: string, params: seq<string>)
    ensures params == Params(f)
    ensures clause == if Conditions(f) == [] then "" else " WHERE " + Join(Conditions(f), " AND ")
  {
    var items := FilterItems(f);
    var conditions: seq<string> := [];
    params := [];
    for i := 0 to |items|
      invariant conditions + ConditionsOf(items[i..]) == ConditionsOf(items)
      invariant params + ParamsOf(items[i..]) == ParamsOf(items)
    {
      var (key, value) := items[i];
      ConditionsStep(items, i);
      Assoc(conditions, Condition(key, value), ConditionsOf(items[i + 1..]));
      Assoc(params, ConditionParam(key, value), ParamsOf(items[i + 1..]));
      if value.Some? {
        if key == "tag" {
          conditions := conditions + [TagCondition];
          params := params + [TagPatternAsWritten(value.value)];
        } else {
          conditions := conditions + [key + " = ?"];
          params := params + [value.value];
        }
      } else {
        AppendEmpty(conditions, Condition(key, value));
        AppendEmpty(params, ConditionParam(key, value));
      }
    }
    assert items[|items|..] == [];
    AppendEmpty(conditions, ConditionsOf(items[|items|..]));
    AppendEmpty(params, ParamsOf(items[|items|..]));
    ItemsOfFilters(f);
    clause := if conditions != [] then " WHERE " + Join(conditions, " AND ") else "";
  }

  /** No filter, no WHERE clause and no parameters. */
  lemma NoFiltersNoClause()
    ensures Conditions(Filters(None, None, None)) == [] && Params(Filters(None, None, None)) == []
  {
  }

  /** One parameter per condition; a tag filter binds `%"tag"%`, last. */
  lemma ConditionsParams(f: Filters)
    ensures |Conditions(f)| == |Params(f)|
    ensures f.tag.Some? ==> Params(f)[|Params(f)| - 1] == "%\"" + f.tag.value + "\"%"
    ensures f.tag.Some? ==> Conditions(f)[|Conditions(f)| - 1] == TagCondition
  {
  }

  /** A row passes the filters of the WHERE clause, with the tag pattern it binds. */
  predicate Matches(row: Row, f: Filters) {
    && (f.status.None? || row.status == f.status.value)
    && (f.category.None? || row.category == f.category.value)
    && (f.tag.None? || TagMatch(row.tags, TagPatternAsWritten(f.tag.value)))
  }

  /** The rows the WHERE clause selects, in id order. */
  function Select(rows: seq<Row>, f: Filters): (r: seq<Row>)
    ensures |r| <= |rows|
    ensures forall x :: x in r ==> x in rows && Matches(x, f)
  {
    if rows == [] then []
    else (if Matches(rows[0], f) then [rows[0]] else []) + Select(rows[1..], f)
  }

  /** Every matching row is selected. */
  lemma {:induction false} SelectComplete(rows: seq<Row>, f: Filters, x: Row)
    requires x in rows && Matches(x, f)
    ensures x in Select(rows, f)
  {
    if rows[0] != x {
      SelectComplete(rows[1..], f, x);
    }
  }

  /** `LIMIT limit OFFSET offset` on a result. */
  function Page<T>(s: seq<T>, limit: nat, offset: nat): (r: seq<T>)
    ensures |r| == if offset >= |s| then 0 else if offset + limit <= |s| then limit else |s| - offset
    ensures forall i :: 0 <= i < |r| ==> r[i] == s[offset + i]
  {
    if offset >= |s| then [] else if offset + limit <= |s| then s[offset..offset + limit] else s[offset..]
  }

  /** `has_more` as computed, `offset + len(faqs) < total`, is whether a page lies beyond this one. */
  lemma HasMoreIff<T>(s: seq<T>, limit: nat, offset: nat)
    ensures offset + |Page(s, limit, offset)| < |s| <==> offset + limit < |s|
  {
  }

  /** `_apply_pagination`: LIMIT when a limit is given, OFFSET only after it and only when positive. */
  function ApplyPagination(query: string, limit: Option<int>, offset: int): (r: string)
    ensures IsPrefix(query, r)
    ensures limit.None? ==> r == query
  {
    if limit.None? then query
    else
      var q := query + " LIMIT " + IntToString(limit.value);
      if offset > 0 then q + " OFFSET " + IntToString(offset) else q
  }

  predicate NoSpace(w: string) { forall k :: 0 <= k < |w| ==> w[k] != ' ' }

  /**
   * The query `_apply_pagination` returns splits into the words of the query
   * followed by LIMIT and the limit, then OFFSET and the offset when it is
   * positive; each number reads back as the one given.
   */
  lemma PaginationReadsBack(query: string, limit: int, offset: int)
    ensures Split(ApplyPagination(query, Some(limit), offset), ' ')
         == Split(query, ' ') + ["LIMIT", IntToString(limit)] + (if offset > 0 then ["OFFSET", IntToString(offset)] else [])
  {
    var l := IntToString(limit);
    IntToStringNoSpace(limit);
    assert NoSpace("LIMIT") && " LIMIT " == " " + "LIMIT" + " ";
    KeyWords(query, "LIMIT", l);
    Regroup(query, "LIMIT", l);
    if offset > 0 {
      var o := IntToString(offset);
      IntToStringNoSpace(offset);
      assert NoSpace("OFFSET") && " OFFSET " == " " + "OFFSET" + " ";
      KeyWords(query + " LIMIT " + l, "OFFSET", o);
      Regroup(query + " LIMIT " + l, "OFFSET", o);
      Assoc(Split(query, ' '), ["LIMIT", l], ["OFFSET", o]);
    } else {
      AppendEmpty(Split(query, ' ') + ["LIMIT", l], []);
    }
  }

  /** Appending ` key value`, neither holding a space, adds the two words. */
  lemma KeyWords(q: string, key: string, v: string)
    requires NoSpace(key) && NoSpace(v)
    ensures Split(q + " " + key + " " + v, ' ') == Split(q, ' ') + [key, v]
  {
    SplitSnoc(q, key);
    SplitSnoc(q + " " + key, v);
  }

  lemma Regroup(q: string, key: string, v: string)
    ensures q + " " + key + " " + v == q + (" " + key + " ") + v
  {
    Assoc(q, " " + key, " ");
    Assoc(q, " ", key);
  }

  lemma IntToStringNoSpace(n: int)
    ensures NoSpace(IntToString(n))
  {
    var m: nat := if n < 0 then -n else n;
    assert IsDigits(NatToString(m));
  }

  /** Splitting `x + " " + w` when `w` has no space: the words of `x`, then `w`. */
  lemma {:induction false} SplitSnoc(x: string, w: string)
    requires NoSpace(w)
    ensures Split(x + " " + w, ' ') == Split(x, ' ') + [w]
    decreases |x|
  {
    var s := x + " " + w;
    var i := IndexOf(x, ' ');
    if i == |x| {
      IndexOfPrefix(x, w);
      assert s[..|x|] == x && s[|x| + 1..] == w;
      assert Split(w, ' ') == [w];
    } else {
      IndexOfExtend(x, " " + w, i);
      assert s == x + (" " + w);
      assert s[..i] == x[..i];
      assert s[i + 1..] == x[i + 1..] + " " + w;
      SplitSnoc(x[i + 1..], w);
      Assoc([x[..i]], Split(x[i + 1..], ' '), [w]);
    }
  }

  lemma {:induction false} IndexOfPrefix(x: string, y: string)
    requires NoSpace(x)
    ensures IndexOf(x + " " + y, ' ') == |x|
  {
    if x != [] {
      assert (x + " " + y)[1..] == x[1..] + " " + y;
      IndexOfPrefix(x[1..], y);
    }
  }

  lemma {:induction false} IndexOfExtend(x: string, y: string, i: nat)
    requires i == IndexOf(x, ' ') && i < |x|
    ensures IndexOf(x + y, ' ') == i
  {
    if x[0] != ' ' {
      assert (x + y)[1..] == x[1..] + y;
      IndexOfExtend(x[1..], y, i - 1);
    }
  }

  // ---------------------------------------------------------------- the tag filter

  /** Where `Join` puts one of its parts: everything before it and everything after. */
  lemma {:induction false} JoinAround(parts: seq<string>, sep: string, i: nat) returns (a: string, b: string)
    requires i < |parts|
    ensures Join(parts, sep) == a + parts[i] + b
  {
    if |parts| == 1 {
      a, b := [], [];
    } else if i == 0 {
      a, b := [], sep + Join(parts[1..], sep);
    } else {
      var a', b' := JoinAround(parts[1..], sep, i - 1);
      a, b := parts[0] + sep + a', b';
    }
  }

  /** The tag filter finds every FAQ that has the tag. */
  lemma TagFilterFinds(tags: seq<string>, i: nat)
    requires i < |tags|
    ensures TagMatch(Serialize(tags), TagPattern(tags[i]))
  {
    var a, b := JoinAround(QuoteAll(tags), ", ", i);
    var q := Quote(tags[i]);
    var s := Serialize(tags);
    assert s == ("[" + a) + q + (b + "]");
    assert |q| >= 2;
    assert |s| > |"[]"|;
    LikeInfix(q, "[" + a, b + "]");
  }

  /**
   * The filter as written never matches a tag with a character outside
   * ASCII: `json.dumps` stored that character as a `\u` escape.
   */
  lemma TagFilterAsWrittenMisses(tags: seq<string>, tag: string, i: nat)
    requires i < |tag| && tag[i] as int >= 128
    ensures !Like(TagPatternAsWritten(tag), Serialize(tags))
  {
    SerializeAscii(tags);
    var s := Serialize(tags);
    assert forall k :: 0 <= k < |s| ==> s[k] as int < 128;
    var p := TagPatternAsWritten(tag);
    assert p[i + 2] == tag[i];
    NonAsciiNeverMatchesAscii(p, s, i + 2);
  }

  /**
   * Over a table whose tags column holds what `_serialize_tags` writes, the
   * tag filter as written selects nothing for a tag with a non-ASCII character.
   */
  lemma {:induction false} TagFilterSelectsNone(rows: seq<Row>, tag: string, i: nat)
    requires i < |tag| && tag[i] as int >= 128
    requires forall k :: 0 <= k < |rows| ==> rows[k].tags == Serialize(ParseTags(rows[k].tags))
    ensures Select(rows, Filters(None, None, Some(tag))) == []
  {
    if rows != [] {
      var f := Filters(None, None, Some(tag));
      TagFilterRejects(rows[0], tag, i);
      assert Select(rows, f) == Select(rows[1..], f);
      assert forall k :: 0 <= k < |rows[1..]| ==> rows[1..][k] == rows[k + 1];
      TagFilterSelectsNone(rows[1..], tag, i);
    }
  }

  lemma TagFilterRejects(row: Row, tag: string, i: nat)
    requires i < |tag| && tag[i] as int >= 128
    requires row.tags == Serialize(ParseTags(row.tags))
    ensures !Matches(row, Filters(None, None, Some(tag)))
  {
    TagFilterAsWrittenMisses(ParseTags(row.tags), tag, i);
  }

  /**
   * A tag of printable ASCII without quote or backslash is stored verbatim,
   * so for it the pattern as written is the stored one and the filter finds it.
   */
  lemma {:induction false} PlainTagPattern(tag: string)
    requires forall k :: 0 <= k < |tag| ==> IsPrintableAscii(tag[k]) && tag[k] != '"' && tag[k] != '\\'
    ensures TagPatternAsWritten(tag) == TagPattern(tag)
  {
    PlainEscape(tag);
  }

  lemma {:induction false} PlainEscape(s: string)
    requires forall k :: 0 <= k < |s| ==> IsPrintableAscii(s[k]) && s[k] != '"' && s[k] != '\\'
    ensures Escape(s) == s
  {
    if s != [] {
      assert forall k :: 0 <= k < |s[1..]| ==> s[1..][k] == s[k + 1];
      PlainEscape(s[1..]);
    }
  }

  /** The filter as written finds every FAQ carrying a plain tag. */
  lemma PlainTagFilterFinds(tags: seq<string>, i: nat)
    requires i < |tags|
    requires forall k :: 0 <= k < |tags[i]| ==> IsPrintableAscii(tags[i][k]) && tags[i][k] != '"' && tags[i][k] != '\\'
    ensures TagMatch(Serialize(tags), TagPatternAsWritten(tags[i]))
  {
    PlainTagPattern(tags[i]);
    TagFilterFinds(tags, i);
  }

  /** A FAQ tagged "環境" (environment) is not found by filtering on that tag as written. */
  lemma TagFilterAsWrittenExample()
    ensures !Like(TagPatternAsWritten("環境"), Serialize(["環境"]))
    ensures TagMatch(Serialize(["環境"]), TagPattern("環境"))
  {
    TagFilterAsWrittenMisses(["環境"], "環境", 0);
    TagFilterFinds(["環境"], 0);
  }
}
