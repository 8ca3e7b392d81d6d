/**
 * The FAQ management command line (cli/manage_faqs.py): how `main` reads the
 * command line, the checks the add, update and delete handlers make before
 * they call `FAQManager`, and the CSV synchronisation that normalises the
 * rows of a file and then creates, updates or skips one FAQ per row.
 */
module ManageFaqs {
  import opened Wrappers
  import opened Text
  import opened Models
  import opened Faq
  import opened FaqStaging
  import PendingChanges

  // ---------------------------------------------------------------------------
  // Options of `list`

  /** The filters the `list` command collects. */
  datatype ListOptions = ListOptions(
    limit: Option<nat>,
    status: Option<string>,
    category: Option<string>,
    tag: Option<string>)

  const NoListOptions: ListOptions := ListOptions(None, None, None, None)

  /**
   * The options the `list` loop holds at the end when it is at position `i`
   * with `acc`: a flag followed by a value consumes both, a run of digits is
   * the limit, and any other token is passed over.
   */
  function ListScan(argv: seq<string>, i: nat, acc: ListOptions): ListOptions
    decreases |argv| - i
  {
    if i >= |argv| then acc
    else if argv[i] == "--status" && i + 1 < |argv| then
      ListScan(argv, i + 2, acc.(status := Some(argv[i + 1])))
    else if argv[i] == "--category" && i + 1 < |argv| then
      ListScan(argv, i + 2, acc.(category := Some(argv[i + 1])))
    else if (argv[i] == "--tag" || argv[i] == "--tags") && i + 1 < |argv| then
      ListScan(argv, i + 2, acc.(tag := Some(argv[i + 1])))
    else if IsDigits(argv[i]) then
      ListScan(argv, i + 1, acc.(limit := Some(DigitsValue(argv[i]))))
    else
      ListScan(argv, i + 1, acc)
  }

  /** The argument loop of the `list` branch of `main`. */
  method ParseListOptions(argv: seq<string>) returns (opts: ListOptions)
    ensures opts == ListScan(argv, 2, NoListOptions)
  {
    opts := NoListOptions;
    var i := 2;
    while i < |argv|
      invariant ListScan(argv, i, opts) == ListScan(argv, 2, NoListOptions)
      decreases |argv| - i
    {
      if argv[i] == "--status" && i + 1 < |argv| {
        opts := opts.(status := Some(argv[i + 1]));
        i := i + 2;
      } else if argv[i] == "--category" && i + 1 < |argv| {
        opts := opts.(category := Some(argv[i + 1]));
        i := i + 2;
      } else if (argv[i] == "--tag" || argv[i] == "--tags") && i + 1 < |argv| {
        opts := opts.(tag := Some(argv[i + 1]));
        i := i + 2;
      } else if IsDigits(argv[i]) {
        opts := opts.(limit := Some(DigitsValue(argv[i])));
        i := i + 1;
      } else {
        i := i + 1;
      }
    }
  }

  /**
   * Every option `list` ends with was read from the command line: a filter is
   * the token right after its flag, the limit is a token of digits.
   */
  lemma {:induction false} ListScanSound(argv: seq<string>, i: nat, acc: ListOptions)
    ensures var o := ListScan(argv, i, acc);
      && (o.status != acc.status ==>
            exists j :: i < j < |argv| && argv[j - 1] == "--status" && o.status == Some(argv[j]))
      && (o.category != acc.category ==>
            exists j :: i < j < |argv| && argv[j - 1] == "--category" && o.category == Some(argv[j]))
      && (o.tag != acc.tag ==>
            exists j :: i < j < |argv| && (argv[j - 1] == "--tag" || argv[j - 1] == "--tags") && o.tag == Some(argv[j]))
      && (o.limit != acc.limit ==>
            exists j :: i <= j < |argv| && IsDigits(argv[j]) && o.limit == Some(DigitsValue(argv[j])))
    decreases |argv| - i
  {
    if i < |argv| {
      var o := ListScan(argv, i, acc);
      if argv[i] == "--status" && i + 1 < |argv| {
        var next := acc.(status := Some(argv[i + 1]));
        ListScanSound(argv, i + 2, next);
        if o.status == next.status {
          assert i < i + 1 < |argv| && argv[(i + 1) - 1] == "--status" && o.status == Some(argv[i + 1]);
        }
      } else if argv[i] == "--category" && i + 1 < |argv| {
        var next := acc.(category := Some(argv[i + 1]));
        ListScanSound(argv, i + 2, next);
        if o.category == next.category {
          assert i < i + 1 < |argv| && argv[(i + 1) - 1] == "--category" && o.category == Some(argv[i + 1]);
        }
      } else if (argv[i] == "--tag" || argv[i] == "--tags") && i + 1 < |argv| {
        var next := acc.(tag := Some(argv[i + 1]));
        ListScanSound(argv, i + 2, next);
        if o.tag == next.tag {
          assert i < i + 1 < |argv| && argv[(i + 1) - 1] == argv[i] && o.tag == Some(argv[i + 1]);
        }
      } else if IsDigits(argv[i]) {
        var next := acc.(limit := Some(DigitsValue(argv[i])));
        ListScanSound(argv, i + 1, next);
        if o.limit == next.limit {
          assert i <= i < |argv| && IsDigits(argv[i]) && o.limit == Some(DigitsValue(argv[i]));
        }
      } else {
        ListScanSound(argv, i + 1, acc);
      }
    }
  }

  /** A command line with no flag and no number leaves every filter unset. */
  lemma {:induction false} ListScanNothing(argv: seq<string>, i: nat, acc: ListOptions)
    requires forall j :: i <= j < |argv| ==>
      argv[j] != "--status" && argv[j] != "--category" && argv[j] != "--tag" && argv[j] != "--tags" && !IsDigits(argv[j])
    ensures ListScan(argv, i, acc) == acc
    decreases |argv| - i
  {
    if i < |argv| {
      ListScanNothing(argv, i + 1, acc);
    }
  }

  /** A flag takes the next token as its value even when that token is itself a flag. */
  lemma ListFlagTakesNextToken()
    ensures ListScan(["manage_faqs.py", "list", "--category", "--status", "private"], 2, NoListOptions)
         == ListOptions(None, None, Some("--status"), None)
  {
    var argv := ["manage_faqs.py", "list", "--category", "--status", "private"];
    assert !IsDigits(argv[4]) by { assert !IsDigit(argv[4][0]); }
    assert ListScan(argv, 5, NoListOptions.(category := Some("--status"))) == NoListOptions.(category := Some("--status"));
  }

  // ---------------------------------------------------------------------------
  // Options of `add` and `update`

  /** The fields `add` or `update` collects; `None` means the flag was not given. */
  datatype EditOptions = EditOptions(
    question: Option<string>,
    answer: Option<string>,
    status: Option<string>,
    category: Option<string>,
    tags: Option<seq<string>>)

  /** `add` starts from a public FAQ in category "other" with no tags given. */
  const AddDefaults: EditOptions := EditOptions(None, None, Some("public"), Some("other"), None)
  /** `update` starts with nothing to change. */
  const NoEdits: EditOptions := EditOptions(None, None, None, None, None)

  /** The value of `--tags`: split on commas without stripping; an empty value is no tags. */
  function TagsArgument(v: string): seq<string>
  {
    if v == "" then [] else Split(v, ',')
  }

  /** Joining the tags of `--tags` with commas gives the value back. */
  lemma TagsArgumentJoin(v: string)
    ensures Join(TagsArgument(v), ",") == v
    ensures v != "" ==> |TagsArgument(v)| >= 1
  {
    if v != "" {
      SplitJoin(v, ',');
    }
  }

  /**
   * The fields the `add` (`withText` false) or `update` (`withText` true) loop
   * holds at the end when it is at position `i` with `acc`.
   */
  function EditScan(argv: seq<string>, i: nat, acc: EditOptions, withText: bool): EditOptions
    decreases |argv| - i
  {
    if i >= |argv| then acc
    else if withText && argv[i] == "--question" && i + 1 < |argv| then
      EditScan(argv, i + 2, acc.(question := Some(argv[i + 1])), withText)
    else if withText && argv[i] == "--answer" && i + 1 < |argv| then
      EditScan(argv, i + 2, acc.(answer := Some(argv[i + 1])), withText)
    else if argv[i] == "--status" && i + 1 < |argv| then
      EditScan(argv, i + 2, acc.(status := Some(argv[i + 1])), withText)
    else if argv[i] == "--category" && i + 1 < |argv| then
      EditScan(argv, i + 2, acc.(category := Some(argv[i + 1])), withText)
    else if argv[i] == "--tags" && i + 1 < |argv| then
      EditScan(argv, i + 2, acc.(tags := Some(TagsArgument(argv[i + 1]))), withText)
    else
      EditScan(argv, i + 1, acc, withText)
  }

  /** The argument loops of the `add` and `update` branches of `main`, from position `start`. */
  method ParseEditOptions(argv: seq<string>, start: nat, init: EditOptions, withText: bool) returns (opts: EditOptions)
    ensures opts == EditScan(argv, start, init, withText)
  {
    opts := init;
    var i := start;
    while i < |argv|
      invariant EditScan(argv, i, opts, withText) == EditScan(argv, start, init, withText)
      decreases |argv| - i
    {
      if withText && argv[i] == "--question" && i + 1 < |argv| {
        opts := opts.(question := Some(argv[i + 1]));
        i := i + 2;
      } else if withText && argv[i] == "--answer" && i + 1 < |argv| {
        opts := opts.(answer := Some(argv[i + 1]));
        i := i + 2;
      } else if argv[i] == "--status" && i + 1 < |argv| {
        opts := opts.(status := Some(argv[i + 1]));
        i := i + 2;
      } else if argv[i] == "--category" && i + 1 < |argv| {
        opts := opts.(category := Some(argv[i + 1]));
        i := i + 2;
      } else if argv[i] == "--tags" && i + 1 < |argv| {
        opts := opts.(tags := Some(TagsArgument(argv[i + 1])));
        i := i + 2;
      } else {
        i := i + 1;
      }
    }
  }

  /**
   * Every field the loop ends with was read right after its flag; `add` never
   * sets the question or the answer from a flag.
   */
  lemma {:induction false} EditScanSound(argv: seq<string>, i: nat, acc: EditOptions, withText: bool)
    ensures var o := EditScan(argv, i, acc, withText);
      && (o.question != acc.question ==>
            withText && exists j :: i < j < |argv| && argv[j - 1] == "--question" && o.question == Some(argv[j]))
      && (o.answer != acc.answer ==>
            withText && exists j :: i < j < |argv| && argv[j - 1] == "--answer" && o.answer == Some(argv[j]))
      && (o.status != acc.status ==>
            exists j :: i < j < |argv| && argv[j - 1] == "--status" && o.status == Some(argv[j]))
      && (o.category != acc.category ==>
            exists j :: i < j < |argv| && argv[j - 1] == "--category" && o.category == Some(argv[j]))
      && (o.tags != acc.tags ==>
            exists j :: i < j < |argv| && argv[j - 1] == "--tags" && o.tags == Some(TagsArgument(argv[j])))
    decreases |argv| - i
  {
    if i < |argv| {
      var o := EditScan(argv, i, acc, withText);
      if withText && argv[i] == "--question" && i + 1 < |argv| {
        var next := acc.(question := Some(argv[i + 1]));
        EditScanSound(argv, i + 2, next, withText);
        if o.question == next.question {
          assert i < i + 1 < |argv| && argv[(i + 1) - 1] == "--question" && o.question == Some(argv[i + 1]);
        }
      } else if withText && argv[i] == "--answer" && i + 1 < |argv| {
        var next := acc.(answer := Some(argv[i + 1]));
        EditScanSound(argv, i + 2, next, withText);
        if o.answer == next.answer {
          assert i < i + 1 < |argv| && argv[(i + 1) - 1] == "--answer" && o.answer == Some(argv[i + 1]);
        }
      } else if argv[i] == "--status" && i + 1 < |argv| {
        var next := acc.(status := Some(argv[i + 1]));
        EditScanSound(argv, i + 2, next, withText);
        if o.status == next.status {
          assert i < i + 1 < |argv| && argv[(i + 1) - 1] == "--status" && o.status == Some(argv[i + 1]);
        }
      } else if argv[i] == "--category" && i + 1 < |argv| {
        var next := acc.(category := Some(argv[i + 1]));
        EditScanSound(argv, i + 2, next, withText);
        if o.category == next.category {
          assert i < i + 1 < |argv| && argv[(i + 1) - 1] == "--category" && o.category == Some(argv[i + 1]);
        }
      } else if argv[i] == "--tags" && i + 1 < |argv| {
        var next := acc.(tags := Some(TagsArgument(argv[i + 1])));
        EditScanSound(argv, i + 2, next, withText);
        if o.tags == next.tags {
          assert i < i + 1 < |argv| && argv[(i + 1) - 1] == "--tags" && o.tags == Some(TagsArgument(argv[i + 1]));
        }
      } else {
        EditScanSound(argv, i + 1, acc, withText);
      }
    }
  }

  // ---------------------------------------------------------------------------
  // `main`

  /** What `main` runs for a command line. */
  datatype Command =
    | Help
    | ListCmd(opts: ListOptions)
    | SearchCmd(query: string)
    | AddCmd(question: string, answer: string, fields: EditOptions)
    | UpdateCmd(id: int, fields: EditOptions)
    | DeleteCmd(id: int)
    | StatsCmd
    | TagsCmd
    | CategoriesCmd
    | SyncCmd(path: string)
    /** A usage message printed instead of running anything. */
    | Usage(message: string)
    /** A command name `main` does not know. */
    | Unknown(name: string)

  const NeedQuery: string := "Please provide a search query"
  const NeedQuestionAndAnswer: string := "Please provide both question and answer"
  const NeedId: string := "Please provide FAQ ID"
  const IdNotNumber: string := "FAQ ID must be a number"
  const NeedCsvPath: string := "Please provide CSV file path"

  /** The command names `main` knows. */
  const KnownCommands: set<string> :=
    {"list", "search", "add", "update", "delete", "stats", "tags", "categories", "sync", "help", "--help", "-h"}

  /** The id argument of `update` and `delete`: `int(argv[2])`, or the usage message. */
  function IdCommand(argv: seq<string>, update: bool): (c: Command)
    requires |argv| >= 2
    ensures |argv| < 3 ==> c == Usage(NeedId)
    ensures |argv| >= 3 && ParseInt(argv[2]).None? ==> c == Usage(IdNotNumber)
    ensures |argv| >= 3 && ParseInt(argv[2]).Some? && update ==>
      c == UpdateCmd(ParseInt(argv[2]).value, EditScan(argv, 3, NoEdits, true))
    ensures |argv| >= 3 && ParseInt(argv[2]).Some? && !update ==> c == DeleteCmd(ParseInt(argv[2]).value)
  {
    if |argv| < 3 then Usage(NeedId)
    else match ParseInt(argv[2])
      case None => Usage(IdNotNumber)
      case Some(id) => if update then UpdateCmd(id, EditScan(argv, 3, NoEdits, true)) else DeleteCmd(id)
  }

  /**
   * `main`: no command shows the help; the command name is compared in lower
   * case; each command checks its positional arguments before its options.
   */
  method Dispatch(argv: seq<string>) returns (c: Command)
    ensures |argv| < 2 ==> c == Help
    ensures |argv| >= 2 ==>
      var name := Lower(argv[1]);
      && (name == "list" ==> c == ListCmd(ListScan(argv, 2, NoListOptions)))
      && (name == "search" ==> c == (if |argv| < 3 then Usage(NeedQuery) else SearchCmd(argv[2])))
      && (name == "add" ==>
            c == (if |argv| < 4 then Usage(NeedQuestionAndAnswer)
                  else AddCmd(argv[2], argv[3], EditScan(argv, 4, AddDefaults, false))))
      && (name == "update" ==> c == IdCommand(argv, true))
      && (name == "delete" ==> c == IdCommand(argv, false))
      && (name == "stats" ==> c == StatsCmd)
      && (name == "tags" ==> c == TagsCmd)
      && (name == "categories" ==> c == CategoriesCmd)
      && (name == "sync" ==> c == (if |argv| < 3 then Usage(NeedCsvPath) else SyncCmd(argv[2])))
      && (name == "help" || name == "--help" || name == "-h" ==> c == Help)
      && (name !in KnownCommands ==> c == Unknown(name))
  {
    if |argv| < 2 {
      return Help;
    }
    var name := Lower(argv[1]);
    if name == "list" {
      var opts := ParseListOptions(argv);
      c := ListCmd(opts);
    } else if name == "search" {
      c := if |argv| < 3 then Usage(NeedQuery) else SearchCmd(argv[2]);
    } else if name == "add" {
      if |argv| < 4 {
        return Usage(NeedQuestionAndAnswer);
      }
      var fields := ParseEditOptions(argv, 4, AddDefaults, false);
      c := AddCmd(argv[2], argv[3], fields);
    } else if name == "update" {
      if |argv| < 3 {
        return Usage(NeedId);
      }
      var id := ParseInt(argv[2]);
      if id.None? {
        return Usage(IdNotNumber);
      }
      var fields := ParseEditOptions(argv, 3, NoEdits, true);
      c := UpdateCmd(id.value, fields);
    } else if name == "delete" {
      c := IdCommand(argv, false);
    } else if name == "stats" {
      c := StatsCmd;
    } else if name == "tags" {
      c := TagsCmd;
    } else if name == "categories" {
      c := CategoriesCmd;
    } else if name == "sync" {
      c := if |argv| < 3 then Usage(NeedCsvPath) else SyncCmd(argv[2]);
    } else if name == "help" || name == "--help" || name == "-h" {
      c := Help;
    } else {
      c := Unknown(name);
    }
  }

  /** An id that is not a number stops `update` and `delete` before any FAQ is touched. */
  lemma IdMustBeNumber(argv: seq<string>)
    requires |argv| >= 3 && forall k :: 0 <= k < |argv[2]| ==> !IsDigit(argv[2][k])
    ensures IdCommand(argv, true) == Usage(IdNotNumber) && IdCommand(argv, false) == Usage(IdNotNumber)
  {
    ParseIntNeedsDigit(argv[2]);
  }

  /** `update` and `delete` take back the id `str(n)` of any FAQ. */
  lemma IdRoundTrip(argv: seq<string>, n: nat)
    requires |argv| >= 3 && argv[2] == IntToString(n)
    ensures IdCommand(argv, false) == DeleteCmd(n)
    ensures IdCommand(argv, true) == UpdateCmd(n, EditScan(argv, 3, NoEdits, true))
  {
    ParseIntOfIntToString(n);
  }

  // ---------------------------------------------------------------------------
  // Handlers

  /** How a handler ends: the manager's result, a message it printed without calling the manager, or a caught error. */
  datatype Reply<T> = Success(value: T) | Refused(message: string) | Failed(error: Error)

  const StatusChoice: string := "Status must be 'public' or 'private'"
  const NoUpdates: string := "No updates provided"
  const DeleteCancelled: string := "Delete cancelled"

  /** The statuses the command line accepts. */
  predicate CliStatus(s: string) {
    s == "public" || s == "private"
  }

  /** The request `add_faq` builds once the status passed: stripped text and `tags or []`. */
  function AddRequest(question: string, answer: string, status: string, category: string, tags: Option<seq<string>>)
    : (req: CreateRequest)
    ensures req.question == Strip(question) && req.answer == Strip(answer)
    ensures req.status == status && req.category == category
    ensures req.tags == (if tags.Some? then tags.value else [])
  {
    CreateRequest(Strip(question), Strip(answer), status, category, tags.GetOr([]))
  }

  /** A status the command line accepts builds a valid `FAQCreateRequest` with these fields. */
  lemma AddRequestBuilds(question: string, answer: string, status: string, category: string, tags: Option<seq<string>>)
    requires CliStatus(status)
    ensures NewCreateRequest(Strip(question), Strip(answer), Some(status), Some(category), Some(tags.GetOr([])))
         == Ok(AddRequest(question, answer, status, category, tags))
  {
  }

  /** `add_faq`: a status other than public or private is refused before the manager is called. */
  method AddFaq(m: FaqManager, question: string, answer: string, status: string, category: string,
                tags: Option<seq<string>>, sqlNow: string, isoNow: string) returns (r: Reply<FaqResponse>)
    requires m.Valid()
    modifies m, m.log
    ensures m.Valid() && m.log.writable == old(m.log.writable)
    ensures !CliStatus(status) ==>
      r == Refused(StatusChoice) && m.rows == old(m.rows) && m.nextId == old(m.nextId) && m.log.disk == old(m.log.disk)
    ensures CliStatus(status) ==>
      var req := AddRequest(question, answer, status, category, tags);
      && (r.Success? <==> CreateCheck(req) == Done && old(m.log.writable))
      && !r.Refused?
    ensures CliStatus(status) && CreateCheck(AddRequest(question, answer, status, category, tags)).Raised? ==>
      && r == Failed(CreateCheck(AddRequest(question, answer, status, category, tags)).error)
      && m.rows == old(m.rows) && m.nextId == old(m.nextId) && m.log.disk == old(m.log.disk)
    ensures CliStatus(status) && CreateCheck(AddRequest(question, answer, status, category, tags)) == Done ==>
      var row := CreatedRow(AddRequest(question, answer, status, category, tags), old(m.nextId), sqlNow);
      && m.rows == old(m.rows) + [row] && m.nextId == old(m.nextId) + 1
      && (old(m.log.writable) ==>
            && r == Success(RowToFaq(row))
            && m.log.disk == PendingChanges.Json(PendingChanges.Put(old(m.log.Load()), row.id,
                 PendingChanges.ToDict(PendingChanges.PendingChange(row.id, PendingChanges.Created, Some(status), isoNow)))))
      && (!old(m.log.writable) ==>
            r == Failed(CacheError("Failed to add pending change")) && m.log.disk == old(m.log.disk))
  {
    if !CliStatus(status) {
      return Refused(StatusChoice);
    }
    var created := m.CreateFaq(AddRequest(question, answer, status, category, tags), sqlNow, isoNow);
    r := if created.Ok? then Success(created.value) else Failed(created.error);
  }

  /** The request `update_faq` builds: only the options given, with the texts stripped. */
  function UpdateRequestOf(question: Option<string>, answer: Option<string>, status: Option<string>,
                           category: Option<string>, tags: Option<seq<string>>): (req: UpdateRequest)
    ensures req.IsEmpty() <==> question.None? && answer.None? && status.None? && category.None? && tags.None?
    ensures req.question == StripOpt(question) && req.answer == StripOpt(answer)
    ensures req.status == status && req.category == category && req.tags == tags
  {
    UpdateRequest(StripOpt(question), StripOpt(answer), status, category, tags)
  }

  /**
   * `update_faq`: the status is checked, then the FAQ must exist, then at
   * least one field must be given; only then is the manager asked to update.
   */
  method UpdateFaq(m: FaqManager, id: int, question: Option<string>, answer: Option<string>, status: Option<string>,
                   category: Option<string>, tags: Option<seq<string>>, sqlNow: string, isoNow: string)
    returns (r: Reply<(FaqResponse, FaqResponse)>)
    requires m.Valid()
    modifies m, m.log
    ensures m.Valid() && m.log.writable == old(m.log.writable) && m.nextId == old(m.nextId)
    ensures status.Some? && !CliStatus(status.value) ==>
      r == Refused(StatusChoice) && m.rows == old(m.rows) && m.log.disk == old(m.log.disk)
    ensures (status.None? || CliStatus(status.value)) && Find(old(m.rows), id).None? ==>
      r == Failed(NotFoundError("FAQ not found with ID: " + IntToString(id)))
      && m.rows == old(m.rows) && m.log.disk == old(m.log.disk)
    ensures (status.None? || CliStatus(status.value)) && Find(old(m.rows), id).Some?
            && UpdateRequestOf(question, answer, status, category, tags).IsEmpty() ==>
      r == Refused(NoUpdates) && m.rows == old(m.rows) && m.log.disk == old(m.log.disk)
    ensures r.Success? ==>
      var req := UpdateRequestOf(question, answer, status, category, tags);
      && Find(old(m.rows), id).Some? && !req.IsEmpty() && UpdateCheck(req) == Done && old(m.log.writable)
      && m.rows == Replace(old(m.rows), UpdatedRow(Find(old(m.rows), id).value, UpdatesOf(req), sqlNow))
      && r.value.0 == RowToFaq(UpdatedRow(Find(old(m.rows), id).value, UpdatesOf(req), sqlNow))
    ensures (status.None? || CliStatus(status.value)) && Find(old(m.rows), id).Some? ==>
      var req := UpdateRequestOf(question, answer, status, category, tags);
      !req.IsEmpty() && UpdateCheck(req).Raised? ==>
        r == Failed(UpdateCheck(req).error) && m.rows == old(m.rows) && m.log.disk == old(m.log.disk)
    ensures (status.None? || CliStatus(status.value)) && Find(old(m.rows), id).Some? ==>
      var req := UpdateRequestOf(question, answer, status, category, tags);
      var before := Find(old(m.rows), id).value;
      var after := UpdatedRow(before, UpdatesOf(req), sqlNow);
      !req.IsEmpty() && UpdateCheck(req) == Done ==>
        && m.rows == Replace(old(m.rows), after)
        && (old(m.log.writable) ==>
              && r == Success((RowToFaq(after), RowToFaq(before)))
              && m.log.disk == PendingChanges.Json(PendingChanges.Put(old(m.log.Load()), id,
                   PendingChanges.ToDict(PendingChanges.PendingChange(id, PendingChanges.Updated,
                                                                      Some(status.GetOr(before.status)), isoNow)))))
        && (!old(m.log.writable) ==>
              r == Failed(CacheError("Failed to add pending change")) && m.log.disk == old(m.log.disk))
  {
    if status.Some? && !CliStatus(status.value) {
      return Refused(StatusChoice);
    }
    var current := m.GetFaqById(id);
    if current.Err? {
      return Failed(current.error);
    }
    var req := UpdateRequestOf(question, answer, status, category, tags);
    if req.IsEmpty() {
      return Refused(NoUpdates);
    }
    var updated := m.UpdateFaq(id, req, sqlNow, isoNow);
    r := if updated.Ok? then Success(updated.value) else Failed(updated.error);
  }

  /** `delete_faq`: the FAQ must exist, and the deletion happens only when the user confirms it. */
  method DeleteFaq(m: FaqManager, id: int, confirmed: bool, isoNow: string) returns (r: Reply<FaqResponse>)
    requires m.Valid()
    modifies m, m.log
    ensures m.Valid() && m.log.writable == old(m.log.writable) && m.nextId == old(m.nextId)
    ensures Find(old(m.rows), id).None? ==>
      r == Failed(NotFoundError("FAQ not found with ID: " + IntToString(id)))
      && m.rows == old(m.rows) && m.log.disk == old(m.log.disk)
    ensures Find(old(m.rows), id).Some? && !confirmed ==>
      r == Refused(DeleteCancelled) && m.rows == old(m.rows) && m.log.disk == old(m.log.disk)
    ensures Find(old(m.rows), id).Some? && confirmed ==> m.rows == Delete(old(m.rows), id) && !r.Refused?
    ensures r.Success? ==> r.value == RowToFaq(Find(old(m.rows), id).value) && old(m.log.writable)
    ensures Find(old(m.rows), id).Some? && confirmed ==>
      var before := Find(old(m.rows), id).value;
      && (old(m.log.writable) ==>
            && r == Success(RowToFaq(before))
            && m.log.disk == PendingChanges.Json(PendingChanges.Put(old(m.log.Load()), id,
                 PendingChanges.ToDict(PendingChanges.PendingChange(id, PendingChanges.Deleted, Some(before.status), isoNow)))))
      && (!old(m.log.writable) ==>
            r == Failed(CacheError("Failed to add pending change")) && m.log.disk == old(m.log.disk))
  {
    var current := m.GetFaqById(id);
    if current.Err? {
      return Failed(current.error);
    }
    if !confirmed {
      return Refused(DeleteCancelled);
    }
    var deleted := m.DeleteFaq(id, isoNow);
    r := if deleted.Ok? then Success(deleted.value) else Failed(deleted.error);
  }

  /** The page size `get_faqs` uses when `list` is given none. */
  const DefaultListLimit: int := 50

  /** `list_faqs`: a filter is passed only when it is truthy, so a limit of 0 or an empty filter is dropped. */
  function ListFaqs(m: FaqManager, opts: ListOptions, now: string): (r: Result<FaqPage>)
    reads m
    ensures var limit := if opts.limit.Some? && opts.limit.value != 0 then opts.limit.value else DefaultListLimit;
      r.Ok? <==> limit <= 500
    ensures r.Err? ==> r.error == ValidationError("Limit must be between 1 and 500")
  {
    var limit := if opts.limit.Some? && opts.limit.value != 0 then opts.limit.value else DefaultListLimit;
    m.GetFaqs(limit, 0, NonEmpty(opts.status), NonEmpty(opts.category), NonEmpty(opts.tag), now)
  }

  /** Python truthiness of an optional string, as a filter: an empty string is no filter. */
  function NonEmpty(v: Option<string>): Option<string>
  {
    if v.Some? && v.value != "" then v else None
  }

  /** Without options `list` shows the first page of 50 over every FAQ. */
  lemma ListWithoutOptions(m: FaqManager, now: string)
    ensures ListFaqs(m, NoListOptions, now) == m.GetFaqs(50, 0, None, None, None, now)
    ensures ListFaqs(m, NoListOptions, now).Ok?
  {
  }

  // ---------------------------------------------------------------------------
  // CSV rows

  /** A CSV file as `csv.DictReader` yields it: the header and one dictionary per row. */
  datatype CsvFile = CsvFile(fieldnames: seq<string>, rows: seq<map<string, string>>)

  /** Every row has a cell for every column of the header. */
  predicate Rectangular(f: CsvFile) {
    forall i, name :: 0 <= i < |f.rows| && name in f.fieldnames ==> name in f.rows[i]
  }

  /** One normalised CSV row. */
  datatype Entry = Entry(question: string, answer: string, status: string, category: string, tags: seq<string>)

  /**
   * `row.get(key, default).strip() or default` for a default that is already
   * stripped and not empty.
   */
  function CellOr(row: map<string, string>, key: string, default: string): (r: string)
    requires default != ""
    ensures r != ""
    ensures key !in row ==> r == default
  {
    if key in row && Strip(row[key]) != "" then Strip(row[key]) else default
  }

  /** The pieces with their surrounding whitespace removed. */
  function StripAll(pieces: seq<string>): (r: seq<string>)
    ensures |r| == |pieces| && forall k :: 0 <= k < |pieces| ==> r[k] == Strip(pieces[k])
  {
    seq(|pieces|, k requires 0 <= k < |pieces| => Strip(pieces[k]))
  }

  /** The strings that are not empty, in order. */
  function NonEmptyOnly(xs: seq<string>): seq<string>
  {
    if xs == [] then []
    else if xs[0] == "" then NonEmptyOnly(xs[1..])
    else [xs[0]] + NonEmptyOnly(xs[1..])
  }

  /** Exactly the strings that are not empty survive. */
  lemma {:induction false} NonEmptyOnlySpec(xs: seq<string>)
    ensures |NonEmptyOnly(xs)| <= |xs|
    ensures forall t :: t in NonEmptyOnly(xs) <==> t in xs && t != ""
  {
    if xs != [] {
      NonEmptyOnlySpec(xs[1..]);
      assert xs == [xs[0]] + xs[1..];
    }
  }

  /** `[tag.strip() for tag in pieces if tag.strip()]`. */
  function CleanTags(pieces: seq<string>): seq<string>
  {
    NonEmptyOnly(StripAll(pieces))
  }

  /** The tags of a `tags` cell: split on commas, stripped, empty ones dropped. */
  function CsvTags(cell: string): seq<string>
  {
    var s := Strip(cell);
    if s == "" then [] else CleanTags(Split(s, ','))
  }

  /** Every tag of a cell is a non-empty, stripped piece of it, and every such piece is a tag. */
  lemma CsvTagsSpec(cell: string)
    requires Strip(cell) != ""
    ensures var pieces := Split(Strip(cell), ',');
      && (forall t :: t in CsvTags(cell) ==> t != "" && t in StripAll(pieces))
      && (forall k :: 0 <= k < |pieces| && StripAll(pieces)[k] != "" ==> StripAll(pieces)[k] in CsvTags(cell))
  {
    NonEmptyOnlySpec(StripAll(Split(Strip(cell), ',')));
  }

  /** The normalised row, or `None` when its stripped question or answer is empty. */
  function EntryOf(row: map<string, string>): (r: Option<Entry>)
    requires "question" in row && "answer" in row
    ensures r.Some? <==> !IsBlank(row["question"]) && !IsBlank(row["answer"])
    ensures r.Some? ==> r.value.question == Strip(row["question"]) && r.value.answer == Strip(row["answer"])
    ensures r.Some? ==> r.value.status != "" && r.value.category != ""
    ensures r.Some? && "status" !in row ==> r.value.status == "public"
    ensures r.Some? && "category" !in row ==> r.value.category == "other"
    ensures r.Some? && "tags" !in row ==> r.value.tags == []
  {
    var question := Strip(row["question"]);
    var answer := Strip(row["answer"]);
    if question == "" || answer == "" then None
    else Some(Entry(question, answer,
                    CellOr(row, "status", "public"),
                    CellOr(row, "category", "other"),
                    if "tags" in row then CsvTags(row["tags"]) else []))
  }

  /** The tags of an entry are never empty. */
  lemma EntryTagsNonEmpty(row: map<string, string>)
    requires "question" in row && "answer" in row && EntryOf(row).Some?
    ensures forall t :: t in EntryOf(row).value.tags ==> t != ""
  {
    if "tags" in row && Strip(row["tags"]) != "" {
      CsvTagsSpec(row["tags"]);
    }
  }

  predicate HasTextColumns(rows: seq<map<string, string>>) {
    forall i :: 0 <= i < |rows| ==> "question" in rows[i] && "answer" in rows[i]
  }

  /** Each row normalised on its own. */
  function Normalized(rows: seq<map<string, string>>): (r: seq<Option<Entry>>)
    requires HasTextColumns(rows)
    ensures |r| == |rows| && forall i :: 0 <= i < |rows| ==> r[i] == EntryOf(rows[i])
  {
    seq(|rows|, i requires 0 <= i < |rows| => EntryOf(rows[i]))
  }

  /** The present values, in order. */
  function Present<T>(opts: seq<Option<T>>): seq<T>
  {
    if opts == [] then []
    else
      var init := Present(opts[..|opts| - 1]);
      var last := opts[|opts| - 1];
      if last.Some? then init + [last.value] else init
  }

  /** Exactly the present values are kept. */
  lemma {:induction false} PresentSpec<T>(opts: seq<Option<T>>)
    ensures |Present(opts)| <= |opts|
    ensures forall e :: e in Present(opts) <==> Some(e) in opts
  {
    if opts != [] {
      var init := opts[..|opts| - 1];
      PresentSpec(init);
      assert opts == init + [opts[|opts| - 1]];
    }
  }

  /** `csv_data`: the normalised rows, in file order. */
  function Entries(rows: seq<map<string, string>>): seq<Entry>
    requires HasTextColumns(rows)
  {
    Present(Normalized(rows))
  }

  /** The entries are exactly the rows with a question and an answer. */
  lemma EntriesSpec(rows: seq<map<string, string>>)
    requires HasTextColumns(rows)
    ensures |Entries(rows)| <= |rows|
    ensures forall e :: e in Entries(rows) ==> exists i :: 0 <= i < |rows| && EntryOf(rows[i]) == Some(e)
    ensures forall i :: 0 <= i < |rows| && EntryOf(rows[i]).Some? ==> EntryOf(rows[i]).value in Entries(rows)
  {
    var opts := Normalized(rows);
    PresentSpec(opts);
    forall i | 0 <= i < |rows| && EntryOf(rows[i]).Some?
      ensures EntryOf(rows[i]).value in Entries(rows)
    {
      assert opts[i] == Some(EntryOf(rows[i]).value);
    }
  }

  /** The row loop of `sync_from_csv`. */
  method NormalizeRows(rows: seq<map<string, string>>) returns (entries: seq<Entry>)
    requires HasTextColumns(rows)
    ensures entries == Entries(rows)
  {
    ghost var opts := Normalized(rows);
    entries := [];
    for i := 0 to |rows|
      invariant entries == Present(opts[..i])
    {
      assert opts[..i + 1][..i] == opts[..i];
      var e := EntryOf(rows[i]);
      if e.Some? {
        entries := entries + [e.value];
      }
    }
    assert opts[..|rows|] == opts;
  }

  // ---------------------------------------------------------------------------
  // Matching a row with a stored FAQ

  /** Questions are compared stripped and in lower case. */
  function Normal(s: string): string
  {
    Lower(Strip(s))
  }

  /** The comparison keys of the candidates' questions. */
  function Keys(candidates: seq<FaqResponse>): (r: seq<string>)
    ensures |r| == |candidates| && forall k :: 0 <= k < |candidates| ==> r[k] == Normal(candidates[k].question)
  {
    seq(|candidates|, k requires 0 <= k < |candidates| => Normal(candidates[k].question))
  }

  /** The position of the first key equal to `key`, if any. */
  function FirstIndex(keys: seq<string>, key: string): (r: Option<nat>)
    ensures r.Some? ==> r.value < |keys| && keys[r.value] == key
    ensures r.Some? ==> forall k :: 0 <= k < r.value ==> keys[k] != key
    ensures r.None? <==> key !in keys
  {
    if keys == [] then None
    else if keys[0] == key then Some(0)
    else
      var rest := FirstIndex(keys[1..], key);
      assert keys == [keys[0]] + keys[1..];
      if rest.None? then None else Some(rest.value + 1)
  }

  /** The first candidate whose question matches the row's. */
  function FirstMatch(candidates: seq<FaqResponse>, question: string): (r: Option<nat>)
    ensures r.Some? ==> r.value < |candidates| && Normal(candidates[r.value].question) == Normal(question)
    ensures r.Some? ==> forall k :: 0 <= k < r.value ==> Normal(candidates[k].question) != Normal(question)
    ensures r.None? ==> forall k :: 0 <= k < |candidates| ==> Normal(candidates[k].question) != Normal(question)
  {
    var keys := Keys(candidates);
    var r := FirstIndex(keys, Normal(question));
    assert r.None? ==> forall k :: 0 <= k < |candidates| ==> keys[k] != Normal(question);
    r
  }

  /** The loop over the search results that stops at the first exact question. */
  method FindFirst(keys: seq<string>, key: string) returns (idx: Option<nat>)
    ensures idx == FirstIndex(keys, key)
  {
    for i := 0 to |keys|
      invariant key !in keys[..i]
    {
      if keys[i] == key {
        FirstIndexAt(keys, key, i);
        return Some(i);
      }
      assert keys[..i + 1] == keys[..i] + [keys[i]];
    }
    assert keys[..|keys|] == keys;
    return None;
  }

  /** The first index is the first position holding the key. */
  lemma FirstIndexAt(keys: seq<string>, key: string, i: nat)
    requires i < |keys| && keys[i] == key && key !in keys[..i]
    ensures FirstIndex(keys, key) == Some(i)
  {
    forall k | 0 <= k < i
      ensures keys[k] != key
    {
      assert keys[..i][k] == keys[k];
    }
  }

  /** `existing_faq` of the sync: the first search result whose question matches. */
  method FindExisting(candidates: seq<FaqResponse>, question: string) returns (found: Option<FaqResponse>)
    ensures found.None? <==> FirstMatch(candidates, question).None?
    ensures found.Some? ==> found.value == candidates[FirstMatch(candidates, question).value]
  {
    var idx := FindFirst(Keys(candidates), Normal(question));
    found := if idx.Some? then Some(candidates[idx.value]) else None;
  }

  function TagSet(tags: seq<string>): set<string>
  {
    set t | t in tags
  }

  /** The stored FAQ differs from the row in its answer, status, category or set of tags. */
  predicate Changed(existing: FaqResponse, e: Entry)
  {
    Strip(existing.answer) != Strip(e.answer) || existing.status != e.status || existing.category != e.category
    || TagSet(existing.tags) != TagSet(e.tags)
  }

  /** What the sync does with a row, given the search results for its question. */
  datatype Decision = CreateNew | UpdateExisting(id: int) | SkipUnchanged

  function Decide(e: Entry, candidates: seq<FaqResponse>): (d: Decision)
    ensures d == CreateNew <==> FirstMatch(candidates, e.question).None?
    ensures d.UpdateExisting? <==>
      FirstMatch(candidates, e.question).Some? && Changed(candidates[FirstMatch(candidates, e.question).value], e)
    ensures d.UpdateExisting? ==> d.id == candidates[FirstMatch(candidates, e.question).value].id
  {
    match FirstMatch(candidates, e.question)
    case None => CreateNew
    case Some(k) => if Changed(candidates[k], e) then UpdateExisting(candidates[k].id) else SkipUnchanged
  }

  /** A stored FAQ equal to the row up to surrounding space, letter case of the question and tag order is skipped. */
  lemma SkipIdentical(e: Entry, existing: FaqResponse)
    requires Normal(existing.question) == Normal(e.question)
    requires Strip(existing.answer) == Strip(e.answer) && existing.status == e.status && existing.category == e.category
    requires multiset(existing.tags) == multiset(e.tags)
    ensures Decide(e, [existing]) == SkipUnchanged
  {
    assert TagSet(existing.tags) == TagSet(e.tags) by {
      forall t ensures t in existing.tags <==> t in e.tags {
        assert t in existing.tags <==> t in multiset(existing.tags);
        assert t in e.tags <==> t in multiset(e.tags);
      }
    }
  }

  // ---------------------------------------------------------------------------
  // Synchronisation

  /** `manager.search_faqs(query, limit)` once its checks passed: the scoring of `_search` is not modelled. */
  type Searcher = (seq<Row>, string, int) -> seq<FaqResponse>

  /** The limit the sync searches with. */
  const SyncSearchLimit: int := 50

  /** What became of one row. */
  datatype SyncOutcome = Inserted(faq: FaqResponse) | Revised(faq: FaqResponse) | Skipped | Errored(error: Error)

  /** The request a row creates from. */
  function CreateRequestOf(e: Entry): Result<CreateRequest>
  {
    NewCreateRequest(e.question, e.answer, Some(e.status), Some(e.category), Some(e.tags))
  }

  /** The request a row updates with: every field. */
  function UpdateRequestFrom(e: Entry): Result<UpdateRequest>
  {
    NewUpdateRequest(Some(e.question), Some(e.answer), Some(e.status), Some(e.category), Some(e.tags))
  }

  /** A row with no match becomes a new FAQ; an invalid status is an error before anything is stored. */
  method CreateFromRow(m: FaqManager, e: Entry, sqlNow: string, isoNow: string) returns (o: SyncOutcome)
    requires m.Valid()
    modifies m, m.log
    ensures m.Valid() && m.log.writable == old(m.log.writable)
    ensures o.Inserted? || o.Errored?
    ensures CreateRequestOf(e).Err? ==>
      o == Errored(ValueError(StatusMessage)) && m.rows == old(m.rows) && m.nextId == old(m.nextId)
      && m.log.disk == old(m.log.disk)
    ensures o.Inserted? <==> CreateRequestOf(e).Ok? && CreateCheck(CreateRequestOf(e).value) == Done && old(m.log.writable)
    ensures o.Inserted? ==>
      var row := CreatedRow(CreateRequestOf(e).value, old(m.nextId), sqlNow);
      m.rows == old(m.rows) + [row] && m.nextId == old(m.nextId) + 1 && o.faq == RowToFaq(row)
    ensures InsertEffect(Table(old(m.rows), old(m.nextId)), e, sqlNow, old(m.log.writable), o, Table(m.rows, m.nextId))
  {
    var req := CreateRequestOf(e);
    if req.Err? {
      return Errored(req.error);
    }
    ghost var t, writable := Table(m.rows, m.nextId), m.log.writable;
    var created := m.CreateFaq(req.value, sqlNow, isoNow);
    o := if created.Ok? then Inserted(created.value) else Errored(created.error);
    CreatedEffect(t, e, sqlNow, writable, created, Table(m.rows, m.nextId));
  }

  /** What `create_faq` leaves and returns is the insert effect of the row. */
  lemma CreatedEffect(t: Table, e: Entry, sqlNow: string, writable: bool, created: Result<FaqResponse>, t': Table)
    requires CreateRequestOf(e).Ok?
    requires var req := CreateRequestOf(e).value;
      && (CreateCheck(req).Raised? ==> created == Err(CreateCheck(req).error) && t' == t)
      && (CreateCheck(req) == Done ==>
            && t' == Table(t.rows + [CreatedRow(req, t.nextId, sqlNow)], t.nextId + 1)
            && (writable ==> created == Ok(RowToFaq(CreatedRow(req, t.nextId, sqlNow))))
            && (!writable ==> created == Err(CacheError(LogFailed))))
    ensures InsertEffect(t, e, sqlNow, writable, if created.Ok? then Inserted(created.value) else Errored(created.error), t')
  {
  }

  /** A matched row that differs rewrites every field of the stored FAQ. */
  method UpdateFromRow(m: FaqManager, id: int, e: Entry, sqlNow: string, isoNow: string) returns (o: SyncOutcome)
    requires m.Valid()
    modifies m, m.log
    ensures m.Valid() && m.log.writable == old(m.log.writable) && m.nextId == old(m.nextId)
    ensures o.Revised? || o.Errored?
    ensures UpdateRequestFrom(e).Err? ==>
      o == Errored(ValueError(StatusMessage)) && m.rows == old(m.rows) && m.log.disk == old(m.log.disk)
    ensures o.Revised? <==>
      UpdateRequestFrom(e).Ok? && Find(old(m.rows), id).Some? && UpdateCheck(UpdateRequestFrom(e).value) == Done
      && old(m.log.writable)
    ensures o.Revised? ==>
      var after := UpdatedRow(Find(old(m.rows), id).value, UpdatesOf(UpdateRequestFrom(e).value), sqlNow);
      m.rows == Replace(old(m.rows), after) && o.faq == RowToFaq(after)
    ensures ReviseEffect(Table(old(m.rows), old(m.nextId)), e, id, sqlNow, old(m.log.writable), o, Table(m.rows, m.nextId))
  {
    var req := UpdateRequestFrom(e);
    if req.Err? {
      return Errored(req.error);
    }
    var updated := m.UpdateFaq(id, req.value, sqlNow, isoNow);
    o := if updated.Ok? then Revised(updated.value.0) else Errored(updated.error);
  }

  /**
   * One row of the sync: search its question, take the first exact match,
   * and create, update or skip accordingly; any error is the row's outcome.
   */
  method SyncRow(m: FaqManager, e: Entry, search: Searcher, sqlNow: string, isoNow: string) returns (o: SyncOutcome)
    requires m.Valid()
    modifies m, m.log
    ensures m.Valid() && m.log.writable == old(m.log.writable)
    ensures SearchRequest(e.question, SyncSearchLimit).Err? ==>
      o == Errored(SearchRequest(e.question, SyncSearchLimit).error)
      && m.rows == old(m.rows) && m.nextId == old(m.nextId) && m.log.disk == old(m.log.disk)
    ensures SyncStep(Table(old(m.rows), old(m.nextId)), e, search, sqlNow, old(m.log.writable), o, Table(m.rows, m.nextId))
    ensures o == Skipped ==> m.log.disk == old(m.log.disk)
  {
    var query := SearchRequest(e.question, SyncSearchLimit);
    if query.Err? {
      return Errored(query.error);
    }
    var candidates := search(m.rows, query.value.0, SyncSearchLimit);
    ghost var d := Decide(e, candidates);
    var existing := FindExisting(candidates, e.question);
    if existing.None? {
      assert d == CreateNew;
      o := CreateFromRow(m, e, sqlNow, isoNow);
    } else if Changed(existing.value, e) {
      assert d == UpdateExisting(existing.value.id);
      o := UpdateFromRow(m, existing.value.id, e, sqlNow, isoNow);
    } else {
      assert d == SkipUnchanged;
      o := Skipped;
    }
  }

  /** The table a sync step starts from or leaves: its rows and the id the next INSERT receives. */
  datatype Table = Table(rows: seq<Row>, nextId: int)

  /** The message of the CacheError a failed log write raises. */
  const LogFailed: string := "Failed to add pending change"

  /**
   * What `create_faq` does for a row with no match: a request that does not
   * build or fails the checks changes nothing and is the row's error; otherwise
   * the row is inserted under the next id, and a log that cannot be written
   * turns the insert into an error without undoing it.
   */
  predicate InsertEffect(t: Table, e: Entry, sqlNow: string, writable: bool, o: SyncOutcome, t': Table)
  {
    var req := CreateRequestOf(e);
    if req.Err? then o == Errored(req.error) && t' == t
    else if CreateCheck(req.value).Raised? then o == Errored(CreateCheck(req.value).error) && t' == t
    else
      var row := CreatedRow(req.value, t.nextId, sqlNow);
      && t' == Table(t.rows + [row], t.nextId + 1)
      && o == (if writable then Inserted(RowToFaq(row)) else Errored(CacheError(LogFailed)))
  }

  /**
   * What `update_faq` does for a matched row that differs: a request that
   * does not build, a FAQ that is gone, or fields that fail the checks change
   * nothing and are the row's error; otherwise the FAQ is rewritten, and a log
   * that cannot be written turns the rewrite into an error without undoing it.
   */
  predicate ReviseEffect(t: Table, e: Entry, id: int, sqlNow: string, writable: bool, o: SyncOutcome, t': Table)
  {
    var req := UpdateRequestFrom(e);
    if req.Err? then o == Errored(req.error) && t' == t
    else if Find(t.rows, id).None? then o == Errored(NotFoundError("FAQ not found with ID: " + IntToString(id))) && t' == t
    else if UpdateCheck(req.value).Raised? then o == Errored(UpdateCheck(req.value).error) && t' == t
    else
      var after := UpdatedRow(Find(t.rows, id).value, UpdatesOf(req.value), sqlNow);
      && t' == Table(Replace(t.rows, after), t.nextId)
      && o == (if writable then Revised(RowToFaq(after)) else Errored(CacheError(LogFailed)))
  }

  /** What acting on a decision does: insert, rewrite, or leave the table as it is. */
  predicate SyncEffect(t: Table, e: Entry, d: Decision, sqlNow: string, writable: bool, o: SyncOutcome, t': Table)
  {
    match d
    case CreateNew => InsertEffect(t, e, sqlNow, writable, o, t')
    case UpdateExisting(id) => ReviseEffect(t, e, id, sqlNow, writable, o, t')
    case SkipUnchanged => o == Skipped && t' == t
  }

  /**
   * What syncing one entry does to the table: nothing when the search is
   * refused; otherwise the effect of the decision on what the search finds.
   */
  predicate SyncStep(t: Table, e: Entry, search: Searcher, sqlNow: string, writable: bool, o: SyncOutcome, t': Table)
  {
    var query := SearchRequest(e.question, SyncSearchLimit);
    if query.Err? then o == Errored(query.error) && t' == t
    else SyncEffect(t, e, Decide(e, search(t.rows, query.value.0, SyncSearchLimit)), sqlNow, writable, o, t')
  }

  /**
   * Each outcome of a run is a step from the table before it to the table
   * after it, with the log writable or not throughout.
   */
  predicate Steps(trace: seq<Table>, es: seq<Entry>, search: Searcher, sqlNow: string, writable: bool, outcomes: seq<SyncOutcome>)
    decreases |outcomes|
  {
    && |trace| == |outcomes| + 1 && |outcomes| <= |es|
    && (outcomes != [] ==>
          var n := |outcomes| - 1;
          && Steps(trace[..n + 1], es, search, sqlNow, writable, outcomes[..n])
          && SyncStep(trace[n], es[n], search, sqlNow, writable, outcomes[n], trace[n + 1]))
  }

  lemma StepsSnoc(trace: seq<Table>, es: seq<Entry>, search: Searcher, sqlNow: string, writable: bool,
                  outcomes: seq<SyncOutcome>, o: SyncOutcome, t: Table)
    requires Steps(trace, es, search, sqlNow, writable, outcomes) && |outcomes| < |es|
    requires SyncStep(trace[|outcomes|], es[|outcomes|], search, sqlNow, writable, o, t)
    ensures Steps(trace + [t], es, search, sqlNow, writable, outcomes + [o])
  {
    var n := |outcomes|;
    var tr, oc := trace + [t], outcomes + [o];
    assert tr[..n + 1] == trace && oc[..n] == outcomes;
    assert tr[n] == trace[n] && tr[n + 1] == t && oc[n] == o;
    assert SyncStep(tr[n], es[n], search, sqlNow, writable, oc[n], tr[n + 1]);
  }

  /**
   * On a writable log an errored row leaves the table as it was; on a log
   * that cannot be written no row counts as created or updated.
   */
  lemma SyncErrorKeepsTable(t: Table, e: Entry, search: Searcher, sqlNow: string, writable: bool,
                            o: SyncOutcome, t': Table)
    requires SyncStep(t, e, search, sqlNow, writable, o, t')
    ensures writable && o.Errored? ==> t' == t
    ensures !writable ==> !o.Inserted? && !o.Revised?
  {
    var query := SearchRequest(e.question, SyncSearchLimit);
    if query.Ok? {
      EffectKeepsTable(t, e, Decide(e, search(t.rows, query.value.0, SyncSearchLimit)), sqlNow, writable, o, t');
    }
  }

  /** The same holds for the effect of any decision. */
  lemma EffectKeepsTable(t: Table, e: Entry, d: Decision, sqlNow: string, writable: bool, o: SyncOutcome, t': Table)
    requires SyncEffect(t, e, d, sqlNow, writable, o, t')
    ensures writable && o.Errored? ==> t' == t
    ensures !writable ==> !o.Inserted? && !o.Revised?
  {
  }

  /** A run on a writable log that creates and updates nothing ends on the table it started from. */
  lemma {:induction false} UnchangedRun(trace: seq<Table>, es: seq<Entry>, search: Searcher, sqlNow: string,
                                        outcomes: seq<SyncOutcome>)
    requires Steps(trace, es, search, sqlNow, true, outcomes)
    requires forall i :: 0 <= i < |outcomes| ==> outcomes[i].Skipped? || outcomes[i].Errored?
    ensures trace[|outcomes|] == trace[0]
    decreases |outcomes|
  {
    if outcomes != [] {
      var n := |outcomes| - 1;
      UnchangedRun(trace[..n + 1], es, search, sqlNow, outcomes[..n]);
      SyncErrorKeepsTable(trace[n], es[n], search, sqlNow, true, outcomes[n], trace[n + 1]);
    }
  }

  /** The loop of `sync_from_csv`: sync the entries in order, counting each outcome once. */
  method SyncEntries(m: FaqManager, entries: seq<Entry>, search: Searcher, sqlNow: string, isoNow: string)
    returns (stats: SyncStats, outcomes: seq<SyncOutcome>, ghost trace: seq<Table>)
    requires m.Valid()
    modifies m, m.log
    ensures m.Valid() && m.log.writable == old(m.log.writable)
    ensures |outcomes| == |entries| && stats == Tally(outcomes)
    ensures stats.created + stats.updated + stats.skipped + stats.errors == |outcomes|
    ensures |trace| == |entries| + 1
    ensures trace[0] == Table(old(m.rows), old(m.nextId)) && trace[|entries|] == Table(m.rows, m.nextId)
    ensures Steps(trace, entries, search, sqlNow, old(m.log.writable), outcomes)
  {
    outcomes := [];
    stats := SyncStats(0, 0, 0, 0);
    trace := [Table(m.rows, m.nextId)];
    for i := 0 to |entries|
      invariant m.Valid() && m.log.writable == old(m.log.writable)
      invariant |outcomes| == i && stats == Tally(outcomes)
      invariant |trace| == i + 1 && trace[0] == Table(old(m.rows), old(m.nextId)) && trace[i] == Table(m.rows, m.nextId)
      invariant Steps(trace, entries, search, sqlNow, old(m.log.writable), outcomes)
    {
      var o;
      o, trace := SyncNext(m, entries, i, search, sqlNow, isoNow, outcomes, trace);
      TallySnoc(outcomes, o);
      outcomes := outcomes + [o];
      stats := Counted(stats, o);
    }
    TallyTotal(outcomes);
  }

  /** Sync the next entry of a run and record the table it leaves. */
  method SyncNext(m: FaqManager, es: seq<Entry>, i: nat, search: Searcher, sqlNow: string, isoNow: string,
                  ghost outcomes: seq<SyncOutcome>, ghost trace: seq<Table>)
    returns (o: SyncOutcome, ghost trace': seq<Table>)
    requires m.Valid() && i == |outcomes| < |es| && Steps(trace, es, search, sqlNow, m.log.writable, outcomes)
    requires trace[|outcomes|] == Table(m.rows, m.nextId)
    modifies m, m.log
    ensures m.Valid() && m.log.writable == old(m.log.writable)
    ensures trace' == trace + [Table(m.rows, m.nextId)] && Steps(trace', es, search, sqlNow, old(m.log.writable), outcomes + [o])
  {
    o := SyncRow(m, es[i], search, sqlNow, isoNow);
    StepsSnoc(trace, es, search, sqlNow, m.log.writable, outcomes, o, Table(m.rows, m.nextId));
    trace' := trace + [Table(m.rows, m.nextId)];
  }

  /** The counters of the sync. */
  datatype SyncStats = SyncStats(updated: nat, created: nat, skipped: nat, errors: nat)

  /** The counter an outcome bumps. */
  function Counted(s: SyncStats, o: SyncOutcome): SyncStats
  {
    match o
    case Inserted(_) => s.(created := s.created + 1)
    case Revised(_) => s.(updated := s.updated + 1)
    case Skipped => s.(skipped := s.skipped + 1)
    case Errored(_) => s.(errors := s.errors + 1)
  }

  /** The counters after a run of outcomes: each outcome counts once. */
  function Tally(outcomes: seq<SyncOutcome>): SyncStats
  {
    if outcomes == [] then SyncStats(0, 0, 0, 0)
    else Counted(Tally(outcomes[..|outcomes| - 1]), outcomes[|outcomes| - 1])
  }

  lemma TallySnoc(outcomes: seq<SyncOutcome>, o: SyncOutcome)
    ensures Tally(outcomes + [o]) == Counted(Tally(outcomes), o)
  {
    assert (outcomes + [o])[..|outcomes|] == outcomes;
  }

  /** Every processed row is counted exactly once. */
  lemma {:induction false} TallyTotal(outcomes: seq<SyncOutcome>)
    ensures var s := Tally(outcomes);
      s.created + s.updated + s.skipped + s.errors == |outcomes|
    ensures Tally(outcomes).skipped == |outcomes| ==> forall i :: 0 <= i < |outcomes| ==> outcomes[i] == Skipped
  {
    if outcomes != [] {
      var init := outcomes[..|outcomes| - 1];
      TallyTotal(init);
      assert forall i :: 0 <= i < |init| ==> init[i] == outcomes[i];
    }
  }

  /** No creation and no update counted means every outcome was a skip or an error. */
  lemma {:induction false} NothingCounted(outcomes: seq<SyncOutcome>)
    requires Tally(outcomes).created == 0 && Tally(outcomes).updated == 0
    ensures forall i :: 0 <= i < |outcomes| ==> outcomes[i].Skipped? || outcomes[i].Errored?
  {
    if outcomes != [] {
      var init := outcomes[..|outcomes| - 1];
      NothingCounted(init);
      assert forall i :: 0 <= i < |init| ==> init[i] == outcomes[i];
    }
  }

  /** How `sync_from_csv` ends. */
  datatype SyncReport = FileMissing | ColumnsMissing | NoValidRows | Synced(stats: SyncStats, outcomes: seq<SyncOutcome>)

  /**
   * `sync_from_csv`: a missing file, a header without question and answer,
   * or a file without a usable row changes nothing; otherwise every entry is
   * synced in file order and counted once.
   */
  method SyncFromCsv(m: FaqManager, file: Option<CsvFile>, search: Searcher, sqlNow: string, isoNow: string)
    returns (r: SyncReport, ghost trace: seq<Table>)
    requires m.Valid()
    requires file.Some? ==> Rectangular(file.value)
    modifies m, m.log
    ensures m.Valid() && m.log.writable == old(m.log.writable)
    ensures file.None? ==> r == FileMissing
    ensures file.Some? && ("question" !in file.value.fieldnames || "answer" !in file.value.fieldnames) ==>
      r == ColumnsMissing
    ensures file.Some? && "question" in file.value.fieldnames && "answer" in file.value.fieldnames ==>
      HasTextColumns(file.value.rows)
      && (Entries(file.value.rows) == [] ==> r == NoValidRows)
      && (Entries(file.value.rows) != [] ==> r.Synced? && |r.outcomes| == |Entries(file.value.rows)|)
    ensures !r.Synced? ==> m.rows == old(m.rows) && m.nextId == old(m.nextId) && m.log.disk == old(m.log.disk)
    ensures r.Synced? ==> r.stats == Tally(r.outcomes)
    ensures r.Synced? ==> r.stats.created + r.stats.updated + r.stats.skipped + r.stats.errors == |r.outcomes|
    ensures r.Synced? ==>
      && file.Some? && HasTextColumns(file.value.rows)
      && |trace| == |r.outcomes| + 1
      && trace[0] == Table(old(m.rows), old(m.nextId)) && trace[|r.outcomes|] == Table(m.rows, m.nextId)
      && |r.outcomes| == |Entries(file.value.rows)|
      && Steps(trace, Entries(file.value.rows), search, sqlNow, old(m.log.writable), r.outcomes)
    ensures r.Synced? && old(m.log.writable) && r.stats.created == 0 && r.stats.updated == 0 ==>
      m.rows == old(m.rows) && m.nextId == old(m.nextId)
  {
    trace := [Table(m.rows, m.nextId)];
    if file.None? {
      return FileMissing, trace;
    }
    var csv := file.value;
    if "question" !in csv.fieldnames || "answer" !in csv.fieldnames {
      return ColumnsMissing, trace;
    }
    var entries := NormalizeRows(csv.rows);
    if entries == [] {
      return NoValidRows, trace;
    }
    var stats, outcomes;
    stats, outcomes, trace := SyncEntries(m, entries, search, sqlNow, isoNow);
    r := Synced(stats, outcomes);
    if m.log.writable && stats.created == 0 && stats.updated == 0 {
      NothingCounted(outcomes);
      UnchangedRun(trace, entries, search, sqlNow, outcomes);
    }
  }
}
