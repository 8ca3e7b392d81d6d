/**
 * The FAQ request models of the HTTP API (models.py): the fields a create or
 * update request carries, their defaults, and the status validator both
 * models run when they are built.
 */
module Models {
  import opened Wrappers

  /** The statuses a request may name, in the order the validator lists them. */
  const Statuses: seq<string> := ["public", "private", "pending"]

  const StatusMessage: string := "status must be \"public\", \"private\", or \"pending\""

  predicate IsStatus(s: string) {
    s == "public" || s == "private" || s == "pending"
  }

  /** `FAQCreateRequest` once built: every field present. */
  datatype CreateRequest = CreateRequest(
    question: string,
    answer: string,
    status: string,
    category: string,
    tags: seq<string>)

  /** `FAQUpdateRequest`: a field left `None` is not to be changed. */
  datatype UpdateRequest = UpdateRequest(
    question: Option<string>,
    answer: Option<string>,
    status: Option<string>,
    category: Option<string>,
    tags: Option<seq<string>>)
  {
    /** True when the request names no field at all. */
    predicate IsEmpty() {
      question.None? && answer.None? && status.None? && category.None? && tags.None?
    }
  }

  /** `FAQCreateRequest.validate_status`. */
  function ValidateStatus(v: string): (r: Result<string>)
    ensures r.Ok? <==> v in Statuses
    ensures r.Ok? ==> r.value == v
    ensures r.Err? ==> r.error == ValueError(StatusMessage)
  {
    if IsStatus(v) then Ok(v) else Err(ValueError(StatusMessage))
  }

  /** `FAQUpdateRequest.validate_status`: an absent status passes. */
  function ValidateOptionalStatus(v: Option<string>): (r: Result<Option<string>>)
    ensures r.Ok? <==> (v.None? || v.value in Statuses)
    ensures r.Ok? ==> r.value == v
    ensures r.Err? ==> r.error == ValueError(StatusMessage)
  {
    match v
    case None => Ok(None)
    case Some(s) => if IsStatus(s) then Ok(v) else Err(ValueError(StatusMessage))
  }

  /**
   * Building a `FAQCreateRequest`: an omitted status, category or tag list takes
   * its default (`"public"`, `"other"`, `[]`), then the status validator runs.
   */
  function NewCreateRequest(
    question: string, answer: string,
    status: Option<string>, category: Option<string>, tags: Option<seq<string>>): (r: Result<CreateRequest>)
    ensures r.Ok? <==> status.GetOr("public") in Statuses
    ensures r.Ok? ==> r.value.question == question && r.value.answer == answer && r.value.status in Statuses
    ensures r.Ok? && status.Some? ==> r.value.status == status.value
    ensures r.Ok? && category.Some? ==> r.value.category == category.value
    ensures r.Ok? && tags.Some? ==> r.value.tags == tags.value
    ensures r.Err? ==> r.error == ValueError(StatusMessage)
  {
    var s :- ValidateStatus(status.GetOr("public"));
    Ok(CreateRequest(question, answer, s, category.GetOr("other"), tags.GetOr([])))
  }

  /** Omitting every optional field gives a public FAQ in category "other" with no tags. */
  lemma CreateDefaults(question: string, answer: string)
    ensures NewCreateRequest(question, answer, None, None, None)
         == Ok(CreateRequest(question, answer, "public", "other", []))
  {
  }

  /** Building a `FAQUpdateRequest`: every field is kept as given; only the status is checked. */
  function NewUpdateRequest(
    question: Option<string>, answer: Option<string>,
    status: Option<string>, category: Option<string>, tags: Option<seq<string>>): (r: Result<UpdateRequest>)
    ensures r.Ok? <==> (status.None? || status.value in Statuses)
    ensures r.Ok? ==> (r.value.question == question && r.value.answer == answer && r.value.status == status
                    && r.value.category == category && r.value.tags == tags)
    ensures r.Err? ==> r.error == ValueError(StatusMessage)
  {
    var s :- ValidateOptionalStatus(status);
    Ok(UpdateRequest(question, answer, s, category, tags))
  }
}
