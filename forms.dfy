/**
 * The three forms of the page: which submissions are refused, with which
 * error, and which request a submission that passes turns into.
 */
module Forms {
  import opened Wrappers
  import opened Text
  import Email

  /** The errors shown for a submission that is not sent. */
  datatype FieldError = NameRequired | InvalidEmail | IdRequired {
    /** The text the page shows for it. */
    function Message(): string
    {
      match this
      case NameRequired => "Nama wajib diisi."
      case InvalidEmail => "Email tidak valid."
      case IdRequired => "ID wajib diisi."
    }
  }

  /** The requests the page can send to the reminder API. */
  datatype Payload = CreateReminder(name: string, email: string) | CheckStatus(id: string) | CancelReminder(id: string)

  /** The value of the `"action"` key. */
  function ActionTag(p: Payload): string
  {
    match p
    case CreateReminder(_, _) => "create"
    case CheckStatus(_) => "status"
    case CancelReminder(_) => "remove"
  }

  /** The JSON object the page posts for a request. */
  function Fields(p: Payload): (m: map<string, string>)
    ensures "action" in m && m["action"] == ActionTag(p)
    ensures p.CreateReminder? ==> m.Keys == {"action", "name", "email"} && m["name"] == p.name && m["email"] == p.email
    ensures !p.CreateReminder? ==> m.Keys == {"action", "id"} && m["id"] == p.id
  {
    match p
    case CreateReminder(name, email) => map["action" := "create", "name" := name, "email" := email]
    case CheckStatus(id) => map["action" := "status", "id" := id]
    case CancelReminder(id) => map["action" := "remove", "id" := id]
  }

  /** Reads a request back from a posted JSON object (what the API is sent). */
  function FromFields(m: map<string, string>): Option<Payload>
  {
    if "action" !in m then None
    else if m["action"] == "create" && m.Keys == {"action", "name", "email"} then Some(CreateReminder(m["name"], m["email"]))
    else if m["action"] == "status" && m.Keys == {"action", "id"} then Some(CheckStatus(m["id"]))
    else if m["action"] == "remove" && m.Keys == {"action", "id"} then Some(CancelReminder(m["id"]))
    else None
  }

  /** The posted object determines the request, and every object that reads
      back as a request is exactly that request's object. */
  lemma FieldsRoundTrip(p: Payload, m: map<string, string>)
    ensures FromFields(Fields(p)) == Some(p)
    ensures FromFields(m) == Some(p) ==> Fields(p) == m
  {
    var f := Fields(p);
    if FromFields(m) == Some(p) {
      assert f.Keys == m.Keys;
    }
  }

  /** Outcome of the checks run when a form is submitted. */
  datatype Check = Refused(error: FieldError) | Send(payload: Payload)

  /** What a request that passed the checks looks like: stripped, non-empty
      fields and, for create, an e-mail of the expected shape. */
  ghost predicate WellFormed(p: Payload)
  {
    match p
    case CreateReminder(name, email) => name != [] && Stripped(name) && Stripped(email) && Email.Pattern(email)
    case CheckStatus(id) => id != [] && Stripped(id)
    case CancelReminder(id) => id != [] && Stripped(id)
  }

  /** The create form: the name error exactly when the name is blank (it is
      checked first, whatever the e-mail); the e-mail error exactly when the
      name is not blank and the stripped e-mail does not match; otherwise a
      well-formed request with the stripped name and e-mail. */
  function CheckCreate(name: string, email: string): (r: Check)
    ensures r == Refused(NameRequired) <==> AllSpace(name)
    ensures r == Refused(InvalidEmail) <==> !AllSpace(name) && !Email.RegexMatch(Trim(email))
    ensures r.Send? <==> !AllSpace(name) && Email.RegexMatch(Trim(email))
    ensures r.Send? ==> r.payload == CreateReminder(Trim(name), Trim(email)) && WellFormed(r.payload)
  {
    TrimEmptyIff(name);
    if Trim(name) == [] then Refused(NameRequired)
    else if !Email.IsValidEmail(email) then Refused(InvalidEmail)
    else Send(CreateReminder(Trim(name), Trim(email)))
  }

  /** The status form: the id error exactly when the id is blank, otherwise
      a well-formed request with the stripped id. */
  function CheckStatusId(rid: string): (r: Check)
    ensures r.Refused? <==> AllSpace(rid)
    ensures r.Refused? ==> r.error == IdRequired
    ensures r.Send? ==> r.payload == CheckStatus(Trim(rid)) && WellFormed(r.payload)
  {
    TrimEmptyIff(rid);
    if Trim(rid) == [] then Refused(IdRequired) else Send(CheckStatus(Trim(rid)))
  }

  /** The remove form: the same checks as the status form. */
  function CheckRemoveId(rid: string): (r: Check)
    ensures r.Refused? <==> AllSpace(rid)
    ensures r.Refused? ==> r.error == IdRequired
    ensures r.Send? ==> r.payload == CancelReminder(Trim(rid)) && WellFormed(r.payload)
  {
    TrimEmptyIff(rid);
    if Trim(rid) == [] then Refused(IdRequired) else Send(CancelReminder(Trim(rid)))
  }

  /** Submitting the fields of a well-formed create request sends that same
      request: the checks refuse nothing they could have produced. */
  lemma CreateResubmits(name: string, email: string)
    requires WellFormed(CreateReminder(name, email))
    ensures CheckCreate(name, email) == Send(CreateReminder(name, email))
  {
    TrimOfStripped(name);
    TrimOfStripped(email);
  }

  /** The same for the two id forms. */
  lemma IdResubmits(id: string)
    requires WellFormed(CheckStatus(id))
    ensures CheckStatusId(id) == Send(CheckStatus(id))
    ensures CheckRemoveId(id) == Send(CancelReminder(id))
  {
    TrimOfStripped(id);
  }
}
