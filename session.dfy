/**
 * The page's view state and what one interaction does.
 *
 * Streamlit re-runs the whole page script for every interaction; here each
 * interaction is one `Event` and one call of `Session.Rerun`, which runs the
 * script from the top: it initialises the mode if absent, then handles the
 * event in the view that the mode selects.
 */
module Session {
  import opened Wrappers
  import opened Text
  import opened Forms
  import opened Gateway

  /** The value of `st.session_state.mode`. */
  datatype Mode = Home | Create | Status | Remove

  /** One interaction with the page. A button or form belongs to one view;
      an event for a widget that the current view does not show does nothing. */
  datatype Event =
    | Idle                                    // a re-run without a widget event
    | ChooseCreate                            // "Set Reminder" on home
    | ChooseStatus                            // "Cek Status (ID)" on home
    | ChooseRemove                            // "Hapus (ID)" on home
    | Back                                    // "Kembali" on the three form views
    | SubmitCreate(name: string, email: string)
    | SubmitStatus(rid: string)
    | SubmitRemove(rid: string)

  predicate IsSubmission(e: Event)
  {
    e.SubmitCreate? || e.SubmitStatus? || e.SubmitRemove?
  }

  /** What the page reports after a submission. */
  datatype Feedback = NoFeedback | Invalid(error: FieldError) | Answer(reply: Reply)

  /** The mode after the start-up lines: home if there was none, else unchanged. */
  function InitialMode(stored: Option<Mode>): (m: Mode)
    ensures stored.None? ==> m == Home
    ensures stored.Some? ==> m == stored.value
  {
    stored.GetOr(Home)
  }

  /** The mode after one event, starting from mode `m`. */
  function NextMode(m: Mode, e: Event): Mode
  {
    if m == Home then
      if e == ChooseCreate then Create
      else if e == ChooseStatus then Status
      else if e == ChooseRemove then Remove
      else Home
    else if e == Back then Home
    else m
  }

  /** The checks of the form that the event submits, if the current view shows that form. */
  function FormCheck(m: Mode, e: Event): Option<Check>
  {
    if m == Create && e.SubmitCreate? then Some(CheckCreate(e.name, e.email))
    else if m == Status && e.SubmitStatus? then Some(CheckStatusId(e.rid))
    else if m == Remove && e.SubmitRemove? then Some(CheckRemoveId(e.rid))
    else None
  }

  /** What one event shows and sends in mode `m`, with endpoint `apiBase`. */
  function React(m: Mode, e: Event, apiBase: string, network: Transport): (Feedback, Option<Request>)
  {
    match FormCheck(m, e)
    case None => (NoFeedback, None)
    case Some(Refused(err)) => (Invalid(err), None)
    case Some(Send(p)) =>
      var call := ApiPost(apiBase, Fields(p), network);
      (Answer(call.reply), call.sent)
  }

  /** The per-user session state; `mode` is `None` while the key is absent. */
  class Session {
    var mode: Option<Mode>

    /** A new session: nothing stored yet. */
    constructor ()
      ensures mode == None
    {
      mode := None;
    }

    /** `if "mode" not in st.session_state: st.session_state.mode = "home"` */
    method InitMode()
      modifies this
      ensures mode == Some(InitialMode(old(mode)))
    {
      if mode.None? {
        mode := Some(Home);
      }
    }

    /** `reset_to_home()` */
    method ResetToHome()
      modifies this
      ensures mode == Some(Home)
    {
      mode := Some(Home);
    }

    /** One run of the page script for event `e`. */
    method Rerun(e: Event, apiBase: string, network: Transport) returns (shown: Feedback, sent: Option<Request>)
      modifies this
      ensures mode == Some(NextMode(InitialMode(old(mode)), e))
      ensures (shown, sent) == React(InitialMode(old(mode)), e, apiBase, network)
    {
      InitMode();
      ghost var start := mode.value;
      assert start == InitialMode(old(mode));
      shown, sent := NoFeedback, None;
      var check: Check;
      match mode.value {
        case Home =>
          if e == ChooseCreate {
            mode := Some(Create);
          } else if e == ChooseStatus {
            mode := Some(Status);
          } else if e == ChooseRemove {
            mode := Some(Remove);
          }
          return;
        case Create =>
          if e == Back {
            ResetToHome();
          }
          if !e.SubmitCreate? {
            return;
          }
          check := CheckCreate(e.name, e.email);
          assert FormCheck(Create, e) == Some(check);
        case Status =>
          if e == Back {
            ResetToHome();
          }
          if !e.SubmitStatus? {
            return;
          }
          check := CheckStatusId(e.rid);
          assert FormCheck(Status, e) == Some(check);
        case Remove =>
          if e == Back {
            ResetToHome();
          }
          if !e.SubmitRemove? {
            return;
          }
          check := CheckRemoveId(e.rid);
          assert FormCheck(Remove, e) == Some(check);
      }
      if check.Refused? {
        shown := Invalid(check.error);
      } else {
        var call := ApiPost(apiBase, Fields(check.payload), network);
        shown, sent := Answer(call.reply), call.sent;
      }
    }
  }

  // -----------------------------------------------------------------------
  // Properties of the mode machine

  /** The home buttons lead to exactly their views. */
  lemma HomeButtons()
    ensures NextMode(Home, ChooseCreate) == Create
    ensures NextMode(Home, ChooseStatus) == Status
    ensures NextMode(Home, ChooseRemove) == Remove
  {
  }

  /** Back always ends on home, and a second back changes nothing. */
  lemma BackIsReset(m: Mode)
    ensures NextMode(m, Back) == Home
    ensures NextMode(NextMode(m, Back), Back) == NextMode(m, Back)
  {
  }

  /** The only changes of mode: a home button from home, or back to home. */
  lemma OnlyTransitions(m: Mode, e: Event)
    ensures NextMode(m, e) != m ==>
      (m == Home && (e == ChooseCreate || e == ChooseStatus || e == ChooseRemove)) ||
      (m != Home && e == Back && NextMode(m, e) == Home)
  {
  }

  /** A submission, accepted or refused, never changes the mode. */
  lemma SubmissionKeepsMode(m: Mode, e: Event)
    requires IsSubmission(e)
    ensures NextMode(m, e) == m
  {
  }

  // -----------------------------------------------------------------------
  // Properties of a reaction

  /** A request goes out only for a submission of the form the current view
      shows, once its checks pass and an endpoint is configured; it is the
      checked request, posted to that endpoint. */
  lemma RequestOnlyWhenValid(m: Mode, e: Event, apiBase: string, network: Transport)
    requires React(m, e, apiBase, network).1.Some?
    ensures apiBase != [] && IsSubmission(e)
    ensures FormCheck(m, e).Some? && FormCheck(m, e).value.Send?
    ensures React(m, e, apiBase, network).1 == Some(Request(apiBase, Fields(FormCheck(m, e).value.payload)))
  {
  }

  /** A create request carries the action tag and the stripped name and
      e-mail, and only goes out for a non-blank name and a matching e-mail. */
  lemma CreateRequestBody(name: string, email: string, apiBase: string, network: Transport)
    ensures React(Create, SubmitCreate(name, email), apiBase, network).1.Some? ==>
      !AllSpace(name) && Email.RegexMatch(Trim(email)) &&
      React(Create, SubmitCreate(name, email), apiBase, network).1.value.body ==
        map["action" := "create", "name" := Trim(name), "email" := Trim(email)]
  {
  }

  /** A status or remove request carries its action tag and the stripped id,
      and only goes out for a non-blank id. */
  lemma IdRequestBody(rid: string, apiBase: string, network: Transport)
    requires apiBase != [] && !AllSpace(rid)
    ensures React(Status, SubmitStatus(rid), apiBase, network).1 ==
      Some(Request(apiBase, map["action" := "status", "id" := Trim(rid)]))
    ensures React(Remove, SubmitRemove(rid), apiBase, network).1 ==
      Some(Request(apiBase, map["action" := "remove", "id" := Trim(rid)]))
  {
  }

  /** A create submission with a blank name shows the name error and sends
      nothing, whatever the e-mail. */
  lemma BlankNameNoRequest(name: string, email: string, apiBase: string, network: Transport)
    requires AllSpace(name)
    ensures React(Create, SubmitCreate(name, email), apiBase, network) == (Invalid(NameRequired), None)
  {
  }

  /** A status or remove submission with a blank id shows the id error and sends nothing. */
  lemma BlankIdNoRequest(rid: string, apiBase: string, network: Transport)
    requires AllSpace(rid)
    ensures React(Status, SubmitStatus(rid), apiBase, network) == (Invalid(IdRequired), None)
    ensures React(Remove, SubmitRemove(rid), apiBase, network) == (Invalid(IdRequired), None)
  {
  }

  /** A valid submission with an endpoint sends exactly one request and shows
      the classified reply. */
  lemma ValidSubmissionAnswered(m: Mode, e: Event, apiBase: string, network: Transport)
    requires FormCheck(m, e).Some? && FormCheck(m, e).value.Send? && apiBase != []
    ensures React(m, e, apiBase, network) ==
      (Answer(Classify(network)), Some(Request(apiBase, Fields(FormCheck(m, e).value.payload))))
  {
  }

  /** Button presses and idle re-runs show nothing and send nothing. */
  lemma NavigationSendsNothing(m: Mode, e: Event, apiBase: string, network: Transport)
    requires !IsSubmission(e)
    ensures React(m, e, apiBase, network) == (NoFeedback, None)
  {
  }
}
