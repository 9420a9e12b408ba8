/**
 * One run of main: the per-session "already sent" flag, the success screen with
 * its reset button, and the form whose submission is validated and mailed.
 */
module Workflow {
  import opened Common
  import opened Phone
  import opened Validation
  import opened Mail

  /** What the user entered in the form. */
  datatype Form = Form(nome: string, servico: string, telefone: Option<string>, arquivos: seq<UploadedFile>)

  /** The button pressed in this run, if any. */
  datatype Event = NoClick | ClickReset | ClickSubmit

  /** What one run of main ends with. */
  datatype Screen =
    | SuccessShown                        // the success box, flag still set
    | ResetRequested                      // reset pressed: flag cleared, page re-run
    | FormShown                           // the empty form, nothing submitted
    | Rejected(errors: seq<string>)       // one error line per message
    | Sent(mail: Email)                    // flag set, page re-run
    | SendFailed(mail: Email, error: string)

  /** The mail data main builds from a valid form. */
  function ProviderDataOf(form: Form): ProviderData {
    ProviderData(Trim(form.nome), form.servico, FormatPhone(form.telefone))
  }

  /**
   * The specification of one run: given whether the session had already sent,
   * the new value of the flag and the screen shown.
   */
  function Transition(submitted: bool, event: Event, form: Form, cfg: Config, timestamp: string,
                      relayFailure: Option<string>): (bool, Screen)
  {
    if submitted then
      if event == ClickReset then (false, ResetRequested) else (true, SuccessShown)
    else if event != ClickSubmit then (false, FormShown)
    else
      var errors := ValidationErrors(form.nome, form.servico, form.arquivos);
      if errors != [] then (false, Rejected(Messages(errors)))
      else
        var mail := ExpectedMail(cfg, ProviderDataOf(form), timestamp, Uploads(form.arquivos));
        match relayFailure
        case None => (true, Sent(mail))
        case Some(reason) => (false, SendFailed(mail, FailurePrefix + reason))
  }

  /** From a session that has not sent, the flag is raised exactly when a submitted form
      passes every check and the relay accepts the message. */
  lemma FlagRaisedOnlyBySuccessfulSend(event: Event, form: Form, cfg: Config, timestamp: string,
                                       relayFailure: Option<string>)
    ensures Transition(false, event, form, cfg, timestamp, relayFailure).0 <==>
              event == ClickSubmit && PassesChecks(form.nome, form.servico, form.arquivos) &&
              relayFailure.None?
  {
    ValidationAcceptsIff(form.nome, form.servico, form.arquivos);
  }

  /** Once sent, the session stays on the success screen until the reset button clears the flag. */
  lemma ResetClearsFlag(event: Event, form: Form, cfg: Config, timestamp: string, relayFailure: Option<string>)
    ensures Transition(true, event, form, cfg, timestamp, relayFailure).0 <==> event != ClickReset
    ensures event == ClickReset ==> Transition(true, event, form, cfg, timestamp, relayFailure).1 == ResetRequested
  {
  }

  /** A rejected form shows every finding, in check order, and is never mailed. */
  lemma RejectionShowsAllFindings(event: Event, form: Form, cfg: Config, timestamp: string,
                                  relayFailure: Option<string>)
    requires event == ClickSubmit && !PassesChecks(form.nome, form.servico, form.arquivos)
    ensures Transition(false, event, form, cfg, timestamp, relayFailure).1.Rejected?
    ensures var es := Transition(false, event, form, cfg, timestamp, relayFailure).1.errors;
      es != [] && es == Messages(ValidationErrors(form.nome, form.servico, form.arquivos))
    ensures !Transition(false, event, form, cfg, timestamp, relayFailure).0
  {
    ValidationAcceptsIff(form.nome, form.servico, form.arquivos);
  }

  /** The message of a successful submission: addressed to the configured recipient, with the
      trimmed name and the service in the subject, and one attachment per uploaded file, in order,
      with that file's name and bytes. */
  lemma SentMailMatchesForm(event: Event, form: Form, cfg: Config, timestamp: string, relayFailure: Option<string>)
    requires Transition(false, event, form, cfg, timestamp, relayFailure).1.Sent?
    ensures var m := Transition(false, event, form, cfg, timestamp, relayFailure).1.mail;
      m.from == cfg.sender && m.to == cfg.recipient &&
      m.subject == Subject(Trim(form.nome), form.servico) &&
      |form.arquivos| > 0 && |m.parts| == |form.arquivos| + 1 &&
      m.parts[0].TextPart? && m.parts[0].body.fileCount == |form.arquivos| &&
      m.parts[0].body.nome == Trim(form.nome) && m.parts[0].body.servico == form.servico &&
      m.parts[0].body.whatsapp == FormatPhone(form.telefone) &&
      forall i :: 0 <= i < |form.arquivos| ==>
        m.parts[i + 1] == FilePart(Attachment(form.arquivos[i].name, AttachmentContentType,
                                     Disposition(form.arquivos[i].name), form.arquivos[i].bytes))
  {
    MailOfUploads(cfg, ProviderDataOf(form), timestamp, form.arquivos);
  }

  /** A failed send leaves the flag down, so the same submission can be made again,
      and it succeeds when the relay then accepts it. */
  lemma FailedSendCanBeRetried(form: Form, cfg: Config, timestamp: string, reason: string)
    requires PassesChecks(form.nome, form.servico, form.arquivos)
    ensures Transition(false, ClickSubmit, form, cfg, timestamp, Some(reason)) ==
              (false, SendFailed(ExpectedMail(cfg, ProviderDataOf(form), timestamp, Uploads(form.arquivos)),
                                 FailurePrefix + reason))
    ensures Transition(false, ClickSubmit, form, cfg, timestamp, None).0
  {
    ValidationAcceptsIff(form.nome, form.servico, form.arquivos);
  }

  /** st.session_state for one browser session. */
  class Session {
    /** The enviado key: None until main first runs. */
    var enviado: Option<bool>

    constructor ()
      ensures enviado == None
    {
      enviado := None;
    }

    predicate Submitted()
      reads this
    {
      enviado == Some(true)
    }

    /** One run of main for this session. */
    method Render(event: Event, form: Form, cfg: Config, timestamp: string, relayFailure: Option<string>)
      returns (screen: Screen)
      modifies this
      ensures enviado == Some(Transition(old(Submitted()), event, form, cfg, timestamp, relayFailure).0)
      ensures screen == Transition(old(Submitted()), event, form, cfg, timestamp, relayFailure).1
    {
      if enviado.None? {
        enviado := Some(false);
      }
      if enviado == Some(true) {
        if event == ClickReset {
          enviado := Some(false);
          screen := ResetRequested;
        } else {
          screen := SuccessShown;
        }
        return;
      }
      assert enviado.Some? && enviado.value != true;
      assert enviado == Some(false);
      if event != ClickSubmit {
        screen := FormShown;
        return;
      }
      var erros := Validate(form.nome, form.servico, form.arquivos);
      if erros != [] {
        screen := Rejected(erros);
        return;
      }
      var dados := ProviderData(Trim(form.nome), form.servico, FormatPhone(form.telefone));
      var sucesso, mensagem, sent := SendEmail(cfg, dados, timestamp, Uploads(form.arquivos), relayFailure);
      if sucesso {
        enviado := Some(true);
        screen := Sent(sent);
      } else {
        screen := SendFailed(sent, mensagem);
      }
    }
  }
}
