/**
 * The message enviar_email builds and hands to the mail relay, as a record:
 * headers, a text part and one binary part per uploaded file.
 */
module Mail {
  import opened Common

  /** The deployment's addresses and credential (read from the secrets store in the source). */
  datatype Config = Config(sender: string, password: string, recipient: string)

  /** dados_prestador: the trimmed name, the chosen service and the formatted phone number. */
  datatype ProviderData = ProviderData(nome: string, servico: string, telefone: string)

  /** The fields the plain-text body reports. */
  datatype Body = Body(nome: string, servico: string, whatsapp: string, timestamp: string, fileCount: nat)

  /** One binary attachment: the uploaded file's name, its MIME type, its Content-Disposition header and its content bytes. */
  datatype Attachment = Attachment(filename: string, contentType: string, disposition: string, payload: seq<byte>)

  datatype Part = TextPart(body: Body) | FilePart(attachment: Attachment)

  /** A composed multipart message, as a value. */
  datatype Email = Email(from: string, to: string, subject: string, parts: seq<Part>)

  /** Every attachment is sent as application/octet-stream. */
  const AttachmentContentType: string := "application/octet-stream"

  const SubjectPrefix: string := "Documentos - "

  /** "Documentos - {nome} ({servico})" */
  function Subject(nome: string, servico: string): string {
    SubjectPrefix + nome + " (" + servico + ")"
  }

  /** The subject carries the name and the service at fixed places and can be read back. */
  lemma SubjectMentions(nome: string, servico: string)
    ensures var s := Subject(nome, servico);
      |s| == |nome| + |servico| + 16 &&
      s[..13] == SubjectPrefix && s[13..13 + |nome|] == nome &&
      s[13 + |nome|..15 + |nome|] == " (" && s[15 + |nome|..|s| - 1] == servico && s[|s| - 1] == ')'
  {
    var s := Subject(nome, servico);
    assert s == SubjectPrefix + nome + " (" + servico + ")";
  }

  const DispositionPrefix: string := "attachment; filename= "

  /** The Content-Disposition header of the attachment for a file of this name. */
  function Disposition(fileName: string): string {
    DispositionPrefix + fileName
  }

  /** Reads the file name back from a Content-Disposition header written by Disposition. */
  function DispositionFileName(header: string): (r: Option<string>)
    ensures r.Some? ==> DispositionPrefix + r.value == header
  {
    if |header| >= |DispositionPrefix| && header[..|DispositionPrefix|] == DispositionPrefix
    then Some(header[|DispositionPrefix|..])
    else None
  }

  /** The attachment built for a file: its name, the fixed type, the header naming it, its bytes. */
  function AttachmentOf(f: UploadedFile): Attachment {
    Attachment(f.name, AttachmentContentType, Disposition(f.name), f.bytes)
  }

  /** The header an attachment carries gives back the uploaded file's name. */
  lemma DispositionRoundTrip(f: UploadedFile)
    ensures DispositionFileName(AttachmentOf(f).disposition) == Some(f.name)
  {
    assert Disposition(f.name)[..|DispositionPrefix|] == DispositionPrefix;
  }

  /** The files that are not None, in upload order. */
  function PresentFiles(arquivos: seq<Option<UploadedFile>>): (fs: seq<UploadedFile>)
    ensures |fs| <= |arquivos|
  {
    if arquivos == [] then []
    else (if arquivos[0].Some? then [arquivos[0].value] else []) + PresentFiles(arquivos[1..])
  }

  lemma {:induction false} PresentFilesAppend(a: seq<Option<UploadedFile>>, b: seq<Option<UploadedFile>>)
    ensures PresentFiles(a + b) == PresentFiles(a) + PresentFiles(b)
  {
    if a == [] {
      assert a + b == b;
    } else {
      assert (a + b)[0] == a[0];
      assert (a + b)[1..] == a[1..] + b;
      PresentFilesAppend(a[1..], b);
    }
  }

  /** A file is attached exactly when it was uploaded, and None entries are skipped. */
  lemma {:induction false} PresentFilesMembers(arquivos: seq<Option<UploadedFile>>, f: UploadedFile)
    ensures f in PresentFiles(arquivos) <==> Some(f) in arquivos
  {
    if arquivos != [] {
      PresentFilesMembers(arquivos[1..], f);
      assert arquivos == [arquivos[0]] + arquivos[1..];
    }
  }

  /** The list main hands over: every uploaded file, none of them None. */
  function Uploads(files: seq<UploadedFile>): seq<Option<UploadedFile>>
  {
    seq(|files|, i requires 0 <= i < |files| => Some(files[i]))
  }

  lemma {:induction false} PresentFilesOfUploads(files: seq<UploadedFile>)
    ensures PresentFiles(Uploads(files)) == files
  {
    if files != [] {
      assert Uploads(files)[1..] == Uploads(files[1..]);
      PresentFilesOfUploads(files[1..]);
    }
  }

  /** The attachment loop: one part per file that is not None. */
  function AttachmentParts(arquivos: seq<Option<UploadedFile>>): seq<Part>
  {
    if arquivos == [] then []
    else
      AttachmentParts(arquivos[..|arquivos| - 1]) +
      (match arquivos[|arquivos| - 1]
       case Some(f) => [FilePart(AttachmentOf(f))]
       case None => [])
  }

  /** The attachment parts are the present files, in order, each with its own name and bytes. */
  lemma {:induction false} AttachmentPartsFollowFiles(arquivos: seq<Option<UploadedFile>>)
    ensures |AttachmentParts(arquivos)| == |PresentFiles(arquivos)|
    ensures forall i :: 0 <= i < |PresentFiles(arquivos)| ==>
              AttachmentParts(arquivos)[i] == FilePart(Attachment(PresentFiles(arquivos)[i].name, AttachmentContentType,
                                                                Disposition(PresentFiles(arquivos)[i].name),
                                                                PresentFiles(arquivos)[i].bytes))
  {
    if arquivos != [] {
      var init := arquivos[..|arquivos| - 1];
      var last := arquivos[|arquivos| - 1];
      AttachmentPartsFollowFiles(init);
      PresentFilesAppend(init, [last]);
      assert init + [last] == arquivos;
      assert PresentFiles([last]) == (if last.Some? then [last.value] else []) by {
        assert [last][1..] == [];
      }
    }
  }

  /** The message enviar_email composes, as a value. */
  function ExpectedMail(cfg: Config, dados: ProviderData, timestamp: string, arquivos: seq<Option<UploadedFile>>): Email
  {
    Email(cfg.sender, cfg.recipient, Subject(dados.nome, dados.servico),
         [TextPart(Body(dados.nome, dados.servico, dados.telefone, timestamp, |arquivos|))] + AttachmentParts(arquivos))
  }

  /** For the list main passes, the message carries one attachment per uploaded file, in order,
      after the text part, and the body's count equals the number of attachments. */
  lemma MailOfUploads(cfg: Config, dados: ProviderData, timestamp: string, files: seq<UploadedFile>)
    ensures var m := ExpectedMail(cfg, dados, timestamp, Uploads(files));
      m.from == cfg.sender && m.to == cfg.recipient &&
      m.subject == Subject(dados.nome, dados.servico) &&
      |m.parts| == |files| + 1 &&
      m.parts[0] == TextPart(Body(dados.nome, dados.servico, dados.telefone, timestamp, |files|)) &&
      forall i :: 0 <= i < |files| ==> m.parts[i + 1] == FilePart(Attachment(files[i].name, AttachmentContentType, Disposition(files[i].name), files[i].bytes))
  {
    var m := ExpectedMail(cfg, dados, timestamp, Uploads(files));
    AttachmentPartsFollowFiles(Uploads(files));
    PresentFilesOfUploads(files);
    assert m.parts == [TextPart(Body(dados.nome, dados.servico, dados.telefone, timestamp, |files|))] + AttachmentParts(Uploads(files));
    forall i | 0 <= i < |files|
      ensures m.parts[i + 1] == FilePart(Attachment(files[i].name, AttachmentContentType, Disposition(files[i].name), files[i].bytes))
    {
      assert m.parts[i + 1] == AttachmentParts(Uploads(files))[i];
    }
  }

  // ---------------------------------------------------------------------------
  // The message object enviar_email fills in

  /** The MIMEMultipart object: headers set by assignment, parts added by attach. */
  class MultipartMessage {
    var from: string
    var to: string
    var subject: string
    var parts: seq<Part>

    constructor ()
      ensures from == "" && to == "" && subject == "" && parts == []
    {
      from, to, subject, parts := "", "", "", [];
    }

    function Value(): Email
      reads this
    {
      Email(from, to, subject, parts)
    }

    /** msg.attach(part): appends one part; the headers stay as they were. */
    method Attach(p: Part)
      modifies this
      ensures parts == old(parts) + [p]
      ensures from == old(from) && to == old(to) && subject == old(subject)
    {
      parts := parts + [p];
    }
  }

  /** Builds the message: headers, the text part, then one part per file that is not None. */
  method Compose(cfg: Config, dados: ProviderData, timestamp: string, arquivos: seq<Option<UploadedFile>>)
    returns (msg: MultipartMessage)
    ensures fresh(msg)
    ensures msg.Value() == ExpectedMail(cfg, dados, timestamp, arquivos)
  {
    msg := new MultipartMessage();
    msg.from := cfg.sender;
    msg.to := cfg.recipient;
    msg.subject := Subject(dados.nome, dados.servico);
    var text := TextPart(Body(dados.nome, dados.servico, dados.telefone, timestamp, |arquivos|));
    msg.Attach(text);
    var i := 0;
    while i < |arquivos|
      invariant 0 <= i <= |arquivos|
      invariant msg.from == cfg.sender && msg.to == cfg.recipient && msg.subject == Subject(dados.nome, dados.servico)
      invariant msg.parts == [text] + AttachmentParts(arquivos[..i])
    {
      assert arquivos[..i + 1][..i] == arquivos[..i];
      var arquivo := arquivos[i];
      if arquivo.Some? {
        msg.Attach(FilePart(AttachmentOf(arquivo.value)));
      }
      i := i + 1;
    }
    assert arquivos[..|arquivos|] == arquivos;
  }

  const SuccessMessage: string := "Email enviado com sucesso!"

  const FailurePrefix: string := "Erro ao enviar email: "

  /**
   * enviar_email: composes the message and hands it to the relay. The outcome of
   * the rest of the try block is a parameter: None when the secrets lookups, the
   * file reads, connecting, securing, logging in, serialising, sending and quitting
   * all return normally, Some(reason) with the text of the first exception otherwise.
   * Also returns the message that was handed over.
   */
  method SendEmail(cfg: Config, dados: ProviderData, timestamp: string, arquivos: seq<Option<UploadedFile>>,
                   relayFailure: Option<string>)
    returns (sucesso: bool, mensagem: string, sent: Email)
    ensures sent == ExpectedMail(cfg, dados, timestamp, arquivos)
    ensures sucesso <==> relayFailure.None?
    ensures sucesso ==> mensagem == SuccessMessage
    ensures !sucesso ==> mensagem == FailurePrefix + relayFailure.value
  {
    var msg := Compose(cfg, dados, timestamp, arquivos);
    sent := msg.Value();
    match relayFailure {
      case None =>
        sucesso, mensagem := true, SuccessMessage;
      case Some(reason) =>
        sucesso, mensagem := false, FailurePrefix + reason;
    }
  }
}
