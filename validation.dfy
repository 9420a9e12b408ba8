/**
 * The submission validator written inline in main: an ordered list of error
 * messages, built check by check, none of which short-circuits another.
 */
module Validation {
  import opened Common

  /** The per-file size limit, 10 MiB; a file of exactly this size is accepted. */
  const MaxFileSize: nat := 10 * 1024 * 1024

  // ---------------------------------------------------------------------------
  // Trimming the name (str.strip without arguments)

  /**
   * The ASCII characters str.strip removes: space, tab, line feed, vertical tab,
   * form feed, carriage return and the four separators U+001C to U+001F
   * (non-ASCII whitespace is not modelled; see README).
   */
  predicate IsSpace(c: char) {
    c == ' ' || '\t' <= c <= '\r' || '\U{001C}' <= c <= '\U{001F}'
  }

  /** s without its leading whitespace. */
  function TrimStart(s: string): (r: string)
    ensures |r| <= |s| && r == s[|s| - |r|..]
    ensures forall i :: 0 <= i < |s| - |r| ==> IsSpace(s[i])
    ensures r == [] || !IsSpace(r[0])
  {
    if s != [] && IsSpace(s[0]) then TrimStart(s[1..]) else s
  }

  /** s without its trailing whitespace. */
  function TrimEnd(s: string): (r: string)
    ensures |r| <= |s| && r == s[..|r|]
    ensures forall i :: |r| <= i < |s| ==> IsSpace(s[i])
    ensures r == [] || !IsSpace(r[|r| - 1])
  {
    if s != [] && IsSpace(s[|s| - 1]) then TrimEnd(s[..|s| - 1]) else s
  }

  /** r is s[a..a + |r|], and everything of s outside that slice is whitespace. */
  predicate StrippedAt(s: string, r: string, a: nat) {
    a + |r| <= |s| && r == s[a..a + |r|] &&
    (forall i :: 0 <= i < a ==> IsSpace(s[i])) &&
    (forall i :: a + |r| <= i < |s| ==> IsSpace(s[i]))
  }

  /** A prefix r of the suffix t == s[a..], where t has only whitespace after r, is stripped at a. */
  lemma StrippedPrefixOfSuffix(s: string, t: string, r: string, a: nat)
    requires a <= |s| && t == s[a..]
    requires (forall i :: 0 <= i < a ==> IsSpace(s[i]))
    requires |r| <= |t| && r == t[..|r|]
    requires forall i :: |r| <= i < |t| ==> IsSpace(t[i])
    ensures StrippedAt(s, r, a)
  {
    assert s[a..][..|r|] == s[a..a + |r|];
    forall i | a + |r| <= i < |s| ensures IsSpace(s[i]) {
      assert s[i] == t[i - a];
    }
  }

  /** Trimming the end after the start removes whitespace only, from both ends. */
  lemma TrimEndOfTrimStart(s: string)
    ensures StrippedAt(s, TrimEnd(TrimStart(s)), |s| - |TrimStart(s)|)
  {
    var t := TrimStart(s);
    StrippedPrefixOfSuffix(s, t, TrimEnd(t), |s| - |t|);
  }

  /**
   * s without leading and trailing whitespace: a slice of s with only whitespace
   * outside it and none at its ends; empty exactly when s is all whitespace.
   */
  function Trim(s: string): (r: string)
    ensures exists a: nat :: StrippedAt(s, r, a)
    ensures r == [] || (!IsSpace(r[0]) && !IsSpace(r[|r| - 1]))
    ensures r == [] <==> forall i :: 0 <= i < |s| ==> IsSpace(s[i])
  {
    var t := TrimStart(s);
    assert t == [] ==> forall i :: 0 <= i < |s| ==> IsSpace(s[i]);
    assert t != [] ==> !IsSpace(s[|s| - |t|]);
    TrimEndOfTrimStart(s);
    TrimEnd(t)
  }

  // ---------------------------------------------------------------------------
  // Errors

  /** One finding of the validator, in the order the checks run. */
  datatype ValidationError =
    | NameRequired
    | ServiceRequired
    | FileRequired
    | FileTooLarge(fileName: string)

  /** The text shown to the user for each finding. */
  function Message(e: ValidationError): string {
    match e
    case NameRequired => "Nome é obrigatório"
    case ServiceRequired => "Tipo de serviço é obrigatório"
    case FileRequired => "Pelo menos um arquivo é obrigatório"
    case FileTooLarge(n) => "Arquivo '" + n + "' excede 10MB"
  }

  /** The texts shown for a list of findings, one per finding, in order. */
  function Messages(es: seq<ValidationError>): seq<string>
  {
    Map(Message, es)
  }

  /** The size message names the offending file: it can be read back from the text. */
  lemma SizeMessageNamesFile(n: string)
    ensures |Message(FileTooLarge(n))| == |n| + 22
    ensures Message(FileTooLarge(n))[9..9 + |n|] == n
  {
  }

  /** Only the size message starts with 'A'. */
  lemma MessageInitial(e: ValidationError)
    ensures |Message(e)| > 0 && (Message(e)[0] == 'A' <==> e.FileTooLarge?)
  {
  }

  /** Different findings are shown as different texts. */
  lemma MessageInjective(a: ValidationError, b: ValidationError)
    requires Message(a) == Message(b)
    ensures a == b
  {
    if a.FileTooLarge? && b.FileTooLarge? {
      SizeMessageNamesFile(a.fileName);
      SizeMessageNamesFile(b.fileName);
    } else if !a.FileTooLarge? && !b.FileTooLarge? {
      assert |Message(a)| == if a.NameRequired? then 18 else if a.ServiceRequired? then 29 else 35;
      assert |Message(b)| == if b.NameRequired? then 18 else if b.ServiceRequired? then 29 else 35;
    } else {
      MessageInitial(a);
      MessageInitial(b);
    }
  }

  /** The list of texts shown determines the list of findings. */
  lemma MessagesInjective(a: seq<ValidationError>, b: seq<ValidationError>)
    requires Messages(a) == Messages(b)
    ensures a == b
  {
    assert |a| == |Messages(a)| == |Messages(b)| == |b|;
    forall i | 0 <= i < |a| ensures a[i] == b[i] {
      assert Messages(a)[i] == Message(a[i]) && Messages(b)[i] == Message(b[i]);
      MessageInjective(a[i], b[i]);
    }
  }

  // ---------------------------------------------------------------------------
  // The checks

  predicate Oversized(f: UploadedFile) {
    f.size > MaxFileSize
  }

  /** The size findings: the loop over the files, one FileTooLarge per oversized file. */
  function OversizeErrors(files: seq<UploadedFile>): seq<ValidationError>
  {
    if files == [] then []
    else
      var last := files[|files| - 1];
      OversizeErrors(files[..|files| - 1]) + (if Oversized(last) then [FileTooLarge(last.name)] else [])
  }

  /** The findings of the three field checks, in their order, given which of them fail. */
  function FieldErrors(nameBlank: bool, serviceMissing: bool, noFiles: bool): seq<ValidationError>
  {
    (if nameBlank then [NameRequired] else [])
    + (if serviceMissing then [ServiceRequired] else [])
    + (if noFiles then [FileRequired] else [])
  }

  /** The findings of the three field checks for one submission. */
  function RequiredFieldErrors(nome: string, servico: string, files: seq<UploadedFile>): seq<ValidationError>
  {
    FieldErrors(Trim(nome) == "", servico == "", files == [])
  }

  /** Every finding for one submission: the field checks, then the size checks. */
  function ValidationErrors(nome: string, servico: string, files: seq<UploadedFile>): seq<ValidationError>
  {
    RequiredFieldErrors(nome, servico, files) + OversizeErrors(files)
  }

  /** Reference description of the size check: the positions of the oversized files, ascending. */
  function OversizedIndices(files: seq<UploadedFile>): (idx: seq<nat>)
    ensures forall k :: 0 <= k < |idx| ==> idx[k] < |files| && Oversized(files[idx[k]])
    ensures forall k, l :: 0 <= k < l < |idx| ==> idx[k] < idx[l]
    ensures forall i :: 0 <= i < |files| && Oversized(files[i]) ==> i in idx
  {
    if files == [] then []
    else
      var init := files[..|files| - 1];
      assert forall i :: 0 <= i < |init| ==> init[i] == files[i];
      OversizedIndices(init) + (if Oversized(files[|files| - 1]) then [|files| - 1] else [])
  }

  /** Exactly one size finding per oversized file, in upload order, naming that file. */
  lemma {:induction false} OversizeErrorsPerFile(files: seq<UploadedFile>)
    ensures |OversizeErrors(files)| == |OversizedIndices(files)|
    ensures forall k :: 0 <= k < |OversizedIndices(files)| ==>
              OversizeErrors(files)[k] == FileTooLarge(files[OversizedIndices(files)[k]].name)
  {
    if files != [] {
      var init := files[..|files| - 1];
      var last := files[|files| - 1];
      OversizeErrorsPerFile(init);
      assert forall i :: 0 <= i < |init| ==> init[i] == files[i];
      assert OversizeErrors(files) == OversizeErrors(init) + (if Oversized(last) then [FileTooLarge(last.name)] else []);
      assert OversizedIndices(files) == OversizedIndices(init) + (if Oversized(last) then [|files| - 1] else []);
    }
  }

  lemma OversizeErrorsAreSizeFindings(files: seq<UploadedFile>)
    ensures forall e :: e in OversizeErrors(files) ==> e.FileTooLarge?
  {
    OversizeErrorsPerFile(files);
    forall e | e in OversizeErrors(files) ensures e.FileTooLarge? {
      var k :| 0 <= k < |OversizeErrors(files)| && OversizeErrors(files)[k] == e;
    }
  }

  /** No size finding exactly when every file is within the limit. */
  lemma NoOversizeErrorsIff(files: seq<UploadedFile>)
    ensures OversizeErrors(files) == [] <==> forall i :: 0 <= i < |files| ==> files[i].size <= MaxFileSize
  {
    OversizeErrorsPerFile(files);
    var idx := OversizedIndices(files);
    if idx != [] {
      assert Oversized(files[idx[0]]);
    }
  }

  /** The acceptance condition, stated directly on the inputs. */
  predicate PassesChecks(nome: string, servico: string, files: seq<UploadedFile>) {
    (exists i :: 0 <= i < |nome| && !IsSpace(nome[i])) && servico != "" && files != [] &&
    forall i :: 0 <= i < |files| ==> files[i].size <= MaxFileSize
  }

  /** The submission is accepted exactly when the name is not blank, a service is chosen,
      at least one file is present and no file exceeds the limit. */
  lemma ValidationAcceptsIff(nome: string, servico: string, files: seq<UploadedFile>)
    ensures ValidationErrors(nome, servico, files) == [] <==> PassesChecks(nome, servico, files)
  {
    NoOversizeErrorsIff(files);
  }

  /** The field findings: each present exactly when its check fails, in check order. */
  lemma FieldErrorsShape(nameBlank: bool, serviceMissing: bool, noFiles: bool)
    ensures var r := FieldErrors(nameBlank, serviceMissing, noFiles);
      (NameRequired in r <==> nameBlank) &&
      (ServiceRequired in r <==> serviceMissing) &&
      (FileRequired in r <==> noFiles) &&
      (forall k :: 0 <= k < |r| ==> Precedence(r[k]) < 3) &&
      (forall k, l :: 0 <= k < l < |r| ==> Precedence(r[k]) < Precedence(r[l]))
  {
    var r := FieldErrors(nameBlank, serviceMissing, noFiles);
    if nameBlank {
      if serviceMissing {
        if noFiles { assert r == [NameRequired, ServiceRequired, FileRequired]; }
        else { assert r == [NameRequired, ServiceRequired]; }
      } else {
        if noFiles { assert r == [NameRequired, FileRequired]; }
        else { assert r == [NameRequired]; }
      }
    } else {
      if serviceMissing {
        if noFiles { assert r == [ServiceRequired, FileRequired]; }
        else { assert r == [ServiceRequired]; }
      } else {
        if noFiles { assert r == [FileRequired]; }
        else { assert r == []; }
      }
    }
  }

  lemma RequiredFieldErrorsShape(nome: string, servico: string, files: seq<UploadedFile>)
    ensures var r := RequiredFieldErrors(nome, servico, files);
      (NameRequired in r <==> Trim(nome) == "") &&
      (ServiceRequired in r <==> servico == "") &&
      (FileRequired in r <==> files == []) &&
      (forall k :: 0 <= k < |r| ==> Precedence(r[k]) < 3) &&
      (forall k, l :: 0 <= k < l < |r| ==> Precedence(r[k]) < Precedence(r[l]))
  {
    var nameBlank := Trim(nome) == "";
    assert RequiredFieldErrors(nome, servico, files) == FieldErrors(nameBlank, servico == "", files == []);
    FieldErrorsShape(nameBlank, servico == "", files == []);
  }

  /** Each field check's finding is present exactly when that check fails, whatever the others find. */
  lemma FieldChecksIndependent(nome: string, servico: string, files: seq<UploadedFile>)
    ensures NameRequired in ValidationErrors(nome, servico, files) <==> (forall i :: 0 <= i < |nome| ==> IsSpace(nome[i]))
    ensures ServiceRequired in ValidationErrors(nome, servico, files) <==> servico == ""
    ensures FileRequired in ValidationErrors(nome, servico, files) <==> files == []
  {
    var r := RequiredFieldErrors(nome, servico, files);
    var o := OversizeErrors(files);
    RequiredFieldErrorsShape(nome, servico, files);
    OversizeErrorsAreSizeFindings(files);
    assert ValidationErrors(nome, servico, files) == r + o;
    assert NameRequired !in o && ServiceRequired !in o && FileRequired !in o;
  }

  lemma {:induction false} OversizeErrorsNameFiles(files: seq<UploadedFile>, n: string)
    ensures FileTooLarge(n) in OversizeErrors(files) <==>
              exists i :: 0 <= i < |files| && Oversized(files[i]) && files[i].name == n
  {
    if files != [] {
      var init := files[..|files| - 1];
      OversizeErrorsNameFiles(init, n);
      assert forall i :: 0 <= i < |init| ==> init[i] == files[i];
      if exists i :: 0 <= i < |files| && Oversized(files[i]) && files[i].name == n {
        var i :| 0 <= i < |files| && Oversized(files[i]) && files[i].name == n;
        if i < |init| {
          assert Oversized(init[i]) && init[i].name == n;
        }
      }
    }
  }

  /** A file name is reported as too large exactly when some uploaded file of that name is over the limit. */
  lemma SizeCheckReportsEveryOversizedFile(nome: string, servico: string, files: seq<UploadedFile>, n: string)
    ensures FileTooLarge(n) in ValidationErrors(nome, servico, files) <==>
              exists i :: 0 <= i < |files| && Oversized(files[i]) && files[i].name == n
  {
    OversizeErrorsNameFiles(files, n);
    var r := RequiredFieldErrors(nome, servico, files);
    assert FileTooLarge(n) !in r;
  }

  /** The rank of a finding's check in the fixed check order. */
  function Precedence(e: ValidationError): nat {
    match e
    case NameRequired => 0
    case ServiceRequired => 1
    case FileRequired => 2
    case FileTooLarge(_) => 3
  }

  /** Findings in check order: a later finding never belongs to an earlier-ranked check. */
  predicate InCheckOrder(e: seq<ValidationError>) {
    forall i, j :: 0 <= i < j < |e| ==>
      Precedence(e[i]) < Precedence(e[j]) || (e[i].FileTooLarge? && e[j].FileTooLarge?)
  }

  lemma ConcatInCheckOrder(r: seq<ValidationError>, o: seq<ValidationError>)
    requires forall k :: 0 <= k < |r| ==> Precedence(r[k]) < 3
    requires forall k, l :: 0 <= k < l < |r| ==> Precedence(r[k]) < Precedence(r[l])
    requires forall x :: x in o ==> x.FileTooLarge?
    ensures InCheckOrder(r + o)
  {
    var e := r + o;
    forall i, j | 0 <= i < j < |e|
      ensures Precedence(e[i]) < Precedence(e[j]) || (e[i].FileTooLarge? && e[j].FileTooLarge?)
    {
      if j < |r| {
        assert e[i] == r[i] && e[j] == r[j];
      } else if i < |r| {
        assert e[i] == r[i];
        assert e[j] == o[j - |r|] && o[j - |r|] in o;
      } else {
        assert e[i] == o[i - |r|] && o[i - |r|] in o;
        assert e[j] == o[j - |r|] && o[j - |r|] in o;
      }
    }
  }

  /** The findings follow the check order: name, service, at least one file, then the sizes. */
  lemma ValidationErrorsOrdered(nome: string, servico: string, files: seq<UploadedFile>)
    ensures InCheckOrder(ValidationErrors(nome, servico, files))
  {
    RequiredFieldErrorsShape(nome, servico, files);
    OversizeErrorsAreSizeFindings(files);
    ConcatInCheckOrder(RequiredFieldErrors(nome, servico, files), OversizeErrors(files));
  }

  /** A file of exactly 10 MiB passes; one byte more is reported, by name. */
  lemma SizeLimitBoundary(name: string, bytes: seq<byte>)
    ensures OversizeErrors([UploadedFile(name, 10485760, bytes)]) == []
    ensures OversizeErrors([UploadedFile(name, 10485761, bytes)]) == [FileTooLarge(name)]
  {
  }

  /** An empty form gets one finding per missing field, in order. */
  lemma EmptyFormFindings()
    ensures Messages(ValidationErrors("", "", [])) ==
              ["Nome é obrigatório", "Tipo de serviço é obrigatório", "Pelo menos um arquivo é obrigatório"]
  {
    var es := ValidationErrors("", "", []);
    assert es == [NameRequired, ServiceRequired, FileRequired] by {
      assert Trim("") == "";
      assert RequiredFieldErrors("", "", []) == FieldErrors(true, true, true);
    }
    assert Messages(es) == [Message(es[0]), Message(es[1]), Message(es[2])];
  }

  // ---------------------------------------------------------------------------
  // The validator as the source runs it

  /** One more pass of the size loop appends at most the finding for that file. */
  lemma OversizeErrorsStep(prefix: seq<ValidationError>, files: seq<UploadedFile>, i: nat)
    requires i < |files|
    ensures prefix + OversizeErrors(files[..i + 1]) ==
              prefix + OversizeErrors(files[..i]) + (if Oversized(files[i]) then [FileTooLarge(files[i].name)] else [])
  {
    assert files[..i + 1][..i] == files[..i];
  }

  /** The three field checks, in order; each failed check appends its message. */
  method CheckFields(nome: string, servico: string, arquivos: seq<UploadedFile>) returns (erros: seq<string>)
    ensures erros == Messages(RequiredFieldErrors(nome, servico, arquivos))
  {
    erros := [];
    ghost var found: seq<ValidationError> := [];
    if Trim(nome) == "" {
      MapSnoc(Message, found, NameRequired);
      erros, found := erros + [Message(NameRequired)], found + [NameRequired];
    }
    if servico == "" {
      MapSnoc(Message, found, ServiceRequired);
      erros, found := erros + [Message(ServiceRequired)], found + [ServiceRequired];
    }
    if arquivos == [] {
      MapSnoc(Message, found, FileRequired);
      erros, found := erros + [Message(FileRequired)], found + [FileRequired];
    }
  }

  /** The size loop: appends one message per file over the limit, in upload order. */
  method CheckSizes(arquivos: seq<UploadedFile>, ghost before: seq<ValidationError>, erros0: seq<string>)
    returns (erros: seq<string>)
    requires erros0 == Messages(before)
    ensures erros == Messages(before + OversizeErrors(arquivos))
  {
    erros := erros0;
    ghost var found := before;
    var i := 0;
    while i < |arquivos|
      invariant 0 <= i <= |arquivos|
      invariant found == before + OversizeErrors(arquivos[..i])
      invariant erros == Messages(found)
    {
      var arquivo := arquivos[i];
      OversizeErrorsStep(before, arquivos, i);
      if arquivo.size > MaxFileSize {
        MapSnoc(Message, found, FileTooLarge(arquivo.name));
        erros, found := erros + [Message(FileTooLarge(arquivo.name))], found + [FileTooLarge(arquivo.name)];
      }
      i := i + 1;
    }
    assert arquivos[..|arquivos|] == arquivos;
  }

  /** The whole validator: the field checks, then the size loop, over one list. */
  method Validate(nome: string, servico: string, arquivos: seq<UploadedFile>) returns (erros: seq<string>)
    ensures erros == Messages(ValidationErrors(nome, servico, arquivos))
  {
    erros := CheckFields(nome, servico, arquivos);
    erros := CheckSizes(arquivos, RequiredFieldErrors(nome, servico, arquivos), erros);
  }
}
