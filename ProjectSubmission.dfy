/** The project submission form: files are added through a MIME allow-list,
    removed by id, and submitted together with a description. */
module ProjectSubmission {
  import opened Util

  /** A file the browser hands over. */
  datatype IncomingFile = IncomingFile(name: string, size: nat, mime: string)

  /** A file in the upload list; its id is generated by the page. */
  datatype UploadedFile = UploadedFile(id: string, name: string, size: nat, mime: string, uploadDate: int)

  const XlsmType: string := "application/vnd.ms-excel.sheet.macroEnabled.12"
  const DocxType: string := "application/vnd.openxmlformats-officedocument.wordprocessingml.document"
  const PdfType: string := "application/pdf"

  /** `allowedTypes`: macro-enabled workbooks, Word documents and PDFs. */
  const AllowedTypes: seq<string> := [XlsmType, DocxType, PdfType]

  predicate Allowed(f: IncomingFile)
  {
    f.mime in AllowedTypes
  }

  /** The accepted files, each given the next id and the upload time. */
  function Upload(valid: seq<IncomingFile>, ids: seq<string>, now: int): (r: seq<UploadedFile>)
    requires |ids| >= |valid|
    ensures |r| == |valid|
    ensures forall i :: 0 <= i < |valid| ==>
      r[i] == UploadedFile(ids[i], valid[i].name, valid[i].size, valid[i].mime, now)
  {
    seq(|valid|, i requires 0 <= i < |valid| => UploadedFile(ids[i], valid[i].name, valid[i].size, valid[i].mime, now))
  }

  /** `validFiles`: the allowed files, in order. */
  function ValidFiles(files: seq<IncomingFile>): (r: seq<IncomingFile>)
    ensures IsSubseq(r, files)
    ensures forall i :: 0 <= i < |r| ==> Allowed(r[i]) && r[i] in files
    ensures forall i :: 0 <= i < |files| && Allowed(files[i]) ==> files[i] in r
    ensures forall f :: multiset(r)[f] == if Allowed(f) then multiset(files)[f] else 0
  {
    FilterMultiset(files, Allowed);
    Filter(files, Allowed)
  }

  /** `prev.filter((file) => file.id !== fileId)`. */
  function WithoutId(files: seq<UploadedFile>, id: string): (r: seq<UploadedFile>)
    ensures IsSubseq(r, files)
    ensures forall i :: 0 <= i < |r| ==> r[i].id != id && r[i] in files
    ensures forall i :: 0 <= i < |files| && files[i].id != id ==> files[i] in r
    ensures forall f :: multiset(r)[f] == if f.id != id then multiset(files)[f] else 0
  {
    var keep := (f: UploadedFile) => f.id != id;
    FilterMultiset(files, keep);
    Filter(files, keep)
  }

  datatype FileIcon = SpreadsheetIcon | PdfIcon | DocumentIcon

  /** `getFileIcon`: spreadsheets are recognised before PDFs. */
  function IconFor(mime: string): (icon: FileIcon)
    ensures icon == SpreadsheetIcon <==> Contains(mime, "excel") || Contains(mime, "spreadsheet")
    ensures icon == PdfIcon <==> !Contains(mime, "excel") && !Contains(mime, "spreadsheet") && Contains(mime, "pdf")
  {
    if Contains(mime, "excel") || Contains(mime, "spreadsheet") then SpreadsheetIcon
    else if Contains(mime, "pdf") then PdfIcon
    else DocumentIcon
  }

  /** The macro-enabled workbook gets the spreadsheet icon. */
  lemma WorkbookIcon()
    ensures IconFor(XlsmType) == SpreadsheetIcon
  {
    var x := XlsmType;
    assert x[19] == 'e' && x[20] == 'x' && x[21] == 'c' && x[22] == 'e' && x[23] == 'l';
    assert x[19..24] == "excel";
    assert OccursAt(x, "excel", 19);
  }

  /** The PDF type gets the PDF icon: it names neither Excel nor a
      spreadsheet. */
  lemma PdfTypeIcon()
    ensures IconFor(PdfType) == PdfIcon
  {
    var p := PdfType;
    assert p[12..15] == "pdf";
    assert OccursAt(p, "pdf", 12);
    assert forall i :: 0 <= i < |p| ==> p[i] != 'e' && p[i] != 's';
    MissingFirstChar(p, "excel");
    MissingFirstChar(p, "spreadsheet");
  }

  class SubmissionForm {
    var files: seq<UploadedFile>
    var description: string

    constructor ()
      ensures files == [] && description == ""
    {
      files := [];
      description := "";
    }

    /** `handleFiles`: the allowed files are appended, in order, after the
        list; the others are dropped without a word. `ids` are the fresh ids
        the page draws, one per accepted file. */
    method HandleFiles(incoming: seq<IncomingFile>, ids: seq<string>, now: int)
      requires |ids| >= |ValidFiles(incoming)|
      modifies this`files
      ensures files == old(files) + Upload(ValidFiles(incoming), ids, now)
      ensures |files| >= |old(files)| && files[..|old(files)|] == old(files)
      ensures forall i :: |old(files)| <= i < |files| ==> files[i].mime in AllowedTypes
    {
      var added := Upload(ValidFiles(incoming), ids, now);
      files := files + added;
      assert forall i :: |old(files)| <= i < |files| ==> files[i] == added[i - |old(files)|];
    }

    /** `removeFile`: every entry with that id goes, the others keep their
        order. */
    method RemoveFile(id: string)
      modifies this`files
      ensures files == WithoutId(old(files), id)
    {
      files := WithoutId(files, id);
    }

    method SetDescription(text: string)
      modifies this`description
      ensures description == text
    {
      description := text;
    }

    /** The submit button is disabled while the list is empty. */
    function SubmitDisabled(): bool
      reads this
    {
      |files| == 0
    }

    /** `handleSubmit`: refused, changing nothing, on an empty list;
        otherwise the files and the description are sent and the form is
        cleared. */
    method Submit() returns (sent: Option<(seq<UploadedFile>, string)>)
      modifies this
      ensures sent.None? <==> old(files) == []
      ensures sent.None? ==> files == old(files) && description == old(description)
      ensures sent.Some? ==> sent.value == (old(files), old(description)) && files == [] && description == ""
    {
      if |files| == 0 {
        return None;
      }
      sent := Some((files, description));
      files := [];
      description := "";
    }
  }
}
