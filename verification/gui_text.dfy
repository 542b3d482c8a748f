/**
 The text path of the Tk GUI's `_process_pdf_with_groq`: deciding whether the
 PDF has a text layer, turning the model's reply into a record through the
 three-stage ladder (direct parse, candidate scan, textual repair), and adding
 default metadata.
 */
module GuiText {
  import opened Text
  import opened JsonValues
  import opened BraceScan
  import opened Repair

  /** What PyMuPDF yields: a failure to open the file or read a page's text,
      or the text of every page in order. */
  datatype PdfText = Unreadable | Readable(pages: seq<string>)

  /** The document text sent to the model: every page whose text is not blank,
      followed by a blank line, in page order. */
  function PdfContent(pages: seq<string>): string
    decreases |pages|
  {
    if |pages| == 0 then []
    else
      PdfContent(pages[..|pages| - 1]) + PagePiece(pages[|pages| - 1])
  }

  /** The GUI falls back to the image path when the text could not be read or
      the collected content is blank. */
  predicate IsImageBased(pdf: PdfText) {
    pdf.Unreadable? || |Strip(PdfContent(pdf.pages))| == 0
  }

  /** What one page contributes to the content: `text.strip()` is non-empty
      exactly when the text is not blank (see `Strip`). */
  function PagePiece(text: string): string {
    if !Blank(text) then text + "\n\n" else []
  }

  lemma PieceBlankIffPageBlank(text: string)
    ensures Blank(PagePiece(text)) <==> Blank(text)
  {
    if !Blank(text) {
      BlankAppend(text, "\n\n");
    }
  }

  /** Every page's text is whitespace only. */
  predicate AllBlank(pages: seq<string>) {
    forall k :: 0 <= k < |pages| ==> Blank(pages[k])
  }

  /** The collected content is blank exactly when every page's text is blank. */
  lemma {:induction false} ContentBlankIffPagesBlank(pages: seq<string>)
    ensures Blank(PdfContent(pages)) <==> AllBlank(pages)
    decreases |pages|
  {
    if |pages| > 0 {
      var init := pages[..|pages| - 1];
      var text := pages[|pages| - 1];
      ContentBlankIffPagesBlank(init);
      BlankAppend(PdfContent(init), PagePiece(text));
      PieceBlankIffPageBlank(text);
      AllBlankSnoc(pages);
    }
  }

  lemma AllBlankSnoc(pages: seq<string>)
    requires |pages| > 0
    ensures AllBlank(pages) <==> AllBlank(pages[..|pages| - 1]) && Blank(pages[|pages| - 1])
  {
    var init := pages[..|pages| - 1];
    assert forall k :: 0 <= k < |init| ==> init[k] == pages[k];
  }

  /** A PDF goes down the image path iff it cannot be read or every page's
      text is whitespace only (a PDF with no pages included). */
  lemma ImageBasedIff(pdf: PdfText)
    ensures IsImageBased(pdf) <==> pdf.Unreadable? || forall k :: 0 <= k < |pdf.pages| ==> Blank(pdf.pages[k])
  {
    if pdf.Readable? {
      ContentBlankIffPagesBlank(pdf.pages);
    }
  }

  /** The scan loop: candidates are tried in order; the first that parses to a
      dict with `document_type` ends the loop, otherwise `data` keeps the
      value of the last candidate that parsed at all. */
  function ScanSelect(parse: Parser, cands: seq<string>, data: Json): (r: Json)
    ensures FirstDocIndex(parse, cands).Some? ==> r == parse(cands[FirstDocIndex(parse, cands).value]).value
    ensures FirstDocIndex(parse, cands).None? ==>
              || (r == data && forall k :: 0 <= k < |cands| ==> parse(cands[k]).None?)
              || (exists k :: 0 <= k < |cands| && parse(cands[k]) == Some(r) &&
                    forall j :: k < j < |cands| ==> parse(cands[j]).None?)
    decreases |cands|
  {
    if |cands| == 0 then data
    else
      var rest := cands[1..];
      assert forall j :: 0 <= j < |rest| ==> rest[j] == cands[j + 1];
      match parse(cands[0])
      case None => ScanSelect(parse, rest, data)
      case Some(v) => if IsDocObject(v) then v else ScanSelect(parse, rest, v)
  }

  /** Which stage of the ladder produced the record. */
  datatype Stage = Direct | Scanned | Repaired

  /** The ladder's verdict: a record and its stage, or the `ValueError`. */
  datatype TextOutcome = Parsed(value: Json, stage: Stage) | Unparseable

  /** What the scan leaves in `data` for a stripped reply. */
  function AfterScan(parse: Parser, result: string): Json {
    ScanSelect(parse, Candidates(result), JNull)
  }

  /** The repair stage's reparse of the whole stripped reply. */
  function AfterRepair(parse: Parser, result: string): Option<Json> {
    parse(RepairText(result))
  }

  /** The three-stage ladder on the stripped reply. A direct parse is taken as
      is, whatever it is; the later stages must leave a truthy value. */
  function TextLadder(parse: Parser, reply: string): (r: TextOutcome)
    ensures var result := Strip(reply);
              parse(result).Some? ==> r == Parsed(parse(result).value, Direct)
    ensures var result := Strip(reply);
              parse(result).None? && Truthy(AfterScan(parse, result)) ==> r == Parsed(AfterScan(parse, result), Scanned)
    ensures var result := Strip(reply);
              r.Parsed? && r.stage == Repaired ==>
                && parse(result).None?
                && !Truthy(AfterScan(parse, result))
                && AfterRepair(parse, result) == Some(r.value)
    ensures var result := Strip(reply);
              && parse(result).None? && !Truthy(AfterScan(parse, result))
              && AfterRepair(parse, result).Some? && Truthy(AfterRepair(parse, result).value)
              ==> r == Parsed(AfterRepair(parse, result).value, Repaired)
    ensures r.Parsed? && r.stage != Direct ==> Truthy(r.value)
    ensures var result := Strip(reply);
              r.Unparseable? <==>
                && parse(result).None?
                && !Truthy(AfterScan(parse, result))
                && !(AfterRepair(parse, result).Some? && Truthy(AfterRepair(parse, result).value))
  {
    var result := Strip(reply);
    match parse(result)
    case Some(v) => Parsed(v, Direct)
    case None =>
      var data := AfterScan(parse, result);
      if Truthy(data) then Parsed(data, Scanned)
      else match AfterRepair(parse, result)
        case Some(v) => if Truthy(v) then Parsed(v, Repaired) else Unparseable
        case None => Unparseable
  }

  /** A reply that is brace-free prose followed by a document object is
      recovered by the scan, whatever trails the object. */
  lemma LadderFindsEmbeddedObject(parse: Parser, reply: string, prose: string, obj: string, tail: string, doc: Json)
    requires Strip(reply) == prose + obj + tail
    requires parse(prose + obj + tail).None?
    requires NoBraces(prose) && InPattern(obj)
    requires parse(obj) == Some(doc) && IsDocObject(doc)
    ensures TextLadder(parse, reply) == Parsed(doc, Scanned)
  {
    var result := prose + obj + tail;
    ProseThenObject(prose, obj, tail);
    var cands := Candidates(result);
    assert IsDocText(parse, cands[0]);
    assert FirstDocIndex(parse, cands) == Some(0);
  }

  /** A blank reply never yields a record when `json.loads("")` raises.
      A corollary of the contracts of `Strip`, `Candidates` and the repair
      passes; it needs no proof of its own. */
  lemma BlankReplyFails(parse: Parser, reply: string)
    requires Blank(reply)
    requires parse([]).None?
    ensures TextLadder(parse, reply).Unparseable?
  {
  }

  /** The metadata the text path adds: `page_count` is the number of pieces
      `content.split('\f')` gives, and the confidence is fixed at 0.8. */
  function DefaultMetadata(content: string, date: string): (m: Json)
    ensures m.JObj? && m.fields.Keys == {"page_count", "processing_date", "confidence_score"}
    ensures m.fields["page_count"] == JInt(Count(content, '\U{0C}') + 1)
    ensures m.fields["processing_date"] == JStr(date)
    ensures m.fields["confidence_score"] == JFloat(0.8)
  {
    JObj(map[
      "page_count" := JInt(|Split(content, '\U{0C}')|),
      "processing_date" := JStr(date),
      "confidence_score" := JFloat(0.8)])
  }

  /** Pages are joined with blank lines, not form feeds, so the default
      `page_count` is 1 whatever the number of pages, unless some page's own
      text holds a form feed. */
  lemma PageCountWithoutFormFeeds(pages: seq<string>, date: string)
    requires forall k :: 0 <= k < |pages| ==> Count(pages[k], '\U{0C}') == 0
    ensures DefaultMetadata(PdfContent(pages), date).fields["page_count"] == JInt(1)
  {
    var content := PdfContent(pages);
    ContentWithoutFormFeeds(pages);
    MetadataPageCount(content, date);
  }

  lemma MetadataPageCount(content: string, date: string)
    requires Count(content, '\U{0C}') == 0
    ensures DefaultMetadata(content, date).fields["page_count"] == JInt(1)
  {
  }

  lemma {:induction false} ContentWithoutFormFeeds(pages: seq<string>)
    requires forall k :: 0 <= k < |pages| ==> Count(pages[k], '\U{0C}') == 0
    ensures Count(PdfContent(pages), '\U{0C}') == 0
    decreases |pages|
  {
    if |pages| > 0 {
      var init := pages[..|pages| - 1];
      var text := pages[|pages| - 1];
      assert forall k :: 0 <= k < |init| ==> init[k] == pages[k];
      ContentWithoutFormFeeds(init);
      CountAppend(PdfContent(init), PagePiece(text), '\U{0C}');
      PieceWithoutFormFeeds(text);
    }
  }

  lemma PieceWithoutFormFeeds(text: string)
    requires Count(text, '\U{0C}') == 0
    ensures Count(PagePiece(text), '\U{0C}') == 0
  {
    if !Blank(text) {
      CountAppend(text, "\n\n", '\U{0C}');
      assert "\n\n"[1..] == "\n";
      assert "\n"[1..] == "";
    }
  }

  /** `if 'metadata' not in data: data['metadata'] = {...}`. Only a dict can
      take the assignment; a string or list that already "contains"
      `'metadata'` passes through, anything else raises. */
  function AddMetadata(data: Json, content: string, date: string): (r: Option<Json>)
    ensures data.JObj? && "metadata" in data.fields ==> r == Some(data)
    ensures data.JObj? && "metadata" !in data.fields ==>
              && r.Some? && r.value.JObj?
              && r.value.fields.Keys == data.fields.Keys + {"metadata"}
              && r.value.fields["metadata"] == DefaultMetadata(content, date)
              && forall k :: k in data.fields ==> r.value.fields[k] == data.fields[k]
    ensures data.JStr? ==> r == (if IsSubstring("metadata", data.s) then Some(data) else None)
    ensures data.JArr? ==> r == (if JStr("metadata") in data.elems then Some(data) else None)
    ensures !(data.JObj? || data.JStr? || data.JArr?) ==> r.None?
  {
    match Contains(data, "metadata")
    case None => None
    case Some(present) =>
      if present then Some(data)
      else if data.JObj? then Some(JObj(data.fields["metadata" := DefaultMetadata(content, date)]))
      else None
  }

  /** The text branch: model reply (absent when the call raised), ladder, then
      metadata. A reply the ladder cannot parse gives no record at all. */
  function ProcessTextPdf(parse: Parser, content: string, reply: Option<string>, date: string): (r: Option<Json>)
    ensures reply.None? ==> r.None?
    ensures reply.Some? && TextLadder(parse, reply.value).Unparseable? ==> r.None?
    ensures reply.Some? && TextLadder(parse, reply.value).Parsed? ==>
              r == AddMetadata(TextLadder(parse, reply.value).value, content, date)
    ensures r.Some? ==>
              && reply.Some? && TextLadder(parse, reply.value).Parsed?
              && r == AddMetadata(TextLadder(parse, reply.value).value, content, date)
  {
    match reply
    case None => None
    case Some(text) =>
      match TextLadder(parse, text)
      case Unparseable => None
      case Parsed(v, _) => AddMetadata(v, content, date)
  }

  /** A record from the text path that is a dict always carries metadata, and
      apart from it holds exactly the fields the ladder produced. */
  lemma TextRecordHasMetadata(parse: Parser, content: string, reply: Option<string>, date: string)
    requires ProcessTextPdf(parse, content, reply, date).Some?
    requires ProcessTextPdf(parse, content, reply, date).value.JObj?
    ensures var rec := ProcessTextPdf(parse, content, reply, date).value;
            var v := TextLadder(parse, reply.value).value;
              && "metadata" in rec.fields
              && v.JObj?
              && rec.fields - {"metadata"} == v.fields - {"metadata"}
  {
  }
}
