/**
 The GUI's `_process_pdf_with_groq` as a whole (the choice between the text
 and the image path), and how the GUI's text ladder and the Flask helper's
 ladder relate on the same reply.
 */
module Pipelines {
  import opened Text
  import opened JsonValues
  import opened BraceScan
  import opened GuiText
  import opened GuiVision
  import FlaskPages

  /** The GUI's record for a PDF, or `None` when processing raised. The model
      reply for the text path and the per-page outcomes for the image path
      are inputs; only the one the chosen path uses matters. An unreadable PDF,
      or one whose every page is blank, takes the image path; a readable PDF
      with some non-blank page takes the text path. */
  function ProcessPdfWithGroq(parse: Parser, keyOrder: KeyOrder, pdf: PdfText, textReply: Option<string>,
                              pages: seq<VisionPage>, date: string): (r: Option<Json>)
    ensures IsImageBased(pdf) ==> r == VisionMerge(parse, keyOrder, pages, date)
    ensures !IsImageBased(pdf) ==> r == ProcessTextPdf(parse, PdfContent(pdf.pages), textReply, date)
    ensures pdf.Unreadable? || (forall k :: 0 <= k < |pdf.pages| ==> Blank(pdf.pages[k])) ==>
              r == VisionMerge(parse, keyOrder, pages, date)
    ensures pdf.Readable? && (exists k :: 0 <= k < |pdf.pages| && !Blank(pdf.pages[k])) ==>
              r == ProcessTextPdf(parse, PdfContent(pdf.pages), textReply, date)
  {
    ImageBasedIff(pdf);
    if IsImageBased(pdf) then VisionMerge(parse, keyOrder, pages, date)
    else ProcessTextPdf(parse, PdfContent(pdf.pages), textReply, date)
  }

  /** A readable PDF with at least one page that has text never goes down
      the image path: its record, if any, comes from the text ladder, and
      a dict record carries the text path's metadata unless it had its own.
      A corollary of the contract of `ProcessPdfWithGroq`, stated for one
      witnessing page. */
  lemma TextPdfUsesTextPath(parse: Parser, keyOrder: KeyOrder, pdf: PdfText, textReply: Option<string>,
                            pages: seq<VisionPage>, date: string, k: nat)
    requires pdf.Readable? && k < |pdf.pages| && !Blank(pdf.pages[k])
    ensures ProcessPdfWithGroq(parse, keyOrder, pdf, textReply, pages, date) ==
              ProcessTextPdf(parse, PdfContent(pdf.pages), textReply, date)
  {
  }

  /** A PDF whose pages are all blank goes down the image path. A corollary
      of the contract of `ProcessPdfWithGroq`. */
  lemma BlankPdfUsesImagePath(parse: Parser, keyOrder: KeyOrder, pdf: PdfText, textReply: Option<string>,
                              pages: seq<VisionPage>, date: string)
    requires pdf.Readable? && forall k :: 0 <= k < |pdf.pages| ==> Blank(pdf.pages[k])
    ensures ProcessPdfWithGroq(parse, keyOrder, pdf, textReply, pages, date) == VisionMerge(parse, keyOrder, pages, date)
  {
  }

  /** On a reply that parses directly, both ladders return the parsed value.
      A corollary of the contracts of `TextLadder` and `ScoutReply`; it
      needs no proof of its own. */
  lemma LaddersAgreeOnDirectParse(parse: Parser, reply: string)
    requires parse(Strip(reply)).Some?
    ensures TextLadder(parse, reply) == Parsed(FlaskPages.ScoutReply(parse, reply), Direct)
  {
  }

  /** When some scan candidate is a document object, both ladders pick the
      first such candidate. */
  lemma LaddersAgreeOnDocCandidate(parse: Parser, reply: string)
    requires parse(Strip(reply)).None?
    requires FirstDocIndex(parse, Candidates(Strip(reply))).Some?
    ensures TextLadder(parse, reply) == Parsed(FlaskPages.ScoutReply(parse, reply), Scanned)
  {
    var cands := Candidates(Strip(reply));
    var v := parse(cands[FirstDocIndex(parse, cands).value]).value;
    assert Truthy(v);
  }

  /** Otherwise they part: the Flask helper always degrades, while the GUI
      keeps the last candidate that parsed, or repairs, or gives up. */
  lemma LaddersPartOtherwise(parse: Parser, reply: string)
    requires parse(Strip(reply)).None?
    requires FirstDocIndex(parse, Candidates(Strip(reply))).None?
    ensures FlaskPages.ScoutReply(parse, reply) == FlaskPages.Degraded(Strip(reply))
    ensures TextLadder(parse, reply).Parsed? ==> TextLadder(parse, reply).stage != Direct
    ensures TextLadder(parse, reply).Parsed? && TextLadder(parse, reply).stage == Scanned ==>
              !IsDocObject(TextLadder(parse, reply).value)
  {
    NoDocSelected(parse, Candidates(Strip(reply)), JNull);
  }

  /** With no document candidate, the scan loop selects no document object. */
  lemma NoDocSelected(parse: Parser, cands: seq<string>, data: Json)
    requires FirstDocIndex(parse, cands).None? && !IsDocObject(data)
    ensures !IsDocObject(ScanSelect(parse, cands, data))
  {
    var v := ScanSelect(parse, cands, data);
    if v != data {
      var k :| 0 <= k < |cands| && parse(cands[k]) == Some(v) && forall j :: k < j < |cands| ==> parse(cands[j]).None?;
      assert !IsDocText(parse, cands[k]);
    }
  }
}
