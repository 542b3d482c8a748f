/**
 The Flask service's `PDFProcessor`: the per-page parse ladder of
 `_process_image_with_llama_scout` (direct parse, first document candidate,
 degraded record) and the page collection of `process_pdf`.
 */
module FlaskPages {
  import opened Text
  import opened JsonValues
  import opened BraceScan

  /** What happened to one page before its reply could be parsed: rendering
      the page raised, there was no client (the helper raises), the model call
      raised (the helper returns `None`), or the model replied with `content`. */
  datatype PageAttempt = RenderFailed | NoClient | CallFailed | Replied(content: string)

  /** The record returned when no stage parsed: the stripped reply under
      `raw_output`, with a placeholder page number the caller overwrites. */
  function Degraded(result: string): (r: Json)
    ensures r.JObj? && r.fields.Keys == {"page_number", "raw_output"}
    ensures r.fields["raw_output"] == JStr(result) && r.fields["page_number"] == JInt(1)
  {
    JObj(map["page_number" := JInt(1), "raw_output" := JStr(result)])
  }

  /** The scout helper's parse of a reply. It never raises: the direct parse
      is returned as is, else the first scan candidate that is a dict with
      `document_type`, else the degraded record. */
  function ScoutReply(parse: Parser, content: string): (r: Json)
    ensures var result := Strip(content);
              parse(result).Some? ==> r == parse(result).value
    ensures var result := Strip(content); var cands := Candidates(result);
              parse(result).None? ==>
                || (&& IsDocObject(r)
                    && exists k :: 0 <= k < |cands| && parse(cands[k]) == Some(r) &&
                         forall j :: 0 <= j < k ==> !IsDocText(parse, cands[j]))
                || (&& r == Degraded(result)
                    && forall k :: 0 <= k < |cands| ==> !IsDocText(parse, cands[k]))
  {
    var result := Strip(content);
    match parse(result)
    case Some(v) => v
    case None =>
      var cands := Candidates(result);
      match FirstDocIndex(parse, cands)
      case Some(k) => parse(cands[k]).value
      case None => Degraded(result)
  }

  /** A reply of brace-free prose followed by a document object yields that
      object, whatever trails it. */
  lemma ScoutFindsEmbeddedObject(parse: Parser, content: string, prose: string, obj: string, tail: string, doc: Json)
    requires Strip(content) == prose + obj + tail
    requires parse(prose + obj + tail).None?
    requires NoBraces(prose) && InPattern(obj)
    requires parse(obj) == Some(doc) && IsDocObject(doc)
    ensures ScoutReply(parse, content) == doc
  {
    ProseThenObject(prose, obj, tail);
    var cands := Candidates(prose + obj + tail);
    assert IsDocText(parse, cands[0]);
    assert FirstDocIndex(parse, cands) == Some(0);
  }

  /** A reply with no braces at all that does not parse degrades. A
      corollary of the contracts of `Candidates` and `ScoutReply`; it needs
      no proof of its own. */
  lemma ScoutDegradesProse(parse: Parser, content: string)
    requires parse(Strip(content)).None?
    requires NoBraces(Strip(content))
    ensures ScoutReply(parse, content) == Degraded(Strip(content))
  {
  }

  /** The page number a collected record carries (0 when it has none). */
  function PageNumber(j: Json): int {
    if HasKey(j, "page_number") && j.fields["page_number"].JInt? then j.fields["page_number"].i else 0
  }

  /** What the scout helper hands back for one page: `None` when rendering
      failed, there was no client, or the model call failed (the helper then
      returns Python's `None` or raises); otherwise the helper's value for the
      reply. A reply that parses to JSON `null` gives `Some(JNull)`, which
      `KeptPage` drops. */
  function ScoutOutcome(parse: Parser, attempt: PageAttempt): (r: Option<Json>)
    ensures r.Some? <==> attempt.Replied?
    ensures r.Some? ==> r.value == ScoutReply(parse, attempt.content)
  {
    match attempt
    case Replied(content) => Some(ScoutReply(parse, content))
    case _ => None
  }

  /** The record kept for page `idx`, if any: only a non-empty dict survives
      `if page_data:` and the item assignment of `page_number = idx + 1`. */
  function KeptPage(idx: nat, outcome: Option<Json>): (r: Option<Json>)
    ensures r.Some? <==> outcome.Some? && outcome.value.JObj? && Truthy(outcome.value)
    ensures r.Some? ==> r.value == JObj(outcome.value.fields["page_number" := JInt(idx + 1)])
    ensures r.Some? ==> PageNumber(r.value) == idx + 1
  {
    match outcome
    case Some(data) =>
      if Truthy(data) && data.JObj? then Some(JObj(data.fields["page_number" := JInt(idx + 1)])) else None
    case None => None
  }

  /** Every record is the kept record of the page its number names. */
  predicate RecordsKept(outcomes: seq<Option<Json>>, r: seq<Json>) {
    forall k :: 0 <= k < |r| ==>
      && 1 <= PageNumber(r[k]) <= |outcomes|
      && KeptPage(PageNumber(r[k]) - 1, outcomes[PageNumber(r[k]) - 1]) == Some(r[k])
  }

  /** Page numbers strictly increase along the list. */
  predicate NumbersIncrease(r: seq<Json>) {
    forall i, j :: 0 <= i < j < |r| ==> PageNumber(r[i]) < PageNumber(r[j])
  }

  /** The records of the pages `0 .. |outcomes|-1`, in page order. */
  function Collect(outcomes: seq<Option<Json>>): (r: seq<Json>)
    ensures |r| <= |outcomes|
    ensures RecordsKept(outcomes, r)
    ensures NumbersIncrease(r)
    decreases |outcomes|
  {
    if |outcomes| == 0 then []
    else
      var n := |outcomes| - 1;
      var prev := Collect(outcomes[..n]);
      KeptExtends(outcomes, prev);
      match KeptPage(n, outcomes[n])
      case Some(p) => CollectSnoc(outcomes, prev, p); prev + [p]
      case None => prev
  }

  /** Records kept for a prefix of the pages stay valid for all the pages. */
  lemma KeptExtends(outcomes: seq<Option<Json>>, prev: seq<Json>)
    requires |outcomes| > 0
    requires RecordsKept(outcomes[..|outcomes| - 1], prev)
    ensures RecordsKept(outcomes, prev)
    ensures forall k :: 0 <= k < |prev| ==> PageNumber(prev[k]) < |outcomes|
  {
    var init := outcomes[..|outcomes| - 1];
    forall k | 0 <= k < |prev|
      ensures 1 <= PageNumber(prev[k]) < |outcomes|
      ensures KeptPage(PageNumber(prev[k]) - 1, outcomes[PageNumber(prev[k]) - 1]) == Some(prev[k])
    {
      var m := PageNumber(prev[k]) - 1;
      assert init[m] == outcomes[m];
    }
  }

  /** Appending the last page's record keeps both invariants. */
  lemma CollectSnoc(outcomes: seq<Option<Json>>, prev: seq<Json>, p: Json)
    requires |outcomes| > 0
    requires RecordsKept(outcomes, prev) && NumbersIncrease(prev)
    requires forall k :: 0 <= k < |prev| ==> PageNumber(prev[k]) < |outcomes|
    requires KeptPage(|outcomes| - 1, outcomes[|outcomes| - 1]) == Some(p)
    ensures RecordsKept(outcomes, prev + [p])
    ensures NumbersIncrease(prev + [p])
  {
    var r := prev + [p];
    assert forall k :: 0 <= k < |prev| ==> r[k] == prev[k];
    assert r[|prev|] == p;
  }

  /** A page whose record is kept is collected (the converse is part of
      `Collect`'s contract). */
  lemma {:induction false} KeptIsCollected(outcomes: seq<Option<Json>>, idx: nat)
    requires idx < |outcomes| && KeptPage(idx, outcomes[idx]).Some?
    ensures KeptPage(idx, outcomes[idx]).value in Collect(outcomes)
    decreases |outcomes|
  {
    var n := |outcomes| - 1;
    var init := outcomes[..n];
    var prev := Collect(init);
    if idx < n {
      assert init[idx] == outcomes[idx];
      KeptIsCollected(init, idx);
    }
  }

  /** The helper's results for every page, in page order. */
  function Outcomes(parse: Parser, attempts: seq<PageAttempt>): (r: seq<Option<Json>>)
    ensures |r| == |attempts|
    ensures forall k :: 0 <= k < |attempts| ==> r[k] == ScoutOutcome(parse, attempts[k])
  {
    seq(|attempts|, k requires 0 <= k < |attempts| => ScoutOutcome(parse, attempts[k]))
  }

  /** The service's record for a PDF that could be opened (`None` when
      opening it raised): the kept pages and the page counts. */
  function ProcessPdf(parse: Parser, pdf: Option<seq<PageAttempt>>, date: string): (r: Option<Json>)
    ensures r.Some? <==> pdf.Some?
    ensures r.Some? ==>
              && r.value.JObj?
              && r.value.fields.Keys == {"pages", "metadata"}
              && r.value.fields["pages"] == JArr(Collect(Outcomes(parse, pdf.value)))
              && var meta := r.value.fields["metadata"];
                   && meta.JObj?
                   && meta.fields.Keys == {"total_pages", "processed_pages", "processing_date"}
                   && meta.fields["total_pages"] == JInt(|pdf.value|)
                   && meta.fields["processed_pages"] == JInt(|Collect(Outcomes(parse, pdf.value))|)
                   && meta.fields["processing_date"] == JStr(date)
  {
    match pdf
    case None => None
    case Some(attempts) =>
      var pages := Collect(Outcomes(parse, attempts));
      Some(JObj(map[
        "pages" := JArr(pages),
        "metadata" := JObj(map[
          "total_pages" := JInt(|attempts|),
          "processed_pages" := JInt(|pages|),
          "processing_date" := JStr(date)])]))
  }

  /** No more pages are processed than the PDF has. */
  lemma ProcessedAtMostTotal(parse: Parser, attempts: seq<PageAttempt>, date: string)
    ensures var meta := ProcessPdf(parse, Some(attempts), date).value.fields["metadata"];
              meta.fields["processed_pages"].i <= meta.fields["total_pages"].i
  {
  }

  /** A page whose reply cannot be parsed still counts as processed: its
      degraded record, renumbered, is among the pages. */
  lemma DegradedPageIsCounted(parse: Parser, attempts: seq<PageAttempt>, idx: nat)
    requires idx < |attempts| && attempts[idx].Replied?
    requires ScoutReply(parse, attempts[idx].content) == Degraded(Strip(attempts[idx].content))
    ensures JObj(map["page_number" := JInt(idx + 1), "raw_output" := JStr(Strip(attempts[idx].content))])
              in Collect(Outcomes(parse, attempts))
  {
    var outcomes := Outcomes(parse, attempts);
    var result := Strip(attempts[idx].content);
    assert outcomes[idx] == Some(Degraded(result));
    DegradedIsKept(idx, result);
    KeptIsCollected(outcomes, idx);
  }

  lemma DegradedIsKept(idx: nat, result: string)
    ensures KeptPage(idx, Some(Degraded(result))) ==
              Some(JObj(map["page_number" := JInt(idx + 1), "raw_output" := JStr(result)]))
  {
    var d := Degraded(result);
    assert Truthy(d);
    assert d.fields["page_number" := JInt(idx + 1)] == map["page_number" := JInt(idx + 1), "raw_output" := JStr(result)];
  }
}
