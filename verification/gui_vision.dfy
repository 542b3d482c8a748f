/**
 The image path of the Tk GUI's `_process_pdf_with_groq`: one model call per
 rendered page, a direct-or-greedy-span parse of each reply, and the merge of
 the pages into one record (document fields from the first page, items from
 every page, fixed metadata).
 */
module GuiVision {
  import opened Text
  import opened JsonValues
  import opened BraceScan

  /** What happened to one rendered page before parsing: the page was skipped
      before any parse (the image could not be base64-encoded, or the reply's
      content was `None`, on which `json.loads` raises a TypeError that the
      page's handler catches), the OCR or the model call raised (the whole
      document fails), or the model replied with `content`. */
  datatype VisionPage = Skipped | CallFailed | Replied(content: string)

  /** The order in which iterating a dict yields its keys (its insertion
      order in Python), which the model's maps do not keep. */
  type KeyOrder = map<string, Json> -> seq<string>

  /** `ks` is an iteration order of `m`: every key of `m` exactly once and
      nothing else. The model's `KeyOrder` is meant to give one for every dict. */
  predicate ListsKeys(ks: seq<string>, m: map<string, Json>) {
    && (forall i, j :: 0 <= i < j < |ks| ==> ks[i] != ks[j])
    && (forall key :: key in m ==> key in ks)
    && (forall k :: 0 <= k < |ks| ==> ks[k] in m)
  }

  /** Position of the first occurrence of `c`. */
  function FirstIndexOf(s: string, c: char): (r: Option<nat>)
    ensures r.Some? ==> r.value < |s| && s[r.value] == c && forall k :: 0 <= k < r.value ==> s[k] != c
    ensures r.None? ==> forall k :: 0 <= k < |s| ==> s[k] != c
    decreases |s|
  {
    if |s| == 0 then None
    else if s[0] == c then Some(0)
    else match FirstIndexOf(s[1..], c)
      case None => None
      case Some(k) => Some(k + 1)
  }

  /** Position of the last occurrence of `c`. */
  function LastIndexOf(s: string, c: char): (r: Option<nat>)
    ensures r.Some? ==> r.value < |s| && s[r.value] == c && forall k :: r.value < k < |s| ==> s[k] != c
    ensures r.None? ==> forall k :: 0 <= k < |s| ==> s[k] != c
    decreases |s|
  {
    if |s| == 0 then None
    else if s[|s| - 1] == c then Some(|s| - 1)
    else LastIndexOf(s[..|s| - 1], c)
  }

  /** The match of `({[\s\S]*})` that `re.search` finds: from the leftmost
      `{` that has a `}` after it to the last `}` of the reply. */
  function GreedySpan(s: string): (r: Option<Span>)
    ensures r.Some? ==>
              && r.value.lo < r.value.hi <= |s|
              && s[r.value.lo] == '{' && s[r.value.hi - 1] == '}'
              && (forall k :: 0 <= k < r.value.lo ==> s[k] != '{')
              && (forall k :: r.value.hi <= k < |s| ==> s[k] != '}')
    ensures r.None? <==> forall i, j :: 0 <= i < j < |s| && s[i] == '{' ==> s[j] != '}'
  {
    match (FirstIndexOf(s, '{'), LastIndexOf(s, '}'))
    case (Some(i), Some(j)) => if i < j then Some(Span(i, j + 1)) else None
    case _ => None
  }

  /** The reply's record: `json.loads` of the whole reply, else of the greedy
      span; `None` when both fail and the page is skipped. */
  function PageData(parse: Parser, content: string): (r: Option<Json>)
    ensures parse(content).Some? ==> r == parse(content)
    ensures parse(content).None? && r.Some? ==>
              && GreedySpan(content).Some?
              && r == parse(content[GreedySpan(content).value.lo..GreedySpan(content).value.hi])
    ensures parse(content).None? && GreedySpan(content).None? ==> r.None?
    ensures parse(content).None? && GreedySpan(content).Some? ==>
              r == parse(content[GreedySpan(content).value.lo..GreedySpan(content).value.hi])
  {
    match parse(content)
    case Some(v) => Some(v)
    case None =>
      match GreedySpan(content)
      case None => None
      case Some(sp) => parse(content[sp.lo..sp.hi])
  }

  /** A reply that wraps one `{...}` text in brace-free prose is parsed from
      exactly that text. */
  lemma PageDataUnwrapsProse(parse: Parser, before: string, body: string, after: string)
    requires parse(before + body + after).None?
    requires |body| >= 2 && body[0] == '{' && body[|body| - 1] == '}'
    requires forall k :: 0 <= k < |before| ==> before[k] != '{'
    requires forall k :: 0 <= k < |after| ==> after[k] != '}'
    ensures PageData(parse, before + body + after) == parse(body)
  {
    var s := before + body + after;
    var lo := |before|;
    var hi := |before| + |body|;
    assert s[lo] == '{' && s[hi - 1] == '}';
    assert forall k :: 0 <= k < lo ==> s[k] == before[k];
    assert forall k :: hi <= k < |s| ==> s[k] == after[k - hi];
    assert FirstIndexOf(s, '{') == Some(lo);
    assert LastIndexOf(s, '}') == Some(hi - 1);
    assert s[lo..hi] == body;
  }

  /** The document-level fields the first page contributes: everything but
      `items` and `metadata`. */
  function DocLevel(m: map<string, Json>): (r: map<string, Json>)
    ensures r.Keys == m.Keys - {"items", "metadata"}
    ensures forall k :: k in r ==> r[k] == m[k]
  {
    m - {"items", "metadata"}
  }

  /** What `list.extend(v)` appends: a list's elements, a string's characters,
      a dict's keys; `None` (TypeError) for anything not iterable. */
  function Extension(keyOrder: KeyOrder, v: Json): (r: Option<seq<Json>>)
    ensures v.JArr? ==> r == Some(v.elems)
    ensures v.JStr? ==> r.Some? && |r.value| == |v.s| && forall k :: 0 <= k < |v.s| ==> r.value[k] == JStr([v.s[k]])
    ensures v.JObj? ==>
              && r.Some? && |r.value| == |keyOrder(v.fields)|
              && forall k :: 0 <= k < |r.value| ==> r.value[k] == JStr(keyOrder(v.fields)[k])
    ensures v.JObj? && ListsKeys(keyOrder(v.fields), v.fields) ==>
              && r.Some?
              && (forall key :: key in v.fields <==> JStr(key) in r.value)
              && (forall i, j :: 0 <= i < j < |r.value| ==> r.value[i] != r.value[j])
    ensures v.JNull? || v.JBool? || v.JInt? || v.JFloat? ==> r.None?
  {
    match v
    case JArr(xs) => Some(xs)
    case JStr(s) => Some(seq(|s|, k requires 0 <= k < |s| => JStr([s[k]])))
    case JObj(m) =>
      var keys := keyOrder(m);
      Some(seq(|keys|, k requires 0 <= k < |keys| => JStr(keys[k])))
    case _ => None
  }

  /** `if 'items' in page_data: combined['items'].extend(page_data['items'])`:
      the items one page adds, or `None` when either step raises. */
  function PageItems(keyOrder: KeyOrder, data: Json): (r: Option<seq<Json>>)
    ensures data.JObj? && "items" !in data.fields ==> r == Some([])
    ensures data.JObj? && "items" in data.fields ==> r == Extension(keyOrder, data.fields["items"])
    ensures data.JStr? ==> (r.Some? <==> !IsSubstring("items", data.s)) && (r.Some? ==> r.value == [])
    ensures data.JArr? ==> (r.Some? <==> JStr("items") !in data.elems) && (r.Some? ==> r.value == [])
    ensures data.JNull? || data.JBool? || data.JInt? || data.JFloat? ==> r.None?
  {
    match Contains(data, "items")
    case None => None
    case Some(present) =>
      if !present then Some([])
      else match Index(data, "items")
        case None => None
        case Some(v) => Extension(keyOrder, v)
  }

  /** The effect of one page on the merge. */
  datatype PageStep = Skip | Abort | Contribute(doc: map<string, Json>, items: seq<Json>)

  /** The step for page `idx`. Only the first page contributes document
      fields, and it must be a dict because `.items()` is called on it. */
  function StepOf(parse: Parser, keyOrder: KeyOrder, idx: nat, page: VisionPage): (r: PageStep)
    ensures r.Contribute? && idx > 0 ==> r.doc == map[]
    ensures r.Abort? <==>
              || page.CallFailed?
              || (&& page.Replied? && PageData(parse, page.content).Some?
                  && var d := PageData(parse, page.content).value;
                       (idx == 0 && !d.JObj?) || PageItems(keyOrder, d).None?)
    ensures page.Skipped? ==> r.Skip?
    ensures page.CallFailed? ==> r.Abort?
    ensures page.Replied? && PageData(parse, page.content).None? ==> r.Skip?
    ensures r.Contribute? && idx == 0 ==>
              && page.Replied? && PageData(parse, page.content).Some?
              && PageData(parse, page.content).value.JObj?
              && r.doc == DocLevel(PageData(parse, page.content).value.fields)
    ensures r.Contribute? ==>
              && page.Replied? && PageData(parse, page.content).Some?
              && PageItems(keyOrder, PageData(parse, page.content).value) == Some(r.items)
    ensures page.Replied? && PageData(parse, page.content).Some? && !r.Abort? ==>
              && r.Contribute?
              && PageItems(keyOrder, PageData(parse, page.content).value) == Some(r.items)
  {
    match page
    case Skipped => Skip
    case CallFailed => Abort
    case Replied(content) =>
      match PageData(parse, content)
      case None => Skip
      case Some(d) =>
        if idx == 0 && !d.JObj? then Abort
        else match PageItems(keyOrder, d)
          case None => Abort
          case Some(xs) => Contribute(if idx == 0 then DocLevel(d.fields) else map[], xs)
  }

  function Steps(parse: Parser, keyOrder: KeyOrder, pages: seq<VisionPage>): (r: seq<PageStep>)
    ensures |r| == |pages|
    ensures forall k :: 0 <= k < |pages| ==> r[k] == StepOf(parse, keyOrder, k, pages[k])
  {
    seq(|pages|, k requires 0 <= k < |pages| => StepOf(parse, keyOrder, k, pages[k]))
  }

  /** The record under construction: its document fields and its item list. */
  datatype Combined = Combined(doc: map<string, Json>, items: seq<Json>)

  const InitialDoc: map<string, Json> := map["document_type" := JNull]

  /** Items contributed by one step. */
  function StepItems(s: PageStep): seq<Json> {
    if s.Contribute? then s.items else []
  }

  /** All items of a run of steps, in page order (defined from the front, as a
      reference for the merge, which works from the back). */
  function AllItems(steps: seq<PageStep>): seq<Json>
    decreases |steps|
  {
    if |steps| == 0 then [] else StepItems(steps[0]) + AllItems(steps[1..])
  }

  lemma {:induction false} AllItemsSnoc(steps: seq<PageStep>, last: PageStep)
    ensures AllItems(steps + [last]) == AllItems(steps) + StepItems(last)
    decreases |steps|
  {
    if |steps| == 0 {
      assert steps + [last] == [last];
      assert [last][1..] == [];
    } else {
      assert (steps + [last])[1..] == steps[1..] + [last];
      AllItemsSnoc(steps[1..], last);
    }
  }

  /** The merge loop over the first pages, `None` once a page has raised. */
  function MergeSteps(steps: seq<PageStep>): (r: Option<Combined>)
    ensures r.None? <==> exists k :: 0 <= k < |steps| && steps[k].Abort?
    decreases |steps|
  {
    if |steps| == 0 then Some(Combined(InitialDoc, []))
    else
      var init := steps[..|steps| - 1];
      assert forall k :: 0 <= k < |init| ==> init[k] == steps[k];
      match MergeSteps(init)
      case None => None
      case Some(c) =>
        match steps[|steps| - 1]
        case Skip => Some(c)
        case Abort => None
        case Contribute(d, xs) => Some(Combined(c.doc + d, c.items + xs))
  }

  /** The merged items are every contributing page's items, in page order. */
  lemma {:induction false} MergeCollectsAllItems(steps: seq<PageStep>)
    requires MergeSteps(steps).Some?
    ensures MergeSteps(steps).value.items == AllItems(steps)
    decreases |steps|
  {
    if |steps| > 0 {
      var init := steps[..|steps| - 1];
      var last := steps[|steps| - 1];
      MergeCollectsAllItems(init);
      AllItemsSnoc(init, last);
      assert init + [last] == steps;
    }
  }

  /** When no step after the first brings document fields, the merged
      document fields are the initial ones overridden by the first step's. */
  lemma {:induction false} MergeDocFromFirst(steps: seq<PageStep>)
    requires MergeSteps(steps).Some?
    requires forall k :: 1 <= k < |steps| && steps[k].Contribute? ==> steps[k].doc == map[]
    ensures MergeSteps(steps).value.doc ==
              if |steps| > 0 && steps[0].Contribute? then InitialDoc + steps[0].doc else InitialDoc
    decreases |steps|
  {
    if |steps| > 1 {
      var init := steps[..|steps| - 1];
      MergeDocFromFirst(init);
      var c := MergeSteps(init).value;
      var last := steps[|steps| - 1];
      if last.Contribute? {
        assert last.doc == map[];
        assert c.doc + last.doc == c.doc;
      }
    }
  }

  /** The metadata the image path fixes up front: one page per rendered image
      and a confidence of 0.0. */
  function VisionMetadata(pageCount: nat, date: string): (m: Json)
    ensures m.JObj? && m.fields.Keys == {"page_count", "processing_date", "confidence_score"}
    ensures m.fields["page_count"] == JInt(pageCount)
    ensures m.fields["confidence_score"] == JFloat(0.0)
    ensures m.fields["processing_date"] == JStr(date)
  {
    JObj(map["page_count" := JInt(pageCount), "processing_date" := JStr(date), "confidence_score" := JFloat(0.0)])
  }

  /** The image path from the rendered pages (none when rendering failed) to
      the combined record, or `None` when it raises. */
  function VisionMerge(parse: Parser, keyOrder: KeyOrder, pages: seq<VisionPage>, date: string): (r: Option<Json>)
    ensures |pages| == 0 ==> r.None?
    ensures r.None? <==> |pages| == 0 || exists k :: 0 <= k < |pages| && StepOf(parse, keyOrder, k, pages[k]).Abort?
  {
    if |pages| == 0 then None
    else
      var steps := Steps(parse, keyOrder, pages);
      match MergeSteps(steps)
      case None => None
      case Some(c) => Some(JObj(c.doc["items" := JArr(c.items)]["metadata" := VisionMetadata(|pages|, date)]))
  }

  /** The shape of a combined record: the metadata is the fixed one with the
      number of rendered pages, the items are all pages' items in order, and
      the document fields are `document_type: null` overridden by the first
      page's fields other than `items` and `metadata`. */
  lemma VisionRecordShape(parse: Parser, keyOrder: KeyOrder, pages: seq<VisionPage>, date: string)
    requires VisionMerge(parse, keyOrder, pages, date).Some?
    ensures var rec := VisionMerge(parse, keyOrder, pages, date).value;
            var steps := Steps(parse, keyOrder, pages);
              && rec.JObj?
              && rec.fields["metadata"] == VisionMetadata(|pages|, date)
              && rec.fields["items"] == JArr(AllItems(steps))
              && rec.fields - {"items", "metadata"} ==
                   if steps[0].Contribute? then InitialDoc + steps[0].doc else InitialDoc
  {
    var steps := Steps(parse, keyOrder, pages);
    MergeCollectsAllItems(steps);
    MergeDocFromFirst(steps);
    var c := MergeSteps(steps).value;
    var first := if steps[0].Contribute? then InitialDoc + steps[0].doc else InitialDoc;
    assert "items" !in first && "metadata" !in first;
    assert c.doc == first;
    assert c.doc["items" := JArr(c.items)]["metadata" := VisionMetadata(|pages|, date)] - {"items", "metadata"} == first;
  }

  /** `document_type` always appears in a combined record, and it is `null`
      unless the first page supplies one. */
  lemma VisionDocumentType(parse: Parser, keyOrder: KeyOrder, pages: seq<VisionPage>, date: string)
    requires VisionMerge(parse, keyOrder, pages, date).Some?
    ensures var rec := VisionMerge(parse, keyOrder, pages, date).value;
            var first := StepOf(parse, keyOrder, 0, pages[0]);
              && "document_type" in rec.fields
              && rec.fields["document_type"] ==
                   if first.Contribute? && "document_type" in first.doc then first.doc["document_type"] else JNull
  {
    VisionRecordShape(parse, keyOrder, pages, date);
    var rec := VisionMerge(parse, keyOrder, pages, date).value;
    assert "document_type" in rec.fields - {"items", "metadata"};
  }
}
