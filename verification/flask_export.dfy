/**
 The Flask service's `/export` route, reduced to the decisions it makes: which
 worksheets it writes, in which order, under which names, and which inputs
 make it fail (any exception becomes an error response). The cell contents
 pandas writes are not modelled.
 */
module FlaskExport {
  import opened Text
  import opened JsonValues

  /** The character for a decimal digit. */
  function Digit(d: nat): (c: char)
    requires d < 10
    ensures '0' <= c <= '9' && c as int - '0' as int == d
  {
    ('0' as int + d) as char
  }

  /** `str(n)` for a natural number: decimal digits without leading zeros. */
  function NatDigits(n: nat): (r: string)
    ensures |r| >= 1 && forall k :: 0 <= k < |r| ==> '0' <= r[k] <= '9'
    ensures r[0] == '0' <==> n == 0
    decreases n
  {
    if n < 10 then [Digit(n)] else NatDigits(n / 10) + [Digit(n % 10)]
  }

  /** The number a string of decimal digits denotes. */
  function DigitsValue(s: string): nat
    requires forall k :: 0 <= k < |s| ==> '0' <= s[k] <= '9'
    decreases |s|
  {
    if |s| == 0 then 0 else DigitsValue(s[..|s| - 1]) * 10 + (s[|s| - 1] as int - '0' as int)
  }

  /** Reading the digits back gives the number: `int(str(n)) == n`. */
  lemma {:induction false} DigitsRoundTrip(n: nat)
    ensures DigitsValue(NatDigits(n)) == n
    decreases n
  {
    if n >= 10 {
      DigitsRoundTrip(n / 10);
      var s := NatDigits(n);
      assert s[..|s| - 1] == NatDigits(n / 10);
    }
  }

  predicate IsDigits(t: string) {
    forall k :: 0 <= k < |t| ==> '0' <= t[k] <= '9'
  }

  /** `int(t)` on the texts `str` writes for an int: an optional minus sign,
      then decimal digits; `None` when `int` would raise. */
  function IntValue(t: string): Option<int> {
    if |t| > 1 && t[0] == '-' && IsDigits(t[1..]) then Some(0 - DigitsValue(t[1..]) as int)
    else if |t| > 0 && IsDigits(t) then Some(DigitsValue(t))
    else None
  }

  /** `str(i)` for an int; `int` reads it back. */
  function IntText(i: int): (r: string)
    ensures i >= 0 ==> r == NatDigits(i)
    ensures i < 0 ==> r == "-" + NatDigits(-i)
    ensures IntValue(r) == Some(i)
  {
    if i < 0 then
      DigitsRoundTrip(-i);
      var r := "-" + NatDigits(-i);
      assert r[1..] == NatDigits(-i);
      r
    else
      DigitsRoundTrip(i);
      NatDigits(i)
  }

  /** `str(j)` inside an f-string: exact for strings, ints, `None` and
      booleans; for floats, lists and dicts `show` stands for Python's repr. */
  function Str(show: Json -> string, j: Json): (r: string)
    ensures j.JStr? ==> r == j.s
    ensures j.JInt? ==> r == IntText(j.i) && IntValue(r) == Some(j.i)
    ensures j.JNull? ==> r == "None"
    ensures j.JBool? ==> r == (if j.b then "True" else "False")
  {
    match j
    case JStr(s) => s
    case JInt(i) => IntText(i)
    case JNull => "None"
    case JBool(b) => if b then "True" else "False"
    case _ => show(j)
  }

  /** The kinds of worksheet the route writes; a table sheet records the
      0-based position of its table. */
  datatype SheetKind = SummarySheet | FieldsSheet | TableSheet(table: nat) | ItemsSheet

  datatype Sheet = Sheet(kind: SheetKind, name: string)

  /** The longest worksheet name Excel accepts, which the route checks for. */
  const MaxSheetName: nat := 31

  /** The name the route first tries for a table's sheet. */
  function FullTableName(pageNo: string, tableName: string): string {
    "Page " + pageNo + " - " + tableName
  }

  /** The fallback name for table `idx` (counted from 0, written from 1). */
  function FallbackTableName(pageNo: string, idx: nat): string {
    "Page " + pageNo + " - Table " + NatDigits(idx + 1)
  }

  /** The sheet name for a table: the full name when it fits, else the fallback. */
  function TableSheetName(pageNo: string, tableName: string, idx: nat): (r: string)
    ensures |FullTableName(pageNo, tableName)| <= MaxSheetName ==> r == FullTableName(pageNo, tableName)
    ensures |FullTableName(pageNo, tableName)| > MaxSheetName ==> r == FallbackTableName(pageNo, idx)
  {
    var full := FullTableName(pageNo, tableName);
    if |full| > MaxSheetName then FallbackTableName(pageNo, idx) else full
  }

  /** The fallback name gives the table's 1-based position back. */
  lemma FallbackNamesTable(pageNo: string, idx: nat)
    ensures var name := FallbackTableName(pageNo, idx);
            var prefix := "Page " + pageNo + " - Table ";
              && prefix <= name
              && (forall k :: |prefix| <= k < |name| ==> '0' <= name[k] <= '9')
              && DigitsValue(name[|prefix|..]) == idx + 1
  {
    var prefix := "Page " + pageNo + " - Table ";
    var name := FallbackTableName(pageNo, idx);
    assert name[|prefix|..] == NatDigits(idx + 1);
    DigitsRoundTrip(idx + 1);
  }

  /** Names are not guaranteed distinct: a short table literally called
      "Table 2" and a long-named second table get the same sheet name. */
  lemma SheetNamesCanCollide()
    ensures TableSheetName("1", "Table 2", 0) == TableSheetName("1", "A table name that is far too long", 1)
  {
    assert NatDigits(2) == "2";
    assert |FullTableName("1", "A table name that is far too long")| > MaxSheetName;
  }

  /** The sheet for one entry of `tables`, at position `idx`:
      `None` when the route raises, `Some(None)` when the entry gets no sheet.
      A dict entry gets a sheet iff its `items` are present and truthy. */
  function TableEntrySheet(show: Json -> string, pageNo: string, idx: nat, table: Json): (r: Option<Option<Sheet>>)
    ensures table.JObj? && !("items" in table.fields && Truthy(table.fields["items"])) ==> r == Some(None)
    ensures table.JObj? && "items" in table.fields && Truthy(table.fields["items"]) ==>
              if "table_name" in table.fields
              then r == Some(Some(Sheet(TableSheet(idx), TableSheetName(pageNo, Str(show, table.fields["table_name"]), idx))))
              else r.None?
    ensures table.JStr? ==> (r.None? <==> IsSubstring("items", table.s)) && (r.Some? ==> r.value.None?)
    ensures table.JArr? ==> (r.None? <==> JStr("items") in table.elems) && (r.Some? ==> r.value.None?)
    ensures table.JNull? || table.JBool? || table.JInt? || table.JFloat? ==> r.None?
  {
    match Contains(table, "items")
    case None => None
    case Some(present) =>
      if !present then Some(None)
      else match Index(table, "items")
        case None => None
        case Some(items) =>
          if !Truthy(items) then Some(None)
          else match Index(table, "table_name")
            case None => None
            case Some(tn) => Some(Some(Sheet(TableSheet(idx), TableSheetName(pageNo, Str(show, tn), idx))))
  }

  /** The sheets for the entries of `tables` from position `start` on. */
  function TableListSheets(show: Json -> string, pageNo: string, tables: seq<Json>, start: nat): (r: Option<seq<Sheet>>)
    ensures r.Some? ==> forall k :: 0 <= k < |r.value| ==>
              r.value[k].kind.TableSheet? && start <= r.value[k].kind.table < start + |tables|
    ensures r.Some? ==> forall i, j :: 0 <= i < j < |r.value| ==> r.value[i].kind.table < r.value[j].kind.table
    ensures r.Some? <==> forall k :: 0 <= k < |tables| ==> TableEntrySheet(show, pageNo, start + k, tables[k]).Some?
    decreases |tables|
  {
    if |tables| == 0 then Some([])
    else
      var rest := tables[1..];
      assert forall k :: 0 <= k < |rest| ==> rest[k] == tables[k + 1];
      match TableEntrySheet(show, pageNo, start, tables[0])
      case None => None
      case Some(here) =>
        match TableListSheets(show, pageNo, rest, start + 1)
        case None => None
        case Some(more) => Some((if here.Some? then [here.value] else []) + more)
  }

  /** `sh` is the sheet that the table entry it names produces. */
  predicate FromItsEntry(show: Json -> string, pageNo: string, tables: seq<Json>, start: nat, sh: Sheet)
  {
    sh.kind.TableSheet? && start <= sh.kind.table < start + |tables| &&
    TableEntrySheet(show, pageNo, sh.kind.table, tables[sh.kind.table - start]) == Some(Some(sh))
  }

  /** Each table sheet is the sheet its own table entry produces: the list
      holds no sheet that its entries do not account for. */
  lemma {:induction false} TableListSheetsFromEntries(show: Json -> string, pageNo: string, tables: seq<Json>, start: nat)
    requires TableListSheets(show, pageNo, tables, start).Some?
    ensures var ss := TableListSheets(show, pageNo, tables, start).value;
              forall i :: 0 <= i < |ss| ==> FromItsEntry(show, pageNo, tables, start, ss[i])
  {
    var ss := TableListSheets(show, pageNo, tables, start).value;
    forall i | 0 <= i < |ss|
      ensures FromItsEntry(show, pageNo, tables, start, ss[i])
    {
      SheetFromEntry(show, pageNo, tables, start, i);
    }
  }

  /** Every sheet a table entry produces is in the list: no entry's sheet is
      dropped. */
  lemma {:induction false} TableListSheetsCoverEntries(show: Json -> string, pageNo: string, tables: seq<Json>, start: nat)
    requires TableListSheets(show, pageNo, tables, start).Some?
    ensures forall k, sh :: 0 <= k < |tables| && TableEntrySheet(show, pageNo, start + k, tables[k]) == Some(Some(sh)) ==>
              sh in TableListSheets(show, pageNo, tables, start).value
  {
    forall k, sh | 0 <= k < |tables| && TableEntrySheet(show, pageNo, start + k, tables[k]) == Some(Some(sh))
      ensures sh in TableListSheets(show, pageNo, tables, start).value
    {
      EntrySheetListed(show, pageNo, tables, start, k, sh);
    }
  }

  /** Sheet `i` of the list is the sheet of the table entry it names. */
  lemma {:induction false} SheetFromEntry(show: Json -> string, pageNo: string, tables: seq<Json>, start: nat, i: nat)
    requires TableListSheets(show, pageNo, tables, start).Some?
    requires i < |TableListSheets(show, pageNo, tables, start).value|
    ensures FromItsEntry(show, pageNo, tables, start, TableListSheets(show, pageNo, tables, start).value[i])
    decreases |tables|
  {
    var rest := tables[1..];
    TableListSheetsCons(show, pageNo, tables, start);
    var here := TableEntrySheet(show, pageNo, start, tables[0]).value;
    var more := TableListSheets(show, pageNo, rest, start + 1).value;
    var sh := TableListSheets(show, pageNo, tables, start).value[i];
    if here.Some? && i == 0 {
      assert sh == here.value;
      FirstEntrySheet(show, pageNo, tables, start, sh);
    } else {
      var j := if here.Some? then i - 1 else i;
      assert sh == more[j];
      SheetFromEntry(show, pageNo, rest, start + 1, j);
      FromLaterEntry(show, pageNo, tables, start, sh);
    }
  }

  /** The first entry's sheet comes from its entry. */
  lemma FirstEntrySheet(show: Json -> string, pageNo: string, tables: seq<Json>, start: nat, sh: Sheet)
    requires |tables| > 0 && TableEntrySheet(show, pageNo, start, tables[0]) == Some(Some(sh))
    ensures FromItsEntry(show, pageNo, tables, start, sh)
  {
    EntrySheetKind(show, pageNo, start, tables[0], sh);
  }

  /** A sheet that comes from an entry of the tail comes from the same entry
      of the whole list. */
  lemma FromLaterEntry(show: Json -> string, pageNo: string, tables: seq<Json>, start: nat, sh: Sheet)
    requires |tables| > 0 && FromItsEntry(show, pageNo, tables[1..], start + 1, sh)
    ensures FromItsEntry(show, pageNo, tables, start, sh)
  {
    assert tables[1..][sh.kind.table - (start + 1)] == tables[sh.kind.table - start];
  }

  /** A successful list is the first entry's sheet, if any, before the rest's. */
  lemma TableListSheetsCons(show: Json -> string, pageNo: string, tables: seq<Json>, start: nat)
    requires |tables| > 0 && TableListSheets(show, pageNo, tables, start).Some?
    ensures TableEntrySheet(show, pageNo, start, tables[0]).Some?
    ensures TableListSheets(show, pageNo, tables[1..], start + 1).Some?
    ensures var here := TableEntrySheet(show, pageNo, start, tables[0]).value;
            TableListSheets(show, pageNo, tables, start).value ==
              (if here.Some? then [here.value] else []) + TableListSheets(show, pageNo, tables[1..], start + 1).value
  {
  }

  /** An entry's sheet is a table sheet carrying the entry's own index. */
  lemma EntrySheetKind(show: Json -> string, pageNo: string, idx: nat, table: Json, sh: Sheet)
    requires TableEntrySheet(show, pageNo, idx, table) == Some(Some(sh))
    ensures sh.kind == TableSheet(idx)
  {
  }

  /** `sh` is the sheet table entry `k` produces. */
  predicate ProducedBy(show: Json -> string, pageNo: string, tables: seq<Json>, start: nat, k: nat, sh: Sheet)
  {
    k < |tables| && TableEntrySheet(show, pageNo, start + k, tables[k]) == Some(Some(sh))
  }

  /** A sheet that table entry `k` produces is in the list. */
  lemma {:induction false} EntrySheetListed(show: Json -> string, pageNo: string, tables: seq<Json>, start: nat, k: nat, sh: Sheet)
    requires TableListSheets(show, pageNo, tables, start).Some?
    requires ProducedBy(show, pageNo, tables, start, k, sh)
    ensures sh in TableListSheets(show, pageNo, tables, start).value
    decreases |tables|
  {
    TableListSheetsCons(show, pageNo, tables, start);
    if k == 0 {
      FirstListed(show, pageNo, tables, start, sh);
    } else {
      ProducedByLater(show, pageNo, tables, start, k, sh);
      EntrySheetListed(show, pageNo, tables[1..], start + 1, k - 1, sh);
      var here := TableEntrySheet(show, pageNo, start, tables[0]).value;
      InRightOfAppend(if here.Some? then [here.value] else [], TableListSheets(show, pageNo, tables[1..], start + 1).value, sh);
    }
  }

  /** The first entry's sheet heads the list. */
  lemma FirstListed(show: Json -> string, pageNo: string, tables: seq<Json>, start: nat, sh: Sheet)
    requires TableListSheets(show, pageNo, tables, start).Some?
    requires ProducedBy(show, pageNo, tables, start, 0, sh)
    ensures sh in TableListSheets(show, pageNo, tables, start).value
  {
    TableListSheetsCons(show, pageNo, tables, start);
    assert TableListSheets(show, pageNo, tables, start).value[0] == sh;
  }

  /** Entry `k` of the list is entry `k - 1` of its tail. */
  lemma ProducedByLater(show: Json -> string, pageNo: string, tables: seq<Json>, start: nat, k: nat, sh: Sheet)
    requires 0 < k && ProducedBy(show, pageNo, tables, start, k, sh)
    ensures ProducedBy(show, pageNo, tables[1..], start + 1, k - 1, sh)
  {
    assert tables[1..][k - 1] == tables[k];
  }

  /** A member of the right operand is a member of the concatenation. */
  lemma InRightOfAppend<T>(a: seq<T>, b: seq<T>, x: T)
    requires x in b
    ensures x in a + b
  {
    var n :| 0 <= n < |b| && b[n] == x;
    assert (a + b)[|a| + n] == x;
  }


  /** Every entry is a dict that has a `table_name`. */
  predicate NamedTables(tables: seq<Json>) {
    forall i :: 0 <= i < |tables| ==> tables[i].JObj? && "table_name" in tables[i].fields
  }

  /** A list of named dict tables never makes the route raise. */
  lemma NamedTablesSucceed(show: Json -> string, pageNo: string, tables: seq<Json>, start: nat)
    requires NamedTables(tables)
    ensures TableListSheets(show, pageNo, tables, start).Some?
  {
    forall k | 0 <= k < |tables|
      ensures TableEntrySheet(show, pageNo, start + k, tables[k]).Some?
    {
    }
  }

  /** Some sheet in `sheets` is the one for table `t`. */
  predicate HasTableSheet(sheets: seq<Sheet>, t: nat) {
    exists i :: 0 <= i < |sheets| && sheets[i].kind == TableSheet(t)
  }

  /** For a list of named dict tables, a table gets a sheet exactly when its
      `items` are present and truthy. */
  lemma {:induction false} TableSheetIffItems(show: Json -> string, pageNo: string, tables: seq<Json>, start: nat, k: nat)
    requires NamedTables(tables)
    requires k < |tables|
    ensures TableListSheets(show, pageNo, tables, start).Some?
    ensures HasTableSheet(TableListSheets(show, pageNo, tables, start).value, start + k) <==> HasItems(tables[k].fields)
    decreases |tables|
  {
    if k == 0 {
      TableSheetFirst(show, pageNo, tables, start);
    } else {
      TableSheetLater(show, pageNo, tables, start, start + k);
      TableSheetIffItems(show, pageNo, tables[1..], start + 1, k - 1);
      assert tables[1..][k - 1] == tables[k];
    }
  }

  lemma TableSheetFirst(show: Json -> string, pageNo: string, tables: seq<Json>, start: nat)
    requires NamedTables(tables) && |tables| > 0
    ensures TableListSheets(show, pageNo, tables, start).Some?
    ensures HasTableSheet(TableListSheets(show, pageNo, tables, start).value, start) <==> HasItems(tables[0].fields)
  {
    var more := NamedTablesUnfold(show, pageNo, tables, start);
    var here := TableEntrySheet(show, pageNo, start, tables[0]).value;
    var head := if here.Some? then [here.value] else [];
    FirstTableSheet(head, more, start, HasItems(tables[0].fields));
  }

  lemma TableSheetLater(show: Json -> string, pageNo: string, tables: seq<Json>, start: nat, target: nat)
    requires NamedTables(tables) && |tables| > 0 && target > start
    ensures NamedTables(tables[1..])
    ensures TableListSheets(show, pageNo, tables, start).Some?
    ensures TableListSheets(show, pageNo, tables[1..], start + 1).Some?
    ensures HasTableSheet(TableListSheets(show, pageNo, tables, start).value, target) <==>
              HasTableSheet(TableListSheets(show, pageNo, tables[1..], start + 1).value, target)
  {
    var more := NamedTablesUnfold(show, pageNo, tables, start);
    var here := TableEntrySheet(show, pageNo, start, tables[0]).value;
    var head := if here.Some? then [here.value] else [];
    LaterTableSheet(head, more, start, target);
  }

  /** One step of the table list: the first entry's sheet, if any, then the
      sheets of the rest. */
  lemma NamedTablesUnfold(show: Json -> string, pageNo: string, tables: seq<Json>, start: nat) returns (more: seq<Sheet>)
    requires NamedTables(tables) && |tables| > 0
    ensures NamedTables(tables[1..])
    ensures TableListSheets(show, pageNo, tables, start).Some?
    ensures TableListSheets(show, pageNo, tables[1..], start + 1) == Some(more)
    ensures forall i :: 0 <= i < |more| ==> more[i].kind.TableSheet? && more[i].kind.table > start
    ensures var here := TableEntrySheet(show, pageNo, start, tables[0]).value;
            var head := if here.Some? then [here.value] else [];
              && |head| <= 1 && (|head| == 1 <==> HasItems(tables[0].fields))
              && (|head| == 1 ==> head[0].kind == TableSheet(start))
              && TableListSheets(show, pageNo, tables, start).value == head + more
  {
    var rest := tables[1..];
    assert forall i :: 0 <= i < |rest| ==> rest[i] == tables[i + 1];
    NamedTablesSucceed(show, pageNo, tables, start);
    NamedTablesSucceed(show, pageNo, rest, start + 1);
    more := TableListSheets(show, pageNo, rest, start + 1).value;
  }

  lemma FirstTableSheet(head: seq<Sheet>, more: seq<Sheet>, start: nat, hasItems: bool)
    requires |head| <= 1 && (|head| == 1 <==> hasItems)
    requires |head| == 1 ==> head[0].kind == TableSheet(start)
    requires forall i :: 0 <= i < |more| ==> more[i].kind.TableSheet? && more[i].kind.table > start
    ensures HasTableSheet(head + more, start) <==> hasItems
  {
    var sheets := head + more;
    if exists i :: 0 <= i < |sheets| && sheets[i].kind == TableSheet(start) {
      var i :| 0 <= i < |sheets| && sheets[i].kind == TableSheet(start);
    }
    if hasItems {
      assert sheets[0].kind == TableSheet(start);
    }
  }

  lemma LaterTableSheet(head: seq<Sheet>, more: seq<Sheet>, start: nat, target: nat)
    requires |head| <= 1 && (|head| == 1 ==> head[0].kind == TableSheet(start))
    requires target > start
    ensures HasTableSheet(head + more, target) <==> HasTableSheet(more, target)
  {
    var sheets := head + more;
    if exists i :: 0 <= i < |sheets| && sheets[i].kind == TableSheet(target) {
      var i :| 0 <= i < |sheets| && sheets[i].kind == TableSheet(target);
      assert i >= |head|;
      assert more[i - |head|] == sheets[i];
    }
    if exists i :: 0 <= i < |more| && more[i].kind == TableSheet(target) {
      var i :| 0 <= i < |more| && more[i].kind == TableSheet(target);
      assert sheets[|head| + i] == more[i];
    }
  }

  /** The entries `for table in page_data['tables']` visits: a list's
      elements, a string's one-character strings; `None` for a value that is
      not iterable. A dict (whose entries are its keys) is handled apart. */
  function TableEntries(tables: Json): Option<seq<Json>> {
    match tables
    case JArr(xs) => Some(xs)
    case JStr(s) => Some(seq(|s|, k requires 0 <= k < |s| => JStr([s[k]])))
    case _ => None
  }

  /** The table sheets of a page whose `tables` value is truthy. Iterating a
      dict yields its keys: a key containing "items" makes the route raise,
      and no key gets a sheet. */
  function TablesSheets(show: Json -> string, pageNo: string, tables: Json): (r: Option<seq<Sheet>>)
    ensures tables.JObj? ==>
              && (r.None? <==> exists key :: key in tables.fields && IsSubstring("items", key))
              && (r.Some? ==> r.value == [])
    ensures tables.JArr? ==> r == TableListSheets(show, pageNo, tables.elems, 0)
    ensures tables.JStr? ==> r == Some([])
    ensures tables.JNull? || tables.JBool? || tables.JInt? || tables.JFloat? ==> r.None?
  {
    if tables.JStr? then
      CharEntriesHaveNoSheets(show, pageNo, TableEntries(tables).value, 0);
      TableListSheets(show, pageNo, TableEntries(tables).value, 0)
    else if tables.JObj? then
      if exists key :: key in tables.fields && IsSubstring("items", key) then None else Some([])
    else match TableEntries(tables)
      case None => None
      case Some(entries) => TableListSheets(show, pageNo, entries, 0)
  }

  /** Iterating a string yields one-character strings, and `'items' in c`
      never holds for one of them: no entry raises, and none gets a sheet. */
  lemma {:induction false} CharEntriesHaveNoSheets(show: Json -> string, pageNo: string, entries: seq<Json>, start: nat)
    requires forall k :: 0 <= k < |entries| ==> entries[k].JStr? && |entries[k].s| == 1
    ensures TableListSheets(show, pageNo, entries, start) == Some([])
    decreases |entries|
  {
    if |entries| > 0 {
      var rest := entries[1..];
      assert forall k :: 0 <= k < |rest| ==> rest[k] == entries[k + 1];
      assert !IsSubstring("items", entries[0].s);
      assert TableEntrySheet(show, pageNo, start, entries[0]) == Some(None);
      CharEntriesHaveNoSheets(show, pageNo, rest, start + 1);
      var none: seq<Sheet> := [];
      assert TableListSheets(show, pageNo, rest, start + 1) == Some(none);
      assert TableListSheets(show, pageNo, entries, start) == Some(none + none);
      assert none + none == none;
    }
  }

  /** The page has a truthy `tables` value. */
  predicate HasTables(page: map<string, Json>) {
    "tables" in page && Truthy(page["tables"])
  }

  /** The page has a truthy `items` value. */
  predicate HasItems(page: map<string, Json>) {
    "items" in page && Truthy(page["items"])
  }

  /** The pageNo `Page {page_num}` uses, for a page that has a number. */
  function PageLabel(show: Json -> string, page: Json): string
    requires HasKey(page, "page_number")
  {
    Str(show, page.fields["page_number"])
  }

  /** The sheets of one page record: its fields sheet, then its table sheets,
      or the legacy items sheet when it has no tables. */
  function PageSheets(show: Json -> string, page: Json): (r: Option<seq<Sheet>>)
    ensures r.Some? ==> HasKey(page, "page_number")
    ensures r.Some? ==>
              && |r.value| >= 1
              && r.value[0] == Sheet(FieldsSheet, "Page " + PageLabel(show, page) + " - Fields")
              && forall k :: 1 <= k < |r.value| ==> !r.value[k].kind.FieldsSheet? && !r.value[k].kind.SummarySheet?
    ensures r.Some? ==>
              ((exists k :: 0 <= k < |r.value| && r.value[k].kind.ItemsSheet?) <==>
                 !HasTables(page.fields) && HasItems(page.fields))
    ensures r.Some? && !HasTables(page.fields) ==> forall k :: 0 <= k < |r.value| ==> !r.value[k].kind.TableSheet?
    ensures HasKey(page, "page_number") && !HasTables(page.fields) ==> r.Some?
    ensures HasKey(page, "page_number") && HasTables(page.fields) ==>
              var pageNo := PageLabel(show, page);
              var ts := TablesSheets(show, pageNo, page.fields["tables"]);
                && (r.Some? <==> ts.Some?)
                && (r.Some? ==> r.value == [Sheet(FieldsSheet, "Page " + pageNo + " - Fields")] + ts.value)
    ensures HasKey(page, "page_number") && !HasTables(page.fields) ==>
              var pageNo := PageLabel(show, page);
              r.value == [Sheet(FieldsSheet, "Page " + pageNo + " - Fields")] +
                         (if HasItems(page.fields) then [Sheet(ItemsSheet, "Page " + pageNo + " - Items")] else [])
  {
    match Index(page, "page_number")
    case None => None
    case Some(_) =>
      var pageNo := PageLabel(show, page);
      var fields := Sheet(FieldsSheet, "Page " + pageNo + " - Fields");
      if HasTables(page.fields) then
        match TablesSheets(show, pageNo, page.fields["tables"])
        case None => None
        case Some(ts) => PageSheetsWithTables(fields, ts)
      else if HasItems(page.fields) then
        var both := [fields, Sheet(ItemsSheet, "Page " + pageNo + " - Items")];
        assert both[1].kind.ItemsSheet?;
        Some(both)
      else Some([fields])
  }

  function PageSheetsWithTables(fields: Sheet, ts: seq<Sheet>): (r: Option<seq<Sheet>>)
    requires forall k :: 0 <= k < |ts| ==> ts[k].kind.TableSheet?
    ensures r == Some([fields] + ts)
    ensures forall k :: 1 <= k < |r.value| ==> r.value[k].kind.TableSheet?
  {
    var all := [fields] + ts;
    assert forall k :: 1 <= k < |all| ==> all[k] == ts[k - 1];
    Some(all)
  }

  /** The page records `for page_data in data['pages']` visits: a list's
      elements. An empty string or dict gives none; a non-empty one yields
      strings, and indexing a string with 'page_number' raises. */
  function PageList(pages: Json): (r: Option<seq<Json>>)
    ensures pages.JArr? ==> r == Some(pages.elems)
    ensures r.Some? && !pages.JArr? ==> r.value == []
  {
    match pages
    case JArr(xs) => Some(xs)
    case JStr(s) => if |s| == 0 then Some([]) else None
    case JObj(m) => if |m| == 0 then Some([]) else None
    case _ => None
  }

  /** The sheets of all page records, page after page. */
  function AllPageSheets(show: Json -> string, pages: seq<Json>): Option<seq<Sheet>>
    decreases |pages|
  {
    if |pages| == 0 then Some([])
    else
      match PageSheets(show, pages[0])
      case None => None
      case Some(here) =>
        match AllPageSheets(show, pages[1..])
        case None => None
        case Some(more) => Some(here + more)
  }

  /** The export of the pages fails exactly when the sheets of some page fail. */
  lemma {:induction false} AllPageSheetsIffPages(show: Json -> string, pages: seq<Json>)
    ensures AllPageSheets(show, pages).Some? <==> forall k :: 0 <= k < |pages| ==> PageSheets(show, pages[k]).Some?
    decreases |pages|
  {
    if |pages| > 0 {
      var rest := pages[1..];
      assert forall k :: 0 <= k < |rest| ==> rest[k] == pages[k + 1];
      AllPageSheetsIffPages(show, rest);
    }
  }

  /** The page records' sheets concatenate: the sheets of two runs of pages
      are the first run's sheets followed by the second's, and the route fails
      on the joined run exactly when it fails on one of them. */
  lemma AllPageSheetsAppend(show: Json -> string, a: seq<Json>, b: seq<Json>)
    ensures AllPageSheets(show, a + b).Some? <==> AllPageSheets(show, a).Some? && AllPageSheets(show, b).Some?
    ensures AllPageSheets(show, a + b).Some? ==>
              AllPageSheets(show, a + b).value == AllPageSheets(show, a).value + AllPageSheets(show, b).value
  {
    AllPageSheetsAppendSome(show, a, b);
    if AllPageSheets(show, a).Some? && AllPageSheets(show, b).Some? {
      AllPageSheetsAppendValue(show, a, b);
    }
  }

  /** The route succeeds on a joined run exactly when it succeeds on both parts. */
  lemma AllPageSheetsAppendSome(show: Json -> string, a: seq<Json>, b: seq<Json>)
    ensures AllPageSheets(show, a + b).Some? <==> AllPageSheets(show, a).Some? && AllPageSheets(show, b).Some?
  {
    AllPageSheetsIffPages(show, a + b);
    AllPageSheetsIffPages(show, a);
    AllPageSheetsIffPages(show, b);
    assert forall k :: 0 <= k < |a| ==> (a + b)[k] == a[k];
    assert forall k :: 0 <= k < |b| ==> (a + b)[|a| + k] == b[k];
  }

  lemma {:induction false} AllPageSheetsAppendValue(show: Json -> string, a: seq<Json>, b: seq<Json>)
    requires AllPageSheets(show, a).Some? && AllPageSheets(show, b).Some?
    ensures AllPageSheets(show, a + b) == Some(AllPageSheets(show, a).value + AllPageSheets(show, b).value)
  {
    if |a| == 0 {
      assert a + b == b;
      var none: seq<Sheet> := [];
      assert AllPageSheets(show, a) == Some(none);
      assert none + AllPageSheets(show, b).value == AllPageSheets(show, b).value;
    } else {
      AllPageSheetsSplit(show, a);
      AllPageSheetsAppendValue(show, a[1..], b);
      AllPageSheetsAppendStep(show, a, b);
    }
  }

  /** The inductive step of `AllPageSheetsAppendValue`: the first page's sheets
      lead both the run `a` and the joined run. */
  lemma AllPageSheetsAppendStep(show: Json -> string, a: seq<Json>, b: seq<Json>)
    requires |a| > 0
    requires AllPageSheets(show, a).Some? && AllPageSheets(show, b).Some?
    requires AllPageSheets(show, a[1..]).Some?
    requires AllPageSheets(show, a[1..] + b) == Some(AllPageSheets(show, a[1..]).value + AllPageSheets(show, b).value)
    ensures AllPageSheets(show, a + b) == Some(AllPageSheets(show, a).value + AllPageSheets(show, b).value)
  {
    var x := AllPageSheets(show, a[1..]).value;
    var y := AllPageSheets(show, b).value;
    AllPageSheetsSplit(show, a);
    var here := PageSheets(show, a[0]).value;
    JoinHead(a, b);
    AllPageSheetsJoin(show, a + b, here, x + y);
    AppendAssoc(here, x, y);
  }

  /** The head and tail of a joined run of pages. */
  lemma JoinHead(a: seq<Json>, b: seq<Json>)
    requires |a| > 0
    ensures (a + b)[0] == a[0] && (a + b)[1..] == a[1..] + b
  {
  }

  /** A successful run's sheets are its first page's sheets followed by the rest's. */
  lemma AllPageSheetsSplit(show: Json -> string, pages: seq<Json>)
    requires |pages| > 0 && AllPageSheets(show, pages).Some?
    ensures PageSheets(show, pages[0]).Some? && AllPageSheets(show, pages[1..]).Some?
    ensures AllPageSheets(show, pages).value == PageSheets(show, pages[0]).value + AllPageSheets(show, pages[1..]).value
  {
  }

  /** A first page whose sheets are `here` and a rest whose sheets are `more`
      give the run `here + more`. */
  lemma AllPageSheetsJoin(show: Json -> string, pages: seq<Json>, here: seq<Sheet>, more: seq<Sheet>)
    requires |pages| > 0
    requires PageSheets(show, pages[0]) == Some(here) && AllPageSheets(show, pages[1..]) == Some(more)
    ensures AllPageSheets(show, pages) == Some(here + more)
  {
  }

  /** A single page record's sheets are its own. */
  lemma AllPageSheetsOne(show: Json -> string, page: Json)
    ensures AllPageSheets(show, [page]) == PageSheets(show, page)
  {
    assert [page][1..] == [];
    if PageSheets(show, page).Some? {
      assert PageSheets(show, page).value + [] == PageSheets(show, page).value;
    }
  }

  /** Every page record that is written gets its fields sheet. */
  lemma {:induction false} EveryPageHasFieldsSheet(show: Json -> string, pages: seq<Json>, k: nat)
    requires AllPageSheets(show, pages).Some?
    requires k < |pages|
    ensures HasKey(pages[k], "page_number")
    ensures Sheet(FieldsSheet, "Page " + PageLabel(show, pages[k]) + " - Fields") in AllPageSheets(show, pages).value
    decreases |pages|
  {
    var here := PageSheets(show, pages[0]).value;
    var more := AllPageSheets(show, pages[1..]).value;
    assert AllPageSheets(show, pages).value == here + more;
    if k > 0 {
      EveryPageHasFieldsSheet(show, pages[1..], k - 1);
      assert pages[1..][k - 1] == pages[k];
    } else {
      assert here[0] in here + more;
    }
  }

  /** The summary needs these three metadata entries. */
  predicate HasSummary(data: Json) {
    && HasKey(data, "metadata")
    && var meta := data.fields["metadata"];
         HasKey(meta, "total_pages") && HasKey(meta, "processed_pages") && HasKey(meta, "processing_date")
  }

  /** The workbook's sheets in writing order, or `None` when the route
      answers with an error. */
  function ExportSheets(show: Json -> string, data: Json): (r: Option<seq<Sheet>>)
    ensures r.Some? ==> HasSummary(data) && HasKey(data, "pages")
    ensures r.Some? ==> |r.value| >= 1 && r.value[0] == Sheet(SummarySheet, "Summary")
    ensures r.Some? ==> forall k :: 1 <= k < |r.value| ==> !r.value[k].kind.SummarySheet?
    ensures r.Some? <==>
              && HasSummary(data) && HasKey(data, "pages")
              && PageList(data.fields["pages"]).Some?
              && AllPageSheets(show, PageList(data.fields["pages"]).value).Some?
    ensures r.Some? ==>
              r.value == [Sheet(SummarySheet, "Summary")] + AllPageSheets(show, PageList(data.fields["pages"]).value).value
  {
    if !HasSummary(data) then None
    else match Index(data, "pages")
      case None => None
      case Some(pv) =>
        match PageList(pv)
        case None => None
        case Some(pages) =>
          match AllPageSheets(show, pages)
          case None => None
          case Some(ss) =>
            NoSummaryAmongPages(show, pages);
            Some([Sheet(SummarySheet, "Summary")] + ss)
  }

  /** Page records never produce a summary sheet. */
  lemma {:induction false} NoSummaryAmongPages(show: Json -> string, pages: seq<Json>)
    requires AllPageSheets(show, pages).Some?
    ensures forall k :: 0 <= k < |AllPageSheets(show, pages).value| ==> !AllPageSheets(show, pages).value[k].kind.SummarySheet?
    decreases |pages|
  {
    if |pages| > 0 {
      NoSummaryAmongPages(show, pages[1..]);
      var here := PageSheets(show, pages[0]).value;
      var more := AllPageSheets(show, pages[1..]).value;
      assert AllPageSheets(show, pages).value == here + more;
    }
  }
}
