/**
 * The query and formatting logic of the command-line front end (main.js):
 * the date pre-check before an add, search, sort and the plain-text export.
 * Prompts and console output are not part of the model.
 */
module Cli {
  import opened Wrappers
  import opened Text
  import opened Dates
  import opened RecordUtils

  // ------------------------------------------------------------ add pre-check

  /**
   * The add command's pre-check: an unparseable date is refused before the
   * store is called; otherwise the date is normalised to `YYYY-MM-DD` and the
   * typed name and value are passed on.
   */
  function PrepareAdd(name: string, value: string, createdAt: string): (r: Option<Candidate>)
    ensures r.None? <==> ParseDate(createdAt).None?
    ensures r.Some? ==> r.value.name == Some(name) && r.value.value == Some(value)
    ensures r.Some? ==> r.value.createdAt == Some(createdAt)
    ensures r.Some? ==> (ValidateRecord(r.value).Pass? <==> name != "" && value != "")
  {
    match ParseDate(createdAt)
    case None => None
    case Some(d) =>
      FormatParse(createdAt);
      Some(Candidate(Some(name), Some(value), Some(FormatDate(d))))
  }

  // ------------------------------------------------------------------ search

  /** The search filter: the id text equals the term, or the lower-cased name or value contains the lower-cased term. */
  predicate Matches(r: Record, term: string) {
    IntToString(r.id) == term ||
    Contains(Lower(r.name), Lower(term)) ||
    Contains(Lower(r.value), Lower(term))
  }

  /** `allRecords.filter(...)`: the listed records that match, in list order. */
  function Search(list: seq<Record>, term: string): (result: seq<Record>)
    ensures |result| <= |list|
    ensures forall r :: r in result <==> r in list && Matches(r, term)
  {
    if list == [] then []
    else
      assert list == [list[0]] + list[1..];
      (if Matches(list[0], term) then [list[0]] else []) + Search(list[1..], term)
  }

  /** Search keeps the list order: filtering a concatenation filters each part in turn. */
  lemma {:induction false} SearchAppend(a: seq<Record>, b: seq<Record>, term: string)
    ensures Search(a + b, term) == Search(a, term) + Search(b, term)
  {
    if a == [] {
      assert a + b == b;
    } else {
      var head := if Matches(a[0], term) then [a[0]] else [];
      assert (a + b)[0] == a[0];
      assert (a + b)[1..] == a[1..] + b;
      SearchAppend(a[1..], b, term);
      calc {
        Search(a + b, term);
        head + Search(a[1..] + b, term);
        head + (Search(a[1..], term) + Search(b, term));
        (head + Search(a[1..], term)) + Search(b, term);
        Search(a, term) + Search(b, term);
      }
    }
  }

  /** An empty term is contained in every name, so it finds every record. */
  lemma {:induction false} SearchEmptyTermFindsAll(list: seq<Record>)
    ensures Search(list, "") == list
  {
    if list != [] {
      ContainsEmpty(Lower(list[0].name));
      SearchEmptyTermFindsAll(list[1..]);
    }
  }

  /**
   * The id is compared as exact text: a term that is the text of an id selects
   * that id and no other one by id (others may still match by name or value).
   */
  lemma SearchIdIsExact(r: Record, id: int)
    ensures IntToString(r.id) == IntToString(id) <==> r.id == id
  {
    if IntToString(r.id) == IntToString(id) {
      IntToStringInjective(r.id, id);
    }
  }

  // -------------------------------------------------------------------- sort

  datatype SortField = ByName | ByDate
  datatype SortOrder = Asc | Desc

  /** Why the sort command stops before sorting. */
  datatype SortError = NothingToSort | InvalidField | InvalidOrder

  /** `field.trim().toLowerCase()`, accepted only as "name" or "date". */
  function ParseSortField(text: string): (r: Option<SortField>)
    ensures r == Some(ByName) <==> Lower(Trim(text)) == "name"
    ensures r == Some(ByDate) <==> Lower(Trim(text)) == "date"
  {
    var t := Lower(Trim(text));
    if t == "name" then Some(ByName) else if t == "date" then Some(ByDate) else None
  }

  /** `order.trim().toLowerCase()`, accepted only as "asc" or "desc". */
  function ParseSortOrder(text: string): (r: Option<SortOrder>)
    ensures r == Some(Asc) <==> Lower(Trim(text)) == "asc"
    ensures r == Some(Desc) <==> Lower(Trim(text)) == "desc"
  {
    var t := Lower(Trim(text));
    if t == "asc" then Some(Asc) else if t == "desc" then Some(Desc) else None
  }

  /**
   * Date order of two records (the sign of `new Date(a.createdAt) - new Date(b.createdAt)`);
   * a creation date that does not parse is placed before every other.
   */
  predicate CreatedLeq(a: Record, b: Record) {
    match (ParseDate(a.createdAt), ParseDate(b.createdAt))
    case (Some(x), Some(y)) => Leq(x, y)
    case (None, _) => true
    case (Some(_), None) => false
  }

  /** The order the sort comparator imposes: `a` may come before `b`. */
  predicate InOrder(a: Record, b: Record, field: SortField, order: SortOrder) {
    match (field, order)
    case (ByName, Asc) => LexLeq(a.name, b.name)
    case (ByName, Desc) => LexLeq(b.name, a.name)
    case (ByDate, Asc) => CreatedLeq(a, b)
    case (ByDate, Desc) => CreatedLeq(b, a)
  }

  lemma InOrderTotal(a: Record, b: Record, field: SortField, order: SortOrder)
    ensures InOrder(a, b, field, order) || InOrder(b, a, field, order)
  {
    LexLeqTotal(a.name, b.name);
  }

  lemma InOrderTransitive(a: Record, b: Record, c: Record, field: SortField, order: SortOrder)
    requires InOrder(a, b, field, order) && InOrder(b, c, field, order)
    ensures InOrder(a, c, field, order)
  {
    if field == ByName {
      if order == Asc {
        LexLeqTransitive(a.name, b.name, c.name);
      } else {
        LexLeqTransitive(c.name, b.name, a.name);
      }
    }
  }

  /** Each record may come before its successor. */
  predicate Sorted(s: seq<Record>, field: SortField, order: SortOrder) {
    forall k :: 0 < k < |s| ==> InOrder(s[k - 1], s[k], field, order)
  }

  /** A sorted list is in order between any two positions, not only neighbours. */
  lemma {:induction false} SortedPairwise(s: seq<Record>, field: SortField, order: SortOrder, i: nat, j: nat)
    requires Sorted(s, field, order) && i <= j < |s|
    ensures InOrder(s[i], s[j], field, order)
    decreases j - i
  {
    if i == j {
      InOrderTotal(s[i], s[i], field, order);
    } else {
      SortedPairwise(s, field, order, i + 1, j);
      InOrderTransitive(s[i], s[i + 1], s[j], field, order);
    }
  }

  /** Exchanges two elements of an array. */
  method Swap<T>(a: array<T>, i: nat, j: nat)
    requires i < a.Length && j < a.Length
    modifies a
    ensures a[i] == old(a[j]) && a[j] == old(a[i])
    ensures forall m :: 0 <= m < a.Length && m != i && m != j ==> a[m] == old(a[m])
    ensures multiset(a[..]) == old(multiset(a[..]))
  {
    a[i], a[j] := a[j], a[i];
  }

  /**
   * Sorts an array of records in place by insertion under the command's
   * comparator (the engine's `Array.prototype.sort`).
   */
  method InsertionSort(a: array<Record>, field: SortField, order: SortOrder)
    modifies a
    ensures multiset(a[..]) == old(multiset(a[..]))
    ensures forall k :: 0 < k < a.Length ==> InOrder(a[k - 1], a[k], field, order)
  {
    var i := 0;
    while i < a.Length
      invariant 0 <= i <= a.Length
      invariant multiset(a[..]) == old(multiset(a[..]))
      invariant forall k :: 0 < k < i ==> InOrder(a[k - 1], a[k], field, order)
    {
      var j := i;
      while j > 0 && !InOrder(a[j - 1], a[j], field, order)
        invariant 0 <= j <= i
        invariant multiset(a[..]) == old(multiset(a[..]))
        invariant forall k :: 0 < k <= i && k != j ==> InOrder(a[k - 1], a[k], field, order)
        invariant 0 < j < i ==> InOrder(a[j - 1], a[j + 1], field, order)
      {
        InOrderTotal(a[j - 1], a[j], field, order);
        Swap(a, j - 1, j);
        j := j - 1;
      }
      i := i + 1;
    }
  }

  /**
   * `[...list].sort(comparator)`: a copy of the list is sorted in place and the
   * list itself is left as it was; the result holds the same records, each in
   * order with the next.
   */
  method SortRecords(list: seq<Record>, field: SortField, order: SortOrder) returns (sorted: seq<Record>)
    ensures multiset(sorted) == multiset(list)
    ensures Sorted(sorted, field, order)
  {
    var copy := new Record[|list|](k requires 0 <= k < |list| => list[k]);
    assert copy[..] == list;
    InsertionSort(copy, field, order);
    sorted := copy[..];
  }

  /**
   * The sort command: an empty list is refused first, then a field other than
   * name/date, then an order other than asc/desc; otherwise the sorted copy.
   */
  method SortCommand(list: seq<Record>, fieldText: string, orderText: string)
    returns (res: Result<seq<Record>, SortError>)
    ensures list == [] ==> res == Err(NothingToSort)
    ensures list != [] && ParseSortField(fieldText).None? ==> res == Err(InvalidField)
    ensures list != [] && ParseSortField(fieldText).Some? && ParseSortOrder(orderText).None? ==>
      res == Err(InvalidOrder)
    ensures list != [] && ParseSortField(fieldText).Some? && ParseSortOrder(orderText).Some? ==> res.Ok?
    ensures res.Ok? ==>
      && ParseSortField(fieldText).Some? && ParseSortOrder(orderText).Some?
      && multiset(res.value) == multiset(list)
      && Sorted(res.value, ParseSortField(fieldText).value, ParseSortOrder(orderText).value)
  {
    if |list| == 0 {
      return Err(NothingToSort);
    }
    var field := ParseSortField(fieldText);
    if field.None? {
      return Err(InvalidField);
    }
    var order := ParseSortOrder(orderText);
    if order.None? {
      return Err(InvalidOrder);
    }
    var sorted := SortRecords(list, field.value, order.value);
    res := Ok(sorted);
  }

  // ------------------------------------------------------------------ export

  /** `export_<timestamp>.txt`. */
  function ExportFileName(timestamp: string): string {
    "export_" + timestamp + ".txt"
  }

  /** The header block: title, export date, record count, file name and a rule. */
  function ExportHeader(count: nat, exportDate: string, fileName: string): string {
    "=== NodeVault Export ===\n" +
    ("Export Date: " + exportDate + "\n") +
    ("Total Records: " + NatToString(count) + "\n") +
    ("File Name: " + fileName + "\n") +
    "========================\n\n"
  }

  /** One record's stanza followed by its separator line. */
  function Stanza(r: Record): string {
    ("ID: " + IntToString(r.id) + "\n") +
    ("Name: " + r.name + "\n") +
    ("Value: " + r.value + "\n") +
    ("Created At: " + r.createdAt + "\n") +
    "------------------------\n"
  }

  /** Appending five pieces one after the other appends their concatenation. */
  lemma AppendFive(t: string, a: string, b: string, c: string, d: string, e: string)
    ensures t + a + b + c + d + e == t + (a + b + c + d + e)
  {
  }

  /** The texts `f` gives the records, joined in list order. */
  function JoinMap(list: seq<Record>, f: Record -> string): string {
    if list == [] then "" else JoinMap(list[..|list| - 1], f) + f(list[|list| - 1])
  }

  /** Joining a concatenation joins each part in turn. */
  lemma {:induction false} JoinMapAppend(a: seq<Record>, b: seq<Record>, f: Record -> string)
    ensures JoinMap(a + b, f) == JoinMap(a, f) + JoinMap(b, f)
    decreases |b|
  {
    if b == [] {
      assert a + b == a;
    } else {
      var c := a + b;
      assert c[..|c| - 1] == a + b[..|b| - 1];
      JoinMapAppend(a, b[..|b| - 1], f);
    }
  }

  /** The stanzas of a list of records, in list order. */
  function Stanzas(list: seq<Record>): string {
    JoinMap(list, Stanza)
  }

  /** Record `k`'s stanza sits between those of the records before and after it. */
  lemma StanzaPosition(list: seq<Record>, k: nat)
    requires k < |list|
    ensures Stanzas(list) == Stanzas(list[..k]) + Stanza(list[k]) + Stanzas(list[k + 1..])
  {
    var f := Stanza;
    assert list == list[..k] + [list[k]] + list[k + 1..];
    JoinMapAppend(list[..k] + [list[k]], list[k + 1..], f);
    JoinMapAppend(list[..k], [list[k]], f);
    assert [list[k]][..0] == [];
    assert JoinMap([list[k]], f) == f(list[k]);
  }

  /** The body of the export's `forEach`: appends one record's lines and the separator to `text`. */
  method AppendStanza(text: string, r: Record) returns (out: string)
    ensures out == text + Stanza(r)
  {
    var idLine, nameLine, valueLine, createdLine, separator :=
      "ID: " + IntToString(r.id) + "\n",
      "Name: " + r.name + "\n",
      "Value: " + r.value + "\n",
      "Created At: " + r.createdAt + "\n",
      "------------------------\n";
    out := text + idLine;
    out := out + nameLine;
    out := out + valueLine;
    out := out + createdLine;
    out := out + separator;
    AppendFive(text, idLine, nameLine, valueLine, createdLine, separator);
  }

  lemma AppendAssociative(a: string, b: string, c: string)
    ensures (a + b) + c == a + (b + c)
  {
  }

  /** Appends the header block to `text`, line by line. */
  method AppendHeader(text: string, count: nat, exportDate: string, fileName: string) returns (out: string)
    ensures out == text + ExportHeader(count, exportDate, fileName)
  {
    var title, dateLine, countLine, nameLine, rule :=
      "=== NodeVault Export ===\n",
      "Export Date: " + exportDate + "\n",
      "Total Records: " + NatToString(count) + "\n",
      "File Name: " + fileName + "\n",
      "========================\n\n";
    out := text + title;
    out := out + dateLine;
    out := out + countLine;
    out := out + nameLine;
    out := out + rule;
    AppendFive(text, title, dateLine, countLine, nameLine, rule);
  }

  /**
   * The export text: nothing for an empty list; otherwise the header, whose
   * record count is the list length, then one stanza per record in list order.
   */
  method BuildExport(list: seq<Record>, exportDate: string, timestamp: string) returns (content: Option<string>)
    ensures list == [] <==> content.None?
    ensures content.Some? ==>
      content.value == ExportHeader(|list|, exportDate, ExportFileName(timestamp)) + Stanzas(list)
  {
    if |list| == 0 {
      return None;
    }
    var fileName := ExportFileName(timestamp);
    var text := AppendHeader("", |list|, exportDate, fileName);
    ghost var header := text;
    assert header == ExportHeader(|list|, exportDate, fileName);
    for i := 0 to |list|
      invariant text == header + Stanzas(list[..i])
    {
      var r := list[i];
      text := AppendStanza(text, r);
      assert list[..i + 1][..i] == list[..i];
      assert Stanzas(list[..i + 1]) == Stanzas(list[..i]) + Stanza(r);
      AppendAssociative(header, Stanzas(list[..i]), Stanza(r));
    }
    assert list[..|list|] == list;
    content := Some(text);
  }
}
